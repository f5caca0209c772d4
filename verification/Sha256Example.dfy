/** A worked example: the digest of a message of one block, word by word and round by round. */
module Sha256Example {
  import opened Sha256Standard

  /** The block of the padded message. */
  function Block(): (m: seq<Word>)
    ensures |m| == 16
  {
    [
      0x42757420, 0x46697273, 0x742c2057, 0x65204e65, 0x65642074, 0x6f205461, 0x6c6b2041, 0x626f7574,
      0x20506172, 0x616c6c65, 0x6c20556e, 0x69766572, 0x73657380, 0x00000000, 0x00000000, 0x00000198
    ]
  }

  ghost predicate IsWord(m: seq<Word>, t: nat, w: Word)
    requires |m| == 16
  {
    Schedule(m, t) == w
  }

  ghost predicate Sixteen(m: seq<Word>, t: nat, ws: seq<Word>)
    requires |m| == 16 == |ws|
  {
    && IsWord(m, t, ws[0]) && IsWord(m, t + 1, ws[1]) && IsWord(m, t + 2, ws[2]) && IsWord(m, t + 3, ws[3])
    && IsWord(m, t + 4, ws[4]) && IsWord(m, t + 5, ws[5]) && IsWord(m, t + 6, ws[6]) && IsWord(m, t + 7, ws[7])
    && IsWord(m, t + 8, ws[8]) && IsWord(m, t + 9, ws[9]) && IsWord(m, t + 10, ws[10]) && IsWord(m, t + 11, ws[11])
    && IsWord(m, t + 12, ws[12]) && IsWord(m, t + 13, ws[13]) && IsWord(m, t + 14, ws[14]) && IsWord(m, t + 15, ws[15])
  }

  /** The word behind those two, seven, fifteen and sixteen places before it. */
  predicate Follows(w2: Word, w7: Word, w15: Word, w16: Word, w: Word) {
    Add(Add(Add(SmallSigma1(w2), w7), SmallSigma0(w15)), w16) == w
  }

  lemma Scheduled(m: seq<Word>, t: nat, w2: Word, w7: Word, w15: Word, w16: Word, w: Word)
    requires |m| == 16 && 16 <= t < 64 && Follows(w2, w7, w15, w16, w)
    requires IsWord(m, t - 2, w2) && IsWord(m, t - 7, w7) && IsWord(m, t - 15, w15) && IsWord(m, t - 16, w16)
    ensures IsWord(m, t, w)
  {
    hide Block, Add, SmallSigma0, SmallSigma1;
  }

  lemma Words1(m: seq<Word>, t: nat)
    requires m == Block() && t == 0
    ensures Sixteen(m, t, [0x42757420, 0x46697273, 0x742c2057, 0x65204e65, 0x65642074, 0x6f205461, 0x6c6b2041, 0x626f7574,
                           0x20506172, 0x616c6c65, 0x6c20556e, 0x69766572, 0x73657380, 0x00000000, 0x00000000, 0x00000198])
  {
  }

  lemma Words2(m: seq<Word>, t: nat)
    requires m == Block() && t == 8
    ensures Sixteen(m, t, [0x20506172, 0x616c6c65, 0x6c20556e, 0x69766572, 0x73657380, 0x00000000, 0x00000000, 0x00000198,
                           0x56bf0db5, 0x5c00c922, 0x1b13442c, 0x42a37cae, 0x0a1b7c9a, 0x88387f8d, 0x781c0d49, 0xe15a2325])
  {
    hide IsWord, Block;
    Words1(m, t - 8);
    More2(m, t - 8);
  }

  lemma More2(m: seq<Word>, u: nat)
    requires |m| == 16 && u + 24 <= 64
    requires Sixteen(m, u, [0x42757420, 0x46697273, 0x742c2057, 0x65204e65, 0x65642074, 0x6f205461, 0x6c6b2041, 0x626f7574,
                           0x20506172, 0x616c6c65, 0x6c20556e, 0x69766572, 0x73657380, 0x00000000, 0x00000000, 0x00000198])
    ensures Sixteen(m, u + 8, [0x20506172, 0x616c6c65, 0x6c20556e, 0x69766572, 0x73657380, 0x00000000, 0x00000000, 0x00000198,
                           0x56bf0db5, 0x5c00c922, 0x1b13442c, 0x42a37cae, 0x0a1b7c9a, 0x88387f8d, 0x781c0d49, 0xe15a2325])
  {
    hide IsWord;
    Scheduled(m, u + 16, 0x00000000, 0x616c6c65, 0x46697273, 0x42757420, 0x56bf0db5);
    Scheduled(m, u + 17, 0x00000198, 0x6c20556e, 0x742c2057, 0x46697273, 0x5c00c922);
    Scheduled(m, u + 18, 0x56bf0db5, 0x69766572, 0x65204e65, 0x742c2057, 0x1b13442c);
    Scheduled(m, u + 19, 0x5c00c922, 0x73657380, 0x65642074, 0x65204e65, 0x42a37cae);
    Scheduled(m, u + 20, 0x1b13442c, 0x00000000, 0x6f205461, 0x65642074, 0x0a1b7c9a);
    Scheduled(m, u + 21, 0x42a37cae, 0x00000000, 0x6c6b2041, 0x6f205461, 0x88387f8d);
    Scheduled(m, u + 22, 0x0a1b7c9a, 0x00000198, 0x626f7574, 0x6c6b2041, 0x781c0d49);
    Scheduled(m, u + 23, 0x88387f8d, 0x56bf0db5, 0x20506172, 0x626f7574, 0xe15a2325);
  }

  lemma Words3(m: seq<Word>, t: nat)
    requires m == Block() && t == 16
    ensures Sixteen(m, t, [0x56bf0db5, 0x5c00c922, 0x1b13442c, 0x42a37cae, 0x0a1b7c9a, 0x88387f8d, 0x781c0d49, 0xe15a2325,
                           0xe15acbb1, 0x96559bae, 0x5bfb2689, 0x448366e0, 0xf3216b58, 0x57d91751, 0xaabbd303, 0x2dca0e9d])
  {
    hide IsWord, Block;
    Words2(m, t - 8);
    More3(m, t - 8);
  }

  lemma More3(m: seq<Word>, u: nat)
    requires |m| == 16 && u + 24 <= 64
    requires Sixteen(m, u, [0x20506172, 0x616c6c65, 0x6c20556e, 0x69766572, 0x73657380, 0x00000000, 0x00000000, 0x00000198,
                           0x56bf0db5, 0x5c00c922, 0x1b13442c, 0x42a37cae, 0x0a1b7c9a, 0x88387f8d, 0x781c0d49, 0xe15a2325])
    ensures Sixteen(m, u + 8, [0x56bf0db5, 0x5c00c922, 0x1b13442c, 0x42a37cae, 0x0a1b7c9a, 0x88387f8d, 0x781c0d49, 0xe15a2325,
                           0xe15acbb1, 0x96559bae, 0x5bfb2689, 0x448366e0, 0xf3216b58, 0x57d91751, 0xaabbd303, 0x2dca0e9d])
  {
    hide IsWord;
    Scheduled(m, u + 16, 0x781c0d49, 0x5c00c922, 0x616c6c65, 0x20506172, 0xe15acbb1);
    Scheduled(m, u + 17, 0xe15a2325, 0x1b13442c, 0x6c20556e, 0x616c6c65, 0x96559bae);
    Scheduled(m, u + 18, 0xe15acbb1, 0x42a37cae, 0x69766572, 0x6c20556e, 0x5bfb2689);
    Scheduled(m, u + 19, 0x96559bae, 0x0a1b7c9a, 0x73657380, 0x69766572, 0x448366e0);
    Scheduled(m, u + 20, 0x5bfb2689, 0x88387f8d, 0x00000000, 0x73657380, 0xf3216b58);
    Scheduled(m, u + 21, 0x448366e0, 0x781c0d49, 0x00000000, 0x00000000, 0x57d91751);
    Scheduled(m, u + 22, 0xf3216b58, 0xe15a2325, 0x00000198, 0x00000000, 0xaabbd303);
    Scheduled(m, u + 23, 0x57d91751, 0xe15acbb1, 0x56bf0db5, 0x00000198, 0x2dca0e9d);
  }

  lemma Words4(m: seq<Word>, t: nat)
    requires m == Block() && t == 24
    ensures Sixteen(m, t, [0xe15acbb1, 0x96559bae, 0x5bfb2689, 0x448366e0, 0xf3216b58, 0x57d91751, 0xaabbd303, 0x2dca0e9d,
                           0xfe504817, 0x88f17a53, 0x18c7f9c0, 0xb2784d2a, 0x7bc6ef70, 0x00b2cba4, 0x2f4f677a, 0xe956acf0])
  {
    hide IsWord, Block;
    Words3(m, t - 8);
    More4(m, t - 8);
  }

  lemma More4(m: seq<Word>, u: nat)
    requires |m| == 16 && u + 24 <= 64
    requires Sixteen(m, u, [0x56bf0db5, 0x5c00c922, 0x1b13442c, 0x42a37cae, 0x0a1b7c9a, 0x88387f8d, 0x781c0d49, 0xe15a2325,
                           0xe15acbb1, 0x96559bae, 0x5bfb2689, 0x448366e0, 0xf3216b58, 0x57d91751, 0xaabbd303, 0x2dca0e9d])
    ensures Sixteen(m, u + 8, [0xe15acbb1, 0x96559bae, 0x5bfb2689, 0x448366e0, 0xf3216b58, 0x57d91751, 0xaabbd303, 0x2dca0e9d,
                           0xfe504817, 0x88f17a53, 0x18c7f9c0, 0xb2784d2a, 0x7bc6ef70, 0x00b2cba4, 0x2f4f677a, 0xe956acf0])
  {
    hide IsWord;
    Scheduled(m, u + 16, 0xaabbd303, 0x96559bae, 0x5c00c922, 0x56bf0db5, 0xfe504817);
    Scheduled(m, u + 17, 0x2dca0e9d, 0x5bfb2689, 0x1b13442c, 0x5c00c922, 0x88f17a53);
    Scheduled(m, u + 18, 0xfe504817, 0x448366e0, 0x42a37cae, 0x1b13442c, 0x18c7f9c0);
    Scheduled(m, u + 19, 0x88f17a53, 0xf3216b58, 0x0a1b7c9a, 0x42a37cae, 0xb2784d2a);
    Scheduled(m, u + 20, 0x18c7f9c0, 0x57d91751, 0x88387f8d, 0x0a1b7c9a, 0x7bc6ef70);
    Scheduled(m, u + 21, 0xb2784d2a, 0xaabbd303, 0x781c0d49, 0x88387f8d, 0x00b2cba4);
    Scheduled(m, u + 22, 0x7bc6ef70, 0x2dca0e9d, 0xe15a2325, 0x781c0d49, 0x2f4f677a);
    Scheduled(m, u + 23, 0x00b2cba4, 0xfe504817, 0xe15acbb1, 0xe15a2325, 0xe956acf0);
  }

  lemma Words5(m: seq<Word>, t: nat)
    requires m == Block() && t == 32
    ensures Sixteen(m, t, [0xfe504817, 0x88f17a53, 0x18c7f9c0, 0xb2784d2a, 0x7bc6ef70, 0x00b2cba4, 0x2f4f677a, 0xe956acf0,
                           0xf2b38572, 0x036495fa, 0xd2407ad2, 0x8de142c0, 0x135c9fa4, 0xf706954f, 0x2c7a7b91, 0xdae4aedb])
  {
    hide IsWord, Block;
    Words4(m, t - 8);
    More5(m, t - 8);
  }

  lemma More5(m: seq<Word>, u: nat)
    requires |m| == 16 && u + 24 <= 64
    requires Sixteen(m, u, [0xe15acbb1, 0x96559bae, 0x5bfb2689, 0x448366e0, 0xf3216b58, 0x57d91751, 0xaabbd303, 0x2dca0e9d,
                           0xfe504817, 0x88f17a53, 0x18c7f9c0, 0xb2784d2a, 0x7bc6ef70, 0x00b2cba4, 0x2f4f677a, 0xe956acf0])
    ensures Sixteen(m, u + 8, [0xfe504817, 0x88f17a53, 0x18c7f9c0, 0xb2784d2a, 0x7bc6ef70, 0x00b2cba4, 0x2f4f677a, 0xe956acf0,
                           0xf2b38572, 0x036495fa, 0xd2407ad2, 0x8de142c0, 0x135c9fa4, 0xf706954f, 0x2c7a7b91, 0xdae4aedb])
  {
    hide IsWord;
    Scheduled(m, u + 16, 0x2f4f677a, 0x88f17a53, 0x96559bae, 0xe15acbb1, 0xf2b38572);
    Scheduled(m, u + 17, 0xe956acf0, 0x18c7f9c0, 0x5bfb2689, 0x96559bae, 0x036495fa);
    Scheduled(m, u + 18, 0xf2b38572, 0xb2784d2a, 0x448366e0, 0x5bfb2689, 0xd2407ad2);
    Scheduled(m, u + 19, 0x036495fa, 0x7bc6ef70, 0xf3216b58, 0x448366e0, 0x8de142c0);
    Scheduled(m, u + 20, 0xd2407ad2, 0x00b2cba4, 0x57d91751, 0xf3216b58, 0x135c9fa4);
    Scheduled(m, u + 21, 0x8de142c0, 0x2f4f677a, 0xaabbd303, 0x57d91751, 0xf706954f);
    Scheduled(m, u + 22, 0x135c9fa4, 0xe956acf0, 0x2dca0e9d, 0xaabbd303, 0x2c7a7b91);
    Scheduled(m, u + 23, 0xf706954f, 0xf2b38572, 0xfe504817, 0x2dca0e9d, 0xdae4aedb);
  }

  lemma Words6(m: seq<Word>, t: nat)
    requires m == Block() && t == 40
    ensures Sixteen(m, t, [0xf2b38572, 0x036495fa, 0xd2407ad2, 0x8de142c0, 0x135c9fa4, 0xf706954f, 0x2c7a7b91, 0xdae4aedb,
                           0x5d01babf, 0x9b0b9b24, 0xe129976f, 0xd8f85791, 0x672e0862, 0x76a42a9d, 0x271d0dd7, 0xf148cf43])
  {
    hide IsWord, Block;
    Words5(m, t - 8);
    More6(m, t - 8);
  }

  lemma More6(m: seq<Word>, u: nat)
    requires |m| == 16 && u + 24 <= 64
    requires Sixteen(m, u, [0xfe504817, 0x88f17a53, 0x18c7f9c0, 0xb2784d2a, 0x7bc6ef70, 0x00b2cba4, 0x2f4f677a, 0xe956acf0,
                           0xf2b38572, 0x036495fa, 0xd2407ad2, 0x8de142c0, 0x135c9fa4, 0xf706954f, 0x2c7a7b91, 0xdae4aedb])
    ensures Sixteen(m, u + 8, [0xf2b38572, 0x036495fa, 0xd2407ad2, 0x8de142c0, 0x135c9fa4, 0xf706954f, 0x2c7a7b91, 0xdae4aedb,
                           0x5d01babf, 0x9b0b9b24, 0xe129976f, 0xd8f85791, 0x672e0862, 0x76a42a9d, 0x271d0dd7, 0xf148cf43])
  {
    hide IsWord;
    Scheduled(m, u + 16, 0x2c7a7b91, 0x036495fa, 0x88f17a53, 0xfe504817, 0x5d01babf);
    Scheduled(m, u + 17, 0xdae4aedb, 0xd2407ad2, 0x18c7f9c0, 0x88f17a53, 0x9b0b9b24);
    Scheduled(m, u + 18, 0x5d01babf, 0x8de142c0, 0xb2784d2a, 0x18c7f9c0, 0xe129976f);
    Scheduled(m, u + 19, 0x9b0b9b24, 0x135c9fa4, 0x7bc6ef70, 0xb2784d2a, 0xd8f85791);
    Scheduled(m, u + 20, 0xe129976f, 0xf706954f, 0x00b2cba4, 0x7bc6ef70, 0x672e0862);
    Scheduled(m, u + 21, 0xd8f85791, 0x2c7a7b91, 0x2f4f677a, 0x00b2cba4, 0x76a42a9d);
    Scheduled(m, u + 22, 0x672e0862, 0xdae4aedb, 0xe956acf0, 0x2f4f677a, 0x271d0dd7);
    Scheduled(m, u + 23, 0x76a42a9d, 0x5d01babf, 0xf2b38572, 0xe956acf0, 0xf148cf43);
  }

  lemma Words7(m: seq<Word>, t: nat)
    requires m == Block() && t == 48
    ensures Sixteen(m, t, [0x5d01babf, 0x9b0b9b24, 0xe129976f, 0xd8f85791, 0x672e0862, 0x76a42a9d, 0x271d0dd7, 0xf148cf43,
                           0x862cac11, 0x045c3d66, 0x2efc1500, 0xfbd24ee8, 0x36899a27, 0x45ef29c1, 0xa37dd506, 0xee912fce])
  {
    hide IsWord, Block;
    Words6(m, t - 8);
    More7(m, t - 8);
  }

  lemma More7(m: seq<Word>, u: nat)
    requires |m| == 16 && u + 24 <= 64
    requires Sixteen(m, u, [0xf2b38572, 0x036495fa, 0xd2407ad2, 0x8de142c0, 0x135c9fa4, 0xf706954f, 0x2c7a7b91, 0xdae4aedb,
                           0x5d01babf, 0x9b0b9b24, 0xe129976f, 0xd8f85791, 0x672e0862, 0x76a42a9d, 0x271d0dd7, 0xf148cf43])
    ensures Sixteen(m, u + 8, [0x5d01babf, 0x9b0b9b24, 0xe129976f, 0xd8f85791, 0x672e0862, 0x76a42a9d, 0x271d0dd7, 0xf148cf43,
                           0x862cac11, 0x045c3d66, 0x2efc1500, 0xfbd24ee8, 0x36899a27, 0x45ef29c1, 0xa37dd506, 0xee912fce])
  {
    hide IsWord;
    Scheduled(m, u + 16, 0x271d0dd7, 0x9b0b9b24, 0x036495fa, 0xf2b38572, 0x862cac11);
    Scheduled(m, u + 17, 0xf148cf43, 0xe129976f, 0xd2407ad2, 0x036495fa, 0x045c3d66);
    Scheduled(m, u + 18, 0x862cac11, 0xd8f85791, 0x8de142c0, 0xd2407ad2, 0x2efc1500);
    Scheduled(m, u + 19, 0x045c3d66, 0x672e0862, 0x135c9fa4, 0x8de142c0, 0xfbd24ee8);
    Scheduled(m, u + 20, 0x2efc1500, 0x76a42a9d, 0xf706954f, 0x135c9fa4, 0x36899a27);
    Scheduled(m, u + 21, 0xfbd24ee8, 0x271d0dd7, 0x2c7a7b91, 0xf706954f, 0x45ef29c1);
    Scheduled(m, u + 22, 0x36899a27, 0xf148cf43, 0xdae4aedb, 0x2c7a7b91, 0xa37dd506);
    Scheduled(m, u + 23, 0x45ef29c1, 0x862cac11, 0x5d01babf, 0xdae4aedb, 0xee912fce);
  }

  lemma Constants1()
    ensures RoundConstant(0) == 0x428a2f98 && RoundConstant(1) == 0x71374491 && RoundConstant(2) == 0xb5c0fbcf && RoundConstant(3) == 0xe9b5dba5
    ensures RoundConstant(4) == 0x3956c25b && RoundConstant(5) == 0x59f111f1 && RoundConstant(6) == 0x923f82a4 && RoundConstant(7) == 0xab1c5ed5
    ensures RoundConstant(8) == 0xd807aa98 && RoundConstant(9) == 0x12835b01 && RoundConstant(10) == 0x243185be && RoundConstant(11) == 0x550c7dc3
    ensures RoundConstant(12) == 0x72be5d74 && RoundConstant(13) == 0x80deb1fe && RoundConstant(14) == 0x9bdc06a7 && RoundConstant(15) == 0xc19bf174
  {
  }

  lemma Constants2()
    ensures RoundConstant(16) == 0xe49b69c1 && RoundConstant(17) == 0xefbe4786 && RoundConstant(18) == 0x0fc19dc6 && RoundConstant(19) == 0x240ca1cc
    ensures RoundConstant(20) == 0x2de92c6f && RoundConstant(21) == 0x4a7484aa && RoundConstant(22) == 0x5cb0a9dc && RoundConstant(23) == 0x76f988da
    ensures RoundConstant(24) == 0x983e5152 && RoundConstant(25) == 0xa831c66d && RoundConstant(26) == 0xb00327c8 && RoundConstant(27) == 0xbf597fc7
    ensures RoundConstant(28) == 0xc6e00bf3 && RoundConstant(29) == 0xd5a79147 && RoundConstant(30) == 0x06ca6351 && RoundConstant(31) == 0x14292967
  {
  }

  lemma Constants3()
    ensures RoundConstant(32) == 0x27b70a85 && RoundConstant(33) == 0x2e1b2138 && RoundConstant(34) == 0x4d2c6dfc && RoundConstant(35) == 0x53380d13
    ensures RoundConstant(36) == 0x650a7354 && RoundConstant(37) == 0x766a0abb && RoundConstant(38) == 0x81c2c92e && RoundConstant(39) == 0x92722c85
    ensures RoundConstant(40) == 0xa2bfe8a1 && RoundConstant(41) == 0xa81a664b && RoundConstant(42) == 0xc24b8b70 && RoundConstant(43) == 0xc76c51a3
    ensures RoundConstant(44) == 0xd192e819 && RoundConstant(45) == 0xd6990624 && RoundConstant(46) == 0xf40e3585 && RoundConstant(47) == 0x106aa070
  {
  }

  lemma Constants4()
    ensures RoundConstant(48) == 0x19a4c116 && RoundConstant(49) == 0x1e376c08 && RoundConstant(50) == 0x2748774c && RoundConstant(51) == 0x34b0bcb5
    ensures RoundConstant(52) == 0x391c0cb3 && RoundConstant(53) == 0x4ed8aa4a && RoundConstant(54) == 0x5b9cca4f && RoundConstant(55) == 0x682e6ff3
    ensures RoundConstant(56) == 0x748f82ee && RoundConstant(57) == 0x78a5636f && RoundConstant(58) == 0x84c87814 && RoundConstant(59) == 0x8cc70208
    ensures RoundConstant(60) == 0x90befffa && RoundConstant(61) == 0xa4506ceb && RoundConstant(62) == 0xbef9a3f7 && RoundConstant(63) == 0xc67178f2
  {
  }

  function Start(): Registers {
    Load(InitialHash())
  }

  predicate Turns(a: Word, b: Word, c: Word, d: Word, e: Word, f: Word, g: Word, h: Word, k: Word, w: Word, x: Word, y: Word) {
    Round(Registers(a, b, c, d, e, f, g, h), k, w) == Registers(x, a, b, c, y, e, f, g)
  }

  lemma Turned(m: seq<Word>, t: nat, a: Word, b: Word, c: Word, d: Word, e: Word, f: Word, g: Word, h: Word, k: Word, w: Word, x: Word, y: Word)
    requires |m| == 16 && t < 64 && Rounds(Start(), m, t) == Registers(a, b, c, d, e, f, g, h)
    requires RoundConstant(t) == k && IsWord(m, t, w) && Turns(a, b, c, d, e, f, g, h, k, w, x, y)
    ensures Rounds(Start(), m, t + 1) == Registers(x, a, b, c, y, e, f, g)
  {
    hide Block, Round, Start, RoundConstant, Schedule;
  }

  lemma FirstRounds(m: seq<Word>, t: nat)
    requires m == Block() && t == 0
    ensures Rounds(Start(), m, t + 8) == Registers(0x02e25315, 0x5e285120, 0xc720200c, 0x3d52cbf2, 0x7bd2e552, 0xb00957d0, 0x1719849a, 0x5120d38b)
  {
    hide Rounds, IsWord, Block, RoundConstant, Start;
    NoRounds(m);
    Words1(m, t);
    Constants1();
    Turned(m, t, 0x6a09e667, 0xbb67ae85, 0x3c6ef372, 0xa54ff53a, 0x510e527f, 0x9b05688c, 0x1f83d9ab, 0x5be0cd19, 0x428a2f98, 0x42757420, 0x3e7dfc6d, 0xdb3d56c2);
    Turned(m, t + 1, 0x3e7dfc6d, 0x6a09e667, 0xbb67ae85, 0x3c6ef372, 0xdb3d56c2, 0x510e527f, 0x9b05688c, 0x1f83d9ab, 0x71374491, 0x46697273, 0x0b43250b, 0xb23cf20b);
    Turned(m, t + 2, 0x0b43250b, 0x3e7dfc6d, 0x6a09e667, 0xbb67ae85, 0xb23cf20b, 0xdb3d56c2, 0x510e527f, 0x9b05688c, 0xb5c0fbcf, 0x742c2057, 0x1a5f2c9c, 0xc560373c);
    Turned(m, t + 3, 0x1a5f2c9c, 0x0b43250b, 0x3e7dfc6d, 0x6a09e667, 0xc560373c, 0xb23cf20b, 0xdb3d56c2, 0x510e527f, 0xe9b5dba5, 0x65204e65, 0x17dd37cf, 0x48c28872);
    Turned(m, t + 4, 0x17dd37cf, 0x1a5f2c9c, 0x0b43250b, 0x3e7dfc6d, 0x48c28872, 0xc560373c, 0xb23cf20b, 0xdb3d56c2, 0x3956c25b, 0x65642074, 0x3d52cbf2, 0x5120d38b);
    Turned(m, t + 5, 0x3d52cbf2, 0x17dd37cf, 0x1a5f2c9c, 0x0b43250b, 0x5120d38b, 0x48c28872, 0xc560373c, 0xb23cf20b, 0x59f111f1, 0x6f205461, 0xc720200c, 0x1719849a);
    Turned(m, t + 6, 0xc720200c, 0x3d52cbf2, 0x17dd37cf, 0x1a5f2c9c, 0x1719849a, 0x5120d38b, 0x48c28872, 0xc560373c, 0x923f82a4, 0x6c6b2041, 0x5e285120, 0xb00957d0);
    Turned(m, t + 7, 0x5e285120, 0xc720200c, 0x3d52cbf2, 0x17dd37cf, 0xb00957d0, 0x1719849a, 0x5120d38b, 0x48c28872, 0xab1c5ed5, 0x626f7574, 0x02e25315, 0x7bd2e552);
  }

  lemma SecondRounds(m: seq<Word>, t: nat)
    requires m == Block() && t == 8
    ensures Rounds(Start(), m, t + 8) == Registers(0xe68a7db8, 0xc14defbe, 0x09fc55f2, 0xf492aa0b, 0x774cf540, 0x48fcdac4, 0x59f743d7, 0x30edd131)
  {
    hide Rounds, IsWord, Block, RoundConstant, Start;
    FirstRounds(m, t - 8);
    Words2(m, t);
    Constants1();
    Turned(m, t, 0x02e25315, 0x5e285120, 0xc720200c, 0x3d52cbf2, 0x7bd2e552, 0xb00957d0, 0x1719849a, 0x5120d38b, 0xd807aa98, 0x20506172, 0x1fd1e741, 0xc5a78a53);
    Turned(m, t + 1, 0x1fd1e741, 0x02e25315, 0x5e285120, 0xc720200c, 0xc5a78a53, 0x7bd2e552, 0xb00957d0, 0x1719849a, 0x12835b01, 0x616c6c65, 0x2c80fb2d, 0x9a5f4518);
    Turned(m, t + 2, 0x2c80fb2d, 0x1fd1e741, 0x02e25315, 0x5e285120, 0x9a5f4518, 0xc5a78a53, 0x7bd2e552, 0xb00957d0, 0x243185be, 0x6c20556e, 0xb1226f82, 0x6ee3df1f);
    Turned(m, t + 3, 0xb1226f82, 0x2c80fb2d, 0x1fd1e741, 0x02e25315, 0x6ee3df1f, 0x9a5f4518, 0xc5a78a53, 0x7bd2e552, 0x550c7dc3, 0x69766572, 0x4cbaf1c7, 0xb8393da4);
    Turned(m, t + 4, 0x4cbaf1c7, 0xb1226f82, 0x2c80fb2d, 0x1fd1e741, 0xb8393da4, 0x6ee3df1f, 0x9a5f4518, 0xc5a78a53, 0x72be5d74, 0x73657380, 0xf492aa0b, 0x30edd131);
    Turned(m, t + 5, 0xf492aa0b, 0x4cbaf1c7, 0xb1226f82, 0x2c80fb2d, 0x30edd131, 0xb8393da4, 0x6ee3df1f, 0x9a5f4518, 0x80deb1fe, 0x00000000, 0x09fc55f2, 0x59f743d7);
    Turned(m, t + 6, 0x09fc55f2, 0xf492aa0b, 0x4cbaf1c7, 0xb1226f82, 0x59f743d7, 0x30edd131, 0xb8393da4, 0x6ee3df1f, 0x9bdc06a7, 0x00000000, 0xc14defbe, 0x48fcdac4);
    Turned(m, t + 7, 0xc14defbe, 0x09fc55f2, 0xf492aa0b, 0x4cbaf1c7, 0x48fcdac4, 0x59f743d7, 0x30edd131, 0xb8393da4, 0xc19bf174, 0x00000198, 0xe68a7db8, 0x774cf540);
  }

  lemma ThirdRounds(m: seq<Word>, t: nat)
    requires m == Block() && t == 16
    ensures Rounds(Start(), m, t + 8) == Registers(0x5b438e5d, 0x555c1529, 0x2abab2bf, 0x22f01086, 0x372bb859, 0xae18a860, 0x301f959c, 0xc396dd1c)
  {
    hide Rounds, IsWord, Block, RoundConstant, Start;
    SecondRounds(m, t - 8);
    Words3(m, t);
    Constants2();
    Turned(m, t, 0xe68a7db8, 0xc14defbe, 0x09fc55f2, 0xf492aa0b, 0x774cf540, 0x48fcdac4, 0x59f743d7, 0x30edd131, 0xe49b69c1, 0x56bf0db5, 0x84515c4f, 0xb9843ff9);
    Turned(m, t + 1, 0x84515c4f, 0xe68a7db8, 0xc14defbe, 0x09fc55f2, 0xb9843ff9, 0x774cf540, 0x48fcdac4, 0x59f743d7, 0xefbe4786, 0x5c00c922, 0xfd64efad, 0xfcfe7c59);
    Turned(m, t + 2, 0xfd64efad, 0x84515c4f, 0xe68a7db8, 0xc14defbe, 0xfcfe7c59, 0xb9843ff9, 0x774cf540, 0x48fcdac4, 0x0fc19dc6, 0x1b13442c, 0x3911a9b5, 0x8496b48d);
    Turned(m, t + 3, 0x3911a9b5, 0xfd64efad, 0x84515c4f, 0xe68a7db8, 0x8496b48d, 0xfcfe7c59, 0xb9843ff9, 0x774cf540, 0x240ca1cc, 0x42a37cae, 0x8b2945aa, 0x6f165fb1);
    Turned(m, t + 4, 0x8b2945aa, 0x3911a9b5, 0xfd64efad, 0x84515c4f, 0x6f165fb1, 0x8496b48d, 0xfcfe7c59, 0xb9843ff9, 0x2de92c6f, 0x0a1b7c9a, 0x22f01086, 0xc396dd1c);
    Turned(m, t + 5, 0x22f01086, 0x8b2945aa, 0x3911a9b5, 0xfd64efad, 0xc396dd1c, 0x6f165fb1, 0x8496b48d, 0xfcfe7c59, 0x4a7484aa, 0x88387f8d, 0x2abab2bf, 0x301f959c);
    Turned(m, t + 6, 0x2abab2bf, 0x22f01086, 0x8b2945aa, 0x3911a9b5, 0x301f959c, 0xc396dd1c, 0x6f165fb1, 0x8496b48d, 0x5cb0a9dc, 0x781c0d49, 0x555c1529, 0xae18a860);
    Turned(m, t + 7, 0x555c1529, 0x2abab2bf, 0x22f01086, 0x8b2945aa, 0xae18a860, 0x301f959c, 0xc396dd1c, 0x6f165fb1, 0x76f988da, 0xe15a2325, 0x5b438e5d, 0x372bb859);
  }

  lemma FourthRounds(m: seq<Word>, t: nat)
    requires m == Block() && t == 24
    ensures Rounds(Start(), m, t + 8) == Registers(0x485432fd, 0x4a7fbee8, 0x9147d77b, 0x9350abdc, 0xd58fa7b4, 0xd57e037b, 0x5eec50a5, 0xffa0bd37)
  {
    hide Rounds, IsWord, Block, RoundConstant, Start;
    ThirdRounds(m, t - 8);
    Words4(m, t);
    Constants2();
    Turned(m, t, 0x5b438e5d, 0x555c1529, 0x2abab2bf, 0x22f01086, 0x372bb859, 0xae18a860, 0x301f959c, 0xc396dd1c, 0x983e5152, 0xe15acbb1, 0xe2d0f213, 0x80631f76);
    Turned(m, t + 1, 0xe2d0f213, 0x5b438e5d, 0x555c1529, 0x2abab2bf, 0x80631f76, 0x372bb859, 0xae18a860, 0x301f959c, 0xa831c66d, 0x96559bae, 0x2174e706, 0xccfb9e24);
    Turned(m, t + 2, 0x2174e706, 0xe2d0f213, 0x5b438e5d, 0x555c1529, 0xccfb9e24, 0x80631f76, 0x372bb859, 0xae18a860, 0xb00327c8, 0x5bfb2689, 0x5f20a995, 0xed3badc4);
    Turned(m, t + 3, 0x5f20a995, 0x2174e706, 0xe2d0f213, 0x5b438e5d, 0xed3badc4, 0xccfb9e24, 0x80631f76, 0x372bb859, 0xbf597fc7, 0x448366e0, 0x3bb9521d, 0x99c77747);
    Turned(m, t + 4, 0x3bb9521d, 0x5f20a995, 0x2174e706, 0xe2d0f213, 0x99c77747, 0xed3badc4, 0xccfb9e24, 0x80631f76, 0xc6e00bf3, 0xf3216b58, 0x9350abdc, 0xffa0bd37);
    Turned(m, t + 5, 0x9350abdc, 0x3bb9521d, 0x5f20a995, 0x2174e706, 0xffa0bd37, 0x99c77747, 0xed3badc4, 0xccfb9e24, 0xd5a79147, 0x57d91751, 0x9147d77b, 0x5eec50a5);
    Turned(m, t + 6, 0x9147d77b, 0x9350abdc, 0x3bb9521d, 0x5f20a995, 0x5eec50a5, 0xffa0bd37, 0x99c77747, 0xed3badc4, 0x06ca6351, 0xaabbd303, 0x4a7fbee8, 0xd57e037b);
    Turned(m, t + 7, 0x4a7fbee8, 0x9147d77b, 0x9350abdc, 0x3bb9521d, 0xd57e037b, 0x5eec50a5, 0xffa0bd37, 0x99c77747, 0x14292967, 0x2dca0e9d, 0x485432fd, 0xd58fa7b4);
  }

  lemma FifthRounds(m: seq<Word>, t: nat)
    requires m == Block() && t == 32
    ensures Rounds(Start(), m, t + 8) == Registers(0xcb871798, 0x4918371b, 0x6adb93d5, 0xa904b70d, 0xa3cab1e2, 0x3f861da9, 0xfc6ef2f8, 0xf2d71400)
  {
    hide Rounds, IsWord, Block, RoundConstant, Start;
    FourthRounds(m, t - 8);
    Words5(m, t);
    Constants3();
    Turned(m, t, 0x485432fd, 0x4a7fbee8, 0x9147d77b, 0x9350abdc, 0xd58fa7b4, 0xd57e037b, 0x5eec50a5, 0xffa0bd37, 0x27b70a85, 0xfe504817, 0xc4c22a3c, 0x7a8663e0);
    Turned(m, t + 1, 0xc4c22a3c, 0x485432fd, 0x4a7fbee8, 0x9147d77b, 0x7a8663e0, 0xd58fa7b4, 0xd57e037b, 0x5eec50a5, 0x2e1b2138, 0x88f17a53, 0x5ba063f2, 0x3c13a0e4);
    Turned(m, t + 2, 0x5ba063f2, 0xc4c22a3c, 0x485432fd, 0x4a7fbee8, 0x3c13a0e4, 0x7a8663e0, 0xd58fa7b4, 0xd57e037b, 0x4d2c6dfc, 0x18c7f9c0, 0x0c5d819d, 0x052810f8);
    Turned(m, t + 3, 0x0c5d819d, 0x5ba063f2, 0xc4c22a3c, 0x485432fd, 0x052810f8, 0x3c13a0e4, 0x7a8663e0, 0xd58fa7b4, 0x53380d13, 0xb2784d2a, 0x4b9c798a, 0x0d371211);
    Turned(m, t + 4, 0x4b9c798a, 0x0c5d819d, 0x5ba063f2, 0xc4c22a3c, 0x0d371211, 0x052810f8, 0x3c13a0e4, 0x7a8663e0, 0x650a7354, 0x7bc6ef70, 0xa904b70d, 0xf2d71400);
    Turned(m, t + 5, 0xa904b70d, 0x4b9c798a, 0x0c5d819d, 0x5ba063f2, 0xf2d71400, 0x0d371211, 0x052810f8, 0x3c13a0e4, 0x766a0abb, 0x00b2cba4, 0x6adb93d5, 0xfc6ef2f8);
    Turned(m, t + 6, 0x6adb93d5, 0xa904b70d, 0x4b9c798a, 0x0c5d819d, 0xfc6ef2f8, 0xf2d71400, 0x0d371211, 0x052810f8, 0x81c2c92e, 0x2f4f677a, 0x4918371b, 0x3f861da9);
    Turned(m, t + 7, 0x4918371b, 0x6adb93d5, 0xa904b70d, 0x4b9c798a, 0x3f861da9, 0xfc6ef2f8, 0xf2d71400, 0x0d371211, 0x92722c85, 0xe956acf0, 0xcb871798, 0xa3cab1e2);
  }

  lemma SixthRounds(m: seq<Word>, t: nat)
    requires m == Block() && t == 40
    ensures Rounds(Start(), m, t + 8) == Registers(0x6846a950, 0x72169b4c, 0x7dccdfa1, 0x98c9f538, 0x6fffff9d, 0x2ff1b340, 0x06dcef11, 0xda07caec)
  {
    hide Rounds, IsWord, Block, RoundConstant, Start;
    FifthRounds(m, t - 8);
    Words6(m, t);
    Constants3();
    Turned(m, t, 0xcb871798, 0x4918371b, 0x6adb93d5, 0xa904b70d, 0xa3cab1e2, 0x3f861da9, 0xfc6ef2f8, 0xf2d71400, 0xa2bfe8a1, 0xf2b38572, 0x39898b14, 0x04792f98);
    Turned(m, t + 1, 0x39898b14, 0xcb871798, 0x4918371b, 0x6adb93d5, 0x04792f98, 0xa3cab1e2, 0x3f861da9, 0xfc6ef2f8, 0xa81a664b, 0x036495fa, 0x4dbbddfe, 0xfe1e5c4c);
    Turned(m, t + 2, 0x4dbbddfe, 0x39898b14, 0xcb871798, 0x4918371b, 0xfe1e5c4c, 0x04792f98, 0xa3cab1e2, 0x3f861da9, 0xc24b8b70, 0xd2407ad2, 0x6cab718d, 0xd84ca575);
    Turned(m, t + 3, 0x6cab718d, 0x4dbbddfe, 0x39898b14, 0xcb871798, 0xd84ca575, 0xfe1e5c4c, 0x04792f98, 0xa3cab1e2, 0xc76c51a3, 0x8de142c0, 0x1d113d24, 0x0064ee96);
    Turned(m, t + 4, 0x1d113d24, 0x6cab718d, 0x4dbbddfe, 0x39898b14, 0x0064ee96, 0xd84ca575, 0xfe1e5c4c, 0x04792f98, 0xd192e819, 0x135c9fa4, 0x98c9f538, 0xda07caec);
    Turned(m, t + 5, 0x98c9f538, 0x1d113d24, 0x6cab718d, 0x4dbbddfe, 0xda07caec, 0x0064ee96, 0xd84ca575, 0xfe1e5c4c, 0xd6990624, 0xf706954f, 0x7dccdfa1, 0x06dcef11);
    Turned(m, t + 6, 0x7dccdfa1, 0x98c9f538, 0x1d113d24, 0x6cab718d, 0x06dcef11, 0xda07caec, 0x0064ee96, 0xd84ca575, 0xf40e3585, 0x2c7a7b91, 0x72169b4c, 0x2ff1b340);
    Turned(m, t + 7, 0x72169b4c, 0x7dccdfa1, 0x98c9f538, 0x1d113d24, 0x2ff1b340, 0x06dcef11, 0xda07caec, 0x0064ee96, 0x106aa070, 0xdae4aedb, 0x6846a950, 0x6fffff9d);
  }

  lemma SeventhRounds(m: seq<Word>, t: nat)
    requires m == Block() && t == 48
    ensures Rounds(Start(), m, t + 8) == Registers(0xfdfb3209, 0xdb11d296, 0x802c29b7, 0xde1e6b4c, 0x9eb4ded0, 0x1e544848, 0x491cb9ea, 0x81c4c9cc)
  {
    hide Rounds, IsWord, Block, RoundConstant, Start;
    SixthRounds(m, t - 8);
    Words7(m, t);
    Constants4();
    Turned(m, t, 0x6846a950, 0x72169b4c, 0x7dccdfa1, 0x98c9f538, 0x6fffff9d, 0x2ff1b340, 0x06dcef11, 0xda07caec, 0x19a4c116, 0x5d01babf, 0xbd0c0d77, 0x9357bdaf);
    Turned(m, t + 1, 0xbd0c0d77, 0x6846a950, 0x72169b4c, 0x7dccdfa1, 0x9357bdaf, 0x6fffff9d, 0x2ff1b340, 0x06dcef11, 0x1e376c08, 0x9b0b9b24, 0xbd4b58ef, 0x0e467973);
    Turned(m, t + 2, 0xbd4b58ef, 0xbd0c0d77, 0x6846a950, 0x72169b4c, 0x0e467973, 0x9357bdaf, 0x6fffff9d, 0x2ff1b340, 0x2748774c, 0xe129976f, 0x20627662, 0xcfde85a3);
    Turned(m, t + 3, 0x20627662, 0xbd4b58ef, 0xbd0c0d77, 0x6846a950, 0xcfde85a3, 0x0e467973, 0x9357bdaf, 0x6fffff9d, 0x34b0bcb5, 0xd8f85791, 0xe00f0fa4, 0xd83b4683);
    Turned(m, t + 4, 0xe00f0fa4, 0x20627662, 0xbd4b58ef, 0xbd0c0d77, 0xd83b4683, 0xcfde85a3, 0x0e467973, 0x9357bdaf, 0x391c0cb3, 0x672e0862, 0xde1e6b4c, 0x81c4c9cc);
    Turned(m, t + 5, 0xde1e6b4c, 0xe00f0fa4, 0x20627662, 0xbd4b58ef, 0x81c4c9cc, 0xd83b4683, 0xcfde85a3, 0x0e467973, 0x4ed8aa4a, 0x76a42a9d, 0x802c29b7, 0x491cb9ea);
    Turned(m, t + 6, 0x802c29b7, 0xde1e6b4c, 0xe00f0fa4, 0x20627662, 0x491cb9ea, 0x81c4c9cc, 0xd83b4683, 0xcfde85a3, 0x5b9cca4f, 0x271d0dd7, 0xdb11d296, 0x1e544848);
    Turned(m, t + 7, 0xdb11d296, 0x802c29b7, 0xde1e6b4c, 0xe00f0fa4, 0x1e544848, 0x491cb9ea, 0x81c4c9cc, 0xd83b4683, 0x682e6ff3, 0xf148cf43, 0xfdfb3209, 0x9eb4ded0);
  }

  lemma EighthRounds(m: seq<Word>, t: nat)
    requires m == Block() && t == 56
    ensures Rounds(Start(), m, t + 8) == Registers(0xf2892957, 0xaee5df02, 0x9c2967bb, 0x835d75f6, 0x58ac417c, 0x6a78ac10, 0x7746a8c2, 0x8b99838f)
  {
    hide Rounds, IsWord, Block, RoundConstant, Start;
    SeventhRounds(m, t - 8);
    Words7(m, t - 8);
    Constants4();
    Turned(m, t, 0xfdfb3209, 0xdb11d296, 0x802c29b7, 0xde1e6b4c, 0x9eb4ded0, 0x1e544848, 0x491cb9ea, 0x81c4c9cc, 0x748f82ee, 0x862cac11, 0x7ad60727, 0x7bc23b30);
    Turned(m, t + 1, 0x7ad60727, 0xfdfb3209, 0xdb11d296, 0x802c29b7, 0x7bc23b30, 0x9eb4ded0, 0x1e544848, 0x491cb9ea, 0x78a5636f, 0x045c3d66, 0xe7167a46, 0xabdcc764);
    Turned(m, t + 2, 0xe7167a46, 0x7ad60727, 0xfdfb3209, 0xdb11d296, 0xabdcc764, 0x7bc23b30, 0x9eb4ded0, 0x1e544848, 0x84c87814, 0x2efc1500, 0xd4449ba1, 0x7d647e72);
    Turned(m, t + 3, 0xd4449ba1, 0xe7167a46, 0x7ad60727, 0xfdfb3209, 0x7d647e72, 0xabdcc764, 0x7bc23b30, 0x9eb4ded0, 0x8cc70208, 0xfbd24ee8, 0xb9609a2c, 0x0694ad71);
    Turned(m, t + 4, 0xb9609a2c, 0xd4449ba1, 0xe7167a46, 0x7ad60727, 0x0694ad71, 0x7d647e72, 0xabdcc764, 0x7bc23b30, 0x90befffa, 0x36899a27, 0x835d75f6, 0x8b99838f);
    Turned(m, t + 5, 0x835d75f6, 0xb9609a2c, 0xd4449ba1, 0xe7167a46, 0x8b99838f, 0x0694ad71, 0x7d647e72, 0xabdcc764, 0xa4506ceb, 0x45ef29c1, 0x9c2967bb, 0x7746a8c2);
    Turned(m, t + 6, 0x9c2967bb, 0x835d75f6, 0xb9609a2c, 0xd4449ba1, 0x7746a8c2, 0x8b99838f, 0x0694ad71, 0x7d647e72, 0xbef9a3f7, 0xa37dd506, 0xaee5df02, 0x6a78ac10);
    Turned(m, t + 7, 0xaee5df02, 0x9c2967bb, 0x835d75f6, 0xb9609a2c, 0x6a78ac10, 0x7746a8c2, 0x8b99838f, 0x0694ad71, 0xc67178f2, 0xee912fce, 0xf2892957, 0x58ac417c);
  }

  lemma NoRounds(m: seq<Word>)
    requires |m| == 16
    ensures Rounds(Start(), m, 0) == Registers(0x6a09e667, 0xbb67ae85, 0x3c6ef372, 0xa54ff53a, 0x510e527f, 0x9b05688c, 0x1f83d9ab, 0x5be0cd19)
  {
  }

  /** `But First, We Need to Talk About Parallel Universes`. */
  function Message(): (m: seq<Byte>)
    ensures |m| == 51
  {
    Part1() + Part2() + Part3() + Part4()
  }

  function Part1(): (m: seq<Byte>)
    ensures |m| == 16
  {
    [0x42, 0x75, 0x74, 0x20, 0x46, 0x69, 0x72, 0x73, 0x74, 0x2c, 0x20, 0x57, 0x65, 0x20, 0x4e, 0x65]
  }

  lemma Bytes1()
    ensures Part1()[0] == 0x42 && Part1()[1] == 0x75 && Part1()[2] == 0x74 && Part1()[3] == 0x20
    ensures Part1()[4] == 0x46 && Part1()[5] == 0x69 && Part1()[6] == 0x72 && Part1()[7] == 0x73
    ensures Part1()[8] == 0x74 && Part1()[9] == 0x2c && Part1()[10] == 0x20 && Part1()[11] == 0x57
    ensures Part1()[12] == 0x65 && Part1()[13] == 0x20 && Part1()[14] == 0x4e && Part1()[15] == 0x65
  {
  }

  function Part2(): (m: seq<Byte>)
    ensures |m| == 16
  {
    [0x65, 0x64, 0x20, 0x74, 0x6f, 0x20, 0x54, 0x61, 0x6c, 0x6b, 0x20, 0x41, 0x62, 0x6f, 0x75, 0x74]
  }

  lemma Bytes2()
    ensures Part2()[0] == 0x65 && Part2()[1] == 0x64 && Part2()[2] == 0x20 && Part2()[3] == 0x74
    ensures Part2()[4] == 0x6f && Part2()[5] == 0x20 && Part2()[6] == 0x54 && Part2()[7] == 0x61
    ensures Part2()[8] == 0x6c && Part2()[9] == 0x6b && Part2()[10] == 0x20 && Part2()[11] == 0x41
    ensures Part2()[12] == 0x62 && Part2()[13] == 0x6f && Part2()[14] == 0x75 && Part2()[15] == 0x74
  {
  }

  function Part3(): (m: seq<Byte>)
    ensures |m| == 16
  {
    [0x20, 0x50, 0x61, 0x72, 0x61, 0x6c, 0x6c, 0x65, 0x6c, 0x20, 0x55, 0x6e, 0x69, 0x76, 0x65, 0x72]
  }

  lemma Bytes3()
    ensures Part3()[0] == 0x20 && Part3()[1] == 0x50 && Part3()[2] == 0x61 && Part3()[3] == 0x72
    ensures Part3()[4] == 0x61 && Part3()[5] == 0x6c && Part3()[6] == 0x6c && Part3()[7] == 0x65
    ensures Part3()[8] == 0x6c && Part3()[9] == 0x20 && Part3()[10] == 0x55 && Part3()[11] == 0x6e
    ensures Part3()[12] == 0x69 && Part3()[13] == 0x76 && Part3()[14] == 0x65 && Part3()[15] == 0x72
  {
  }

  function Part4(): (m: seq<Byte>)
    ensures |m| == 3
  {
    [0x73, 0x65, 0x73]
  }

  lemma Bytes4()
    ensures Part4()[0] == 0x73 && Part4()[1] == 0x65 && Part4()[2] == 0x73
  {
  }


  lemma MessagePadded()
    ensures Pad(Message()) == Message() + [0x80] + Zeros(4) + [0, 0, 0, 0, 0, 0, 1, 0x98]
  {
    assert Gap(51) == 4;
    LengthOfMessage();
  }

  lemma LengthOfMessage()
    ensures LengthBytes(408) == [0, 0, 0, 0, 0, 0, 1, 0x98]
  {
    hide Digit;
    NoDigit(0x1_0000);
    NoDigit(0x1_00_0000);
    NoDigit(0x1_0000_0000);
    NoDigit(0x1_00_0000_0000);
    NoDigit(0x1_0000_0000_0000);
    NoDigit(0x1_00_0000_0000_0000);
    TwoDigits();
  }

  lemma NoDigit(unit: nat)
    requires unit > 408
    ensures Digit(408, unit) == 0
  {
  }

  lemma TwoDigits()
    ensures Digit(408, 0x100) == 1 && Digit(408, 1) == 0x98
  {
    assert 408 / 0x100 % 256 == 1 && 408 / 1 % 256 == 0x98;
  }

  lemma BlockWords(p: seq<Byte>)
    requires p == Message() + [0x80] + Zeros(4) + [0, 0, 0, 0, 0, 0, 1, 0x98]
    ensures |p| == 64 && Words(p) == Block()
  {
    hide Message, Zeros;
    MessageBytes();
    assert p[0] == 0x42 && p[1] == 0x75 && p[2] == 0x74 && p[3] == 0x20;
    assert p[4] == 0x46 && p[5] == 0x69 && p[6] == 0x72 && p[7] == 0x73;
    assert p[8] == 0x74 && p[9] == 0x2c && p[10] == 0x20 && p[11] == 0x57;
    assert p[12] == 0x65 && p[13] == 0x20 && p[14] == 0x4e && p[15] == 0x65;
    assert p[16] == 0x65 && p[17] == 0x64 && p[18] == 0x20 && p[19] == 0x74;
    assert p[20] == 0x6f && p[21] == 0x20 && p[22] == 0x54 && p[23] == 0x61;
    assert p[24] == 0x6c && p[25] == 0x6b && p[26] == 0x20 && p[27] == 0x41;
    assert p[28] == 0x62 && p[29] == 0x6f && p[30] == 0x75 && p[31] == 0x74;
    assert p[32] == 0x20 && p[33] == 0x50 && p[34] == 0x61 && p[35] == 0x72;
    assert p[36] == 0x61 && p[37] == 0x6c && p[38] == 0x6c && p[39] == 0x65;
    assert p[40] == 0x6c && p[41] == 0x20 && p[42] == 0x55 && p[43] == 0x6e;
    assert p[44] == 0x69 && p[45] == 0x76 && p[46] == 0x65 && p[47] == 0x72;
    assert p[48] == 0x73 && p[49] == 0x65 && p[50] == 0x73 && p[51] == 0x80;
    assert p[52] == 0x00 && p[53] == 0x00 && p[54] == 0x00 && p[55] == 0x00;
    assert p[56] == 0x00 && p[57] == 0x00 && p[58] == 0x00 && p[59] == 0x00;
    assert p[60] == 0x00 && p[61] == 0x00 && p[62] == 0x01 && p[63] == 0x98;
    assert WordAt(p, 0) == 0x42757420 && WordAt(p, 1) == 0x46697273 && WordAt(p, 2) == 0x742c2057 && WordAt(p, 3) == 0x65204e65;
    assert WordAt(p, 4) == 0x65642074 && WordAt(p, 5) == 0x6f205461 && WordAt(p, 6) == 0x6c6b2041 && WordAt(p, 7) == 0x626f7574;
    assert WordAt(p, 8) == 0x20506172 && WordAt(p, 9) == 0x616c6c65 && WordAt(p, 10) == 0x6c20556e && WordAt(p, 11) == 0x69766572;
    assert WordAt(p, 12) == 0x73657380 && WordAt(p, 13) == 0x00000000 && WordAt(p, 14) == 0x00000000 && WordAt(p, 15) == 0x00000198;
  }

  lemma MessageBytes()
    ensures Message()[0] == 0x42 && Message()[1] == 0x75 && Message()[2] == 0x74 && Message()[3] == 0x20 && Message()[4] == 0x46 && Message()[5] == 0x69
    ensures Message()[6] == 0x72 && Message()[7] == 0x73 && Message()[8] == 0x74 && Message()[9] == 0x2c && Message()[10] == 0x20 && Message()[11] == 0x57
    ensures Message()[12] == 0x65 && Message()[13] == 0x20 && Message()[14] == 0x4e && Message()[15] == 0x65 && Message()[16] == 0x65 && Message()[17] == 0x64
    ensures Message()[18] == 0x20 && Message()[19] == 0x74 && Message()[20] == 0x6f && Message()[21] == 0x20 && Message()[22] == 0x54 && Message()[23] == 0x61
    ensures Message()[24] == 0x6c && Message()[25] == 0x6b && Message()[26] == 0x20 && Message()[27] == 0x41 && Message()[28] == 0x62 && Message()[29] == 0x6f
    ensures Message()[30] == 0x75 && Message()[31] == 0x74 && Message()[32] == 0x20 && Message()[33] == 0x50 && Message()[34] == 0x61 && Message()[35] == 0x72
    ensures Message()[36] == 0x61 && Message()[37] == 0x6c && Message()[38] == 0x6c && Message()[39] == 0x65 && Message()[40] == 0x6c && Message()[41] == 0x20
    ensures Message()[42] == 0x55 && Message()[43] == 0x6e && Message()[44] == 0x69 && Message()[45] == 0x76 && Message()[46] == 0x65 && Message()[47] == 0x72
    ensures Message()[48] == 0x73 && Message()[49] == 0x65 && Message()[50] == 0x73
  {
    hide Part1, Part2, Part3, Part4;
    Bytes1();
    Bytes2();
    Bytes3();
    Bytes4();
  }

  lemma OneBlock(p: seq<Byte>)
    requires |p| == 64
    ensures Absorb(p) == Compress(InitialHash(), Words(p))
  {
    hide Compress, Words, InitialHash;
    assert p[..0] == [] && p[0..] == p;
  }

  lemma LastState(m: seq<Word>)
    requires m == Block()
    ensures Compress(InitialHash(), m) == [0x5c930fbe, 0x6a4d8d87, 0xd8985b2d, 0x28ad6b30, 0xa9ba93fb, 0x057e149c, 0x96ca826d, 0xe77a50a8]
  {
    hide Rounds, Block;
    EighthRounds(m, 56);
    assert Start() == Load(InitialHash());
  }

  lemma FirstBytes(s: seq<Word>)
    requires s == [0x5c930fbe, 0x6a4d8d87, 0xd8985b2d, 0x28ad6b30, 0xa9ba93fb, 0x057e149c, 0x96ca826d, 0xe77a50a8]
    ensures Bytes(s[..4]) == [0x5c, 0x93, 0x0f, 0xbe] + [0x6a, 0x4d, 0x8d, 0x87] + [0xd8, 0x98, 0x5b, 0x2d] + [0x28, 0xad, 0x6b, 0x30]
  {
    hide Bytes;
    assert s[..0] == [] && Bytes([]) == [];
    OneMore(s, 0, 0x5c930fbe, 0x5c, 0x93, 0x0f, 0xbe);
    OneMore(s, 1, 0x6a4d8d87, 0x6a, 0x4d, 0x8d, 0x87);
    OneMore(s, 2, 0xd8985b2d, 0xd8, 0x98, 0x5b, 0x2d);
    OneMore(s, 3, 0x28ad6b30, 0x28, 0xad, 0x6b, 0x30);
  }

  lemma DigestBytes(s: seq<Word>)
    requires s == [0x5c930fbe, 0x6a4d8d87, 0xd8985b2d, 0x28ad6b30, 0xa9ba93fb, 0x057e149c, 0x96ca826d, 0xe77a50a8]
    ensures Bytes(s)
            == [0x5c, 0x93, 0x0f, 0xbe] + [0x6a, 0x4d, 0x8d, 0x87] + [0xd8, 0x98, 0x5b, 0x2d] + [0x28, 0xad, 0x6b, 0x30]
               + [0xa9, 0xba, 0x93, 0xfb] + [0x05, 0x7e, 0x14, 0x9c] + [0x96, 0xca, 0x82, 0x6d] + [0xe7, 0x7a, 0x50, 0xa8]
  {
    hide Bytes;
    FirstBytes(s);
    OneMore(s, 4, 0xa9ba93fb, 0xa9, 0xba, 0x93, 0xfb);
    OneMore(s, 5, 0x057e149c, 0x05, 0x7e, 0x14, 0x9c);
    OneMore(s, 6, 0x96ca826d, 0x96, 0xca, 0x82, 0x6d);
    OneMore(s, 7, 0xe77a50a8, 0xe7, 0x7a, 0x50, 0xa8);
    assert s[..8] == s;
  }

  lemma OneMore(s: seq<Word>, n: nat, w: Word, a: Byte, b: Byte, c: Byte, d: Byte)
    requires n < |s| && s[n] == w && a == ((w >> 24) & 0xff) as Byte && b == ((w >> 16) & 0xff) as Byte
    requires c == ((w >> 8) & 0xff) as Byte && d == (w & 0xff) as Byte
    ensures Bytes(s[..n + 1]) == Bytes(s[..n]) + [a, b, c, d]
  {
    hide ByteOf;
    ByteIs(w);
    assert s[..n + 1][..n] == s[..n];
  }

  /** The digest that the repository's unit test expects for this message. */
  lemma TestDigest()
    ensures Hash(Message())
            == [0x5c, 0x93, 0x0f, 0xbe] + [0x6a, 0x4d, 0x8d, 0x87] + [0xd8, 0x98, 0x5b, 0x2d] + [0x28, 0xad, 0x6b, 0x30]
               + [0xa9, 0xba, 0x93, 0xfb] + [0x05, 0x7e, 0x14, 0x9c] + [0x96, 0xca, 0x82, 0x6d] + [0xe7, 0x7a, 0x50, 0xa8]
  {
    hide Pad, Words, Compress, Bytes, Absorb, Block, Message;
    var p := Pad(Message());
    MessagePadded();
    BlockWords(p);
    OneBlock(p);
    LastState(Words(p));
    DigestBytes(Absorb(p));
  }
}
