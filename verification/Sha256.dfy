/**
 SHA-256: the compression function, hashing in pieces, and HMAC. The functions of the module
 `Sha256Standard` follow FIPS 180-4 and RFC 2104; the methods of `Sha256` follow the program.
 */
module Sha256Standard {
  type Word = bv32
  type Byte = bv8

  // ---- section 4.1.2 of FIPS 180-4 ----

  function Rotr(x: Word, n: bv6): Word
    requires 0 < n < 32
  {
    (x >> n) | (x << (32 - n))
  }

  /** Addition modulo 2^32. */
  function Add(x: Word, y: Word): Word {
    x + y
  }

  /** The standard writes sums without parentheses: grouping and order make no difference. */
  lemma AddBits(x: bv32, y: bv32, z: bv32)
    ensures x + (y + z) == (x + y) + z && x + y == y + x
  {
  }

  function Ch(x: Word, y: Word, z: Word): Word {
    (x & y) ^ (!x & z)
  }

  function Maj(x: Word, y: Word, z: Word): Word {
    (x & y) ^ (x & z) ^ (y & z)
  }

  function BigSigma0(x: Word): Word {
    Rotr(x, 2) ^ Rotr(x, 13) ^ Rotr(x, 22)
  }

  function BigSigma1(x: Word): Word {
    Rotr(x, 6) ^ Rotr(x, 11) ^ Rotr(x, 25)
  }

  function SmallSigma0(x: Word): Word {
    Rotr(x, 7) ^ Rotr(x, 18) ^ (x >> 3)
  }

  function SmallSigma1(x: Word): Word {
    Rotr(x, 17) ^ Rotr(x, 19) ^ (x >> 10)
  }

  /** The words `K` of section 4.2.2, sixteen at a time. */
  function RoundConstant(t: int): Word
    requires 0 <= t < 64
  {
    if t < 16 then Constants1(t) else if t < 32 then Constants2(t - 16) else if t < 48 then Constants3(t - 32) else Constants4(t - 48)
  }

  function Constants1(t: int): Word {
    match t
    case 0 => 0x428a2f98 case 1 => 0x71374491 case 2 => 0xb5c0fbcf case 3 => 0xe9b5dba5
    case 4 => 0x3956c25b case 5 => 0x59f111f1 case 6 => 0x923f82a4 case 7 => 0xab1c5ed5
    case 8 => 0xd807aa98 case 9 => 0x12835b01 case 10 => 0x243185be case 11 => 0x550c7dc3
    case 12 => 0x72be5d74 case 13 => 0x80deb1fe case 14 => 0x9bdc06a7 case _ => 0xc19bf174
  }

  function Constants2(t: int): Word {
    match t
    case 0 => 0xe49b69c1 case 1 => 0xefbe4786 case 2 => 0x0fc19dc6 case 3 => 0x240ca1cc
    case 4 => 0x2de92c6f case 5 => 0x4a7484aa case 6 => 0x5cb0a9dc case 7 => 0x76f988da
    case 8 => 0x983e5152 case 9 => 0xa831c66d case 10 => 0xb00327c8 case 11 => 0xbf597fc7
    case 12 => 0xc6e00bf3 case 13 => 0xd5a79147 case 14 => 0x06ca6351 case _ => 0x14292967
  }

  function Constants3(t: int): Word {
    match t
    case 0 => 0x27b70a85 case 1 => 0x2e1b2138 case 2 => 0x4d2c6dfc case 3 => 0x53380d13
    case 4 => 0x650a7354 case 5 => 0x766a0abb case 6 => 0x81c2c92e case 7 => 0x92722c85
    case 8 => 0xa2bfe8a1 case 9 => 0xa81a664b case 10 => 0xc24b8b70 case 11 => 0xc76c51a3
    case 12 => 0xd192e819 case 13 => 0xd6990624 case 14 => 0xf40e3585 case _ => 0x106aa070
  }

  function Constants4(t: int): Word {
    match t
    case 0 => 0x19a4c116 case 1 => 0x1e376c08 case 2 => 0x2748774c case 3 => 0x34b0bcb5
    case 4 => 0x391c0cb3 case 5 => 0x4ed8aa4a case 6 => 0x5b9cca4f case 7 => 0x682e6ff3
    case 8 => 0x748f82ee case 9 => 0x78a5636f case 10 => 0x84c87814 case 11 => 0x8cc70208
    case 12 => 0x90befffa case 13 => 0xa4506ceb case 14 => 0xbef9a3f7 case _ => 0xc67178f2
  }

  // ---- section 6.2.2 of FIPS 180-4 ----

  /** Word `t` of the message schedule. */
  function Schedule(m: seq<Word>, t: nat): Word
    requires |m| == 16
  {
    if t < 16 then m[t]
    else Add(Add(Add(SmallSigma1(Schedule(m, t - 2)), Schedule(m, t - 7)), SmallSigma0(Schedule(m, t - 15))), Schedule(m, t - 16))
  }

  datatype Registers = Registers(a: Word, b: Word, c: Word, d: Word, e: Word, f: Word, g: Word, h: Word)

  function Round(r: Registers, k: Word, w: Word): Registers {
    var t1 := Add(r.h, Add(Add(Add(BigSigma1(r.e), Ch(r.e, r.f, r.g)), k), w));
    var t2 := Add(BigSigma0(r.a), Maj(r.a, r.b, r.c));
    Registers(Add(t1, t2), r.a, r.b, r.c, Add(r.d, t1), r.e, r.f, r.g)
  }

  /** The working variables after the first `t` rounds. */
  function Rounds(r: Registers, m: seq<Word>, t: nat): Registers
    requires |m| == 16 && t <= 64
  {
    if t == 0 then r else Round(Rounds(r, m, t - 1), RoundConstant(t - 1), Schedule(m, t - 1))
  }

  function Load(s: seq<Word>): Registers
    requires |s| == 8
  {
    Registers(s[0], s[1], s[2], s[3], s[4], s[5], s[6], s[7])
  }

  function Compress(s: seq<Word>, m: seq<Word>): (r: seq<Word>)
    requires |s| == 8 && |m| == 16
    ensures |r| == 8
  {
    var z := Rounds(Load(s), m, 64);
    [Add(s[0], z.a), Add(s[1], z.b), Add(s[2], z.c), Add(s[3], z.d),
     Add(s[4], z.e), Add(s[5], z.f), Add(s[6], z.g), Add(s[7], z.h)]
  }

  // ---- sections 5.1.1, 5.2.1, 5.3.3 and 6.2 of FIPS 180-4 ----

  function InitialHash(): (s: seq<Word>)
    ensures |s| == 8
  {
    [0x6a09e667, 0xbb67ae85, 0x3c6ef372, 0xa54ff53a, 0x510e527f, 0x9b05688c, 0x1f83d9ab, 0x5be0cd19]
  }

  // ---- where the constants come from ----

  /** The first 64 primes, sixteen at a time. */
  function Prime(t: int): nat
    requires 0 <= t < 64
  {
    if t < 16 then Primes1(t) else if t < 32 then Primes2(t - 16) else if t < 48 then Primes3(t - 32) else Primes4(t - 48)
  }

  function Primes1(t: int): nat {
    match t
    case 0 => 2 case 1 => 3 case 2 => 5 case 3 => 7 case 4 => 11 case 5 => 13 case 6 => 17 case 7 => 19
    case 8 => 23 case 9 => 29 case 10 => 31 case 11 => 37 case 12 => 41 case 13 => 43 case 14 => 47 case _ => 53
  }

  function Primes2(t: int): nat {
    match t
    case 0 => 59 case 1 => 61 case 2 => 67 case 3 => 71 case 4 => 73 case 5 => 79 case 6 => 83 case 7 => 89
    case 8 => 97 case 9 => 101 case 10 => 103 case 11 => 107 case 12 => 109 case 13 => 113 case 14 => 127 case _ => 131
  }

  function Primes3(t: int): nat {
    match t
    case 0 => 137 case 1 => 139 case 2 => 149 case 3 => 151 case 4 => 157 case 5 => 163 case 6 => 167 case 7 => 173
    case 8 => 179 case 9 => 181 case 10 => 191 case 11 => 193 case 12 => 197 case 13 => 199 case 14 => 211 case _ => 223
  }

  function Primes4(t: int): nat {
    match t
    case 0 => 227 case 1 => 229 case 2 => 233 case 3 => 239 case 4 => 241 case 5 => 251 case 6 => 257 case 7 => 263
    case 8 => 269 case 9 => 271 case 10 => 277 case 11 => 281 case 12 => 283 case 13 => 293 case 14 => 307 case _ => 311
  }

  /** `c` is the cube root of `p`, with 32 bits behind the point. */
  predicate IsCubeRoot(c: nat, p: nat) {
    c * c * c <= p * 0x1_0000_0000_0000_0000_0000_0000 < (c + 1) * (c + 1) * (c + 1)
  }

  predicate IsSquareRoot(c: nat, p: nat) {
    c * c <= p * 0x1_0000_0000_0000_0000 < (c + 1) * (c + 1)
  }

  /** `k` holds the bits behind the point. */
  predicate IsFraction(k: Word, c: nat) {
    (k as nat) == c % 0x1_0000_0000
  }

  /** Section 4.2.2: the word starts the fractional part of the cube root of a prime. */
  ghost predicate FromCubeRoot(t: nat)
    requires t < 64
  {
    exists c: nat :: IsCubeRoot(c, Prime(t)) && IsFraction(RoundConstant(t), c)
  }

  /** Section 5.3.3: likewise with the square root. */
  ghost predicate FromSquareRoot(i: nat)
    requires i < 8
  {
    exists c: nat :: IsSquareRoot(c, Prime(i)) && IsFraction(InitialHash()[i], c)
  }

  lemma CubeRooted(t: nat, c: nat)
    requires t < 64 && IsCubeRoot(c, Prime(t)) && IsFraction(RoundConstant(t), c)
    ensures FromCubeRoot(t)
  {
  }

  lemma SquareRooted(i: nat, c: nat)
    requires i < 8 && IsSquareRoot(c, Prime(i)) && IsFraction(InitialHash()[i], c)
    ensures FromSquareRoot(i)
  {
  }

  lemma FirstRoots()
    ensures IsCubeRoot(0x1_428a2f98, 2) && IsCubeRoot(0x1_71374491, 3) && IsCubeRoot(0x1_b5c0fbcf, 5) && IsCubeRoot(0x1_e9b5dba5, 7)
    ensures IsCubeRoot(0x2_3956c25b, 11) && IsCubeRoot(0x2_59f111f1, 13) && IsCubeRoot(0x2_923f82a4, 17) && IsCubeRoot(0x2_ab1c5ed5, 19)
    ensures IsCubeRoot(0x2_d807aa98, 23) && IsCubeRoot(0x3_12835b01, 29) && IsCubeRoot(0x3_243185be, 31) && IsCubeRoot(0x3_550c7dc3, 37)
    ensures IsCubeRoot(0x3_72be5d74, 41) && IsCubeRoot(0x3_80deb1fe, 43) && IsCubeRoot(0x3_9bdc06a7, 47) && IsCubeRoot(0x3_c19bf174, 53)
  {
  }

  lemma FirstConstants()
    ensures forall t :: 0 <= t < 16 ==> FromCubeRoot(t)
  {
    hide IsCubeRoot, FromCubeRoot;
    FirstRoots();
    CubeRooted(0, 0x1_428a2f98); CubeRooted(1, 0x1_71374491); CubeRooted(2, 0x1_b5c0fbcf); CubeRooted(3, 0x1_e9b5dba5);
    CubeRooted(4, 0x2_3956c25b); CubeRooted(5, 0x2_59f111f1); CubeRooted(6, 0x2_923f82a4); CubeRooted(7, 0x2_ab1c5ed5);
    CubeRooted(8, 0x2_d807aa98); CubeRooted(9, 0x3_12835b01); CubeRooted(10, 0x3_243185be); CubeRooted(11, 0x3_550c7dc3);
    CubeRooted(12, 0x3_72be5d74); CubeRooted(13, 0x3_80deb1fe); CubeRooted(14, 0x3_9bdc06a7); CubeRooted(15, 0x3_c19bf174);
  }

  lemma SecondRoots()
    ensures IsCubeRoot(0x3_e49b69c1, 59) && IsCubeRoot(0x3_efbe4786, 61) && IsCubeRoot(0x4_0fc19dc6, 67) && IsCubeRoot(0x4_240ca1cc, 71)
    ensures IsCubeRoot(0x4_2de92c6f, 73) && IsCubeRoot(0x4_4a7484aa, 79) && IsCubeRoot(0x4_5cb0a9dc, 83) && IsCubeRoot(0x4_76f988da, 89)
    ensures IsCubeRoot(0x4_983e5152, 97) && IsCubeRoot(0x4_a831c66d, 101) && IsCubeRoot(0x4_b00327c8, 103) && IsCubeRoot(0x4_bf597fc7, 107)
    ensures IsCubeRoot(0x4_c6e00bf3, 109) && IsCubeRoot(0x4_d5a79147, 113) && IsCubeRoot(0x5_06ca6351, 127) && IsCubeRoot(0x5_14292967, 131)
  {
  }

  lemma SecondConstants()
    ensures forall t :: 16 <= t < 32 ==> FromCubeRoot(t)
  {
    hide IsCubeRoot, FromCubeRoot;
    SecondRoots();
    CubeRooted(16, 0x3_e49b69c1); CubeRooted(17, 0x3_efbe4786); CubeRooted(18, 0x4_0fc19dc6); CubeRooted(19, 0x4_240ca1cc);
    CubeRooted(20, 0x4_2de92c6f); CubeRooted(21, 0x4_4a7484aa); CubeRooted(22, 0x4_5cb0a9dc); CubeRooted(23, 0x4_76f988da);
    CubeRooted(24, 0x4_983e5152); CubeRooted(25, 0x4_a831c66d); CubeRooted(26, 0x4_b00327c8); CubeRooted(27, 0x4_bf597fc7);
    CubeRooted(28, 0x4_c6e00bf3); CubeRooted(29, 0x4_d5a79147); CubeRooted(30, 0x5_06ca6351); CubeRooted(31, 0x5_14292967);
  }

  lemma ThirdRoots()
    ensures IsCubeRoot(0x5_27b70a85, 137) && IsCubeRoot(0x5_2e1b2138, 139) && IsCubeRoot(0x5_4d2c6dfc, 149) && IsCubeRoot(0x5_53380d13, 151)
    ensures IsCubeRoot(0x5_650a7354, 157) && IsCubeRoot(0x5_766a0abb, 163) && IsCubeRoot(0x5_81c2c92e, 167) && IsCubeRoot(0x5_92722c85, 173)
    ensures IsCubeRoot(0x5_a2bfe8a1, 179) && IsCubeRoot(0x5_a81a664b, 181) && IsCubeRoot(0x5_c24b8b70, 191) && IsCubeRoot(0x5_c76c51a3, 193)
    ensures IsCubeRoot(0x5_d192e819, 197) && IsCubeRoot(0x5_d6990624, 199) && IsCubeRoot(0x5_f40e3585, 211) && IsCubeRoot(0x6_106aa070, 223)
  {
  }

  lemma ThirdConstants()
    ensures forall t :: 32 <= t < 48 ==> FromCubeRoot(t)
  {
    hide IsCubeRoot, FromCubeRoot;
    ThirdRoots();
    CubeRooted(32, 0x5_27b70a85); CubeRooted(33, 0x5_2e1b2138); CubeRooted(34, 0x5_4d2c6dfc); CubeRooted(35, 0x5_53380d13);
    CubeRooted(36, 0x5_650a7354); CubeRooted(37, 0x5_766a0abb); CubeRooted(38, 0x5_81c2c92e); CubeRooted(39, 0x5_92722c85);
    CubeRooted(40, 0x5_a2bfe8a1); CubeRooted(41, 0x5_a81a664b); CubeRooted(42, 0x5_c24b8b70); CubeRooted(43, 0x5_c76c51a3);
    CubeRooted(44, 0x5_d192e819); CubeRooted(45, 0x5_d6990624); CubeRooted(46, 0x5_f40e3585); CubeRooted(47, 0x6_106aa070);
  }

  lemma FourthRoots()
    ensures IsCubeRoot(0x6_19a4c116, 227) && IsCubeRoot(0x6_1e376c08, 229) && IsCubeRoot(0x6_2748774c, 233) && IsCubeRoot(0x6_34b0bcb5, 239)
    ensures IsCubeRoot(0x6_391c0cb3, 241) && IsCubeRoot(0x6_4ed8aa4a, 251) && IsCubeRoot(0x6_5b9cca4f, 257) && IsCubeRoot(0x6_682e6ff3, 263)
    ensures IsCubeRoot(0x6_748f82ee, 269) && IsCubeRoot(0x6_78a5636f, 271) && IsCubeRoot(0x6_84c87814, 277) && IsCubeRoot(0x6_8cc70208, 281)
    ensures IsCubeRoot(0x6_90befffa, 283) && IsCubeRoot(0x6_a4506ceb, 293) && IsCubeRoot(0x6_bef9a3f7, 307) && IsCubeRoot(0x6_c67178f2, 311)
  {
  }

  lemma FourthConstants()
    ensures forall t :: 48 <= t < 64 ==> FromCubeRoot(t)
  {
    hide IsCubeRoot, FromCubeRoot;
    FourthRoots();
    CubeRooted(48, 0x6_19a4c116); CubeRooted(49, 0x6_1e376c08); CubeRooted(50, 0x6_2748774c); CubeRooted(51, 0x6_34b0bcb5);
    CubeRooted(52, 0x6_391c0cb3); CubeRooted(53, 0x6_4ed8aa4a); CubeRooted(54, 0x6_5b9cca4f); CubeRooted(55, 0x6_682e6ff3);
    CubeRooted(56, 0x6_748f82ee); CubeRooted(57, 0x6_78a5636f); CubeRooted(58, 0x6_84c87814); CubeRooted(59, 0x6_8cc70208);
    CubeRooted(60, 0x6_90befffa); CubeRooted(61, 0x6_a4506ceb); CubeRooted(62, 0x6_bef9a3f7); CubeRooted(63, 0x6_c67178f2);
  }

  /** The first 32 bits of the fractional parts of the cube roots of the first 64 primes. */
  lemma ConstantsAreCubeRoots()
    ensures forall t :: 0 <= t < 64 ==> FromCubeRoot(t)
  {
    hide FromCubeRoot;
    FirstConstants();
    SecondConstants();
    ThirdConstants();
    FourthConstants();
  }

  lemma SquareRoots()
    ensures IsSquareRoot(0x1_6a09e667, 2) && IsSquareRoot(0x1_bb67ae85, 3) && IsSquareRoot(0x2_3c6ef372, 5) && IsSquareRoot(0x2_a54ff53a, 7)
    ensures IsSquareRoot(0x3_510e527f, 11) && IsSquareRoot(0x3_9b05688c, 13) && IsSquareRoot(0x4_1f83d9ab, 17) && IsSquareRoot(0x4_5be0cd19, 19)
  {
  }

  /** The same of the square roots of the first eight. */
  lemma StartIsSquareRoots()
    ensures forall i :: 0 <= i < 8 ==> FromSquareRoot(i)
  {
    hide IsSquareRoot, FromSquareRoot;
    SquareRoots();
    SquareRooted(0, 0x1_6a09e667); SquareRooted(1, 0x1_bb67ae85); SquareRooted(2, 0x2_3c6ef372); SquareRooted(3, 0x2_a54ff53a);
    SquareRooted(4, 0x3_510e527f); SquareRooted(5, 0x3_9b05688c); SquareRooted(6, 0x4_1f83d9ab); SquareRooted(7, 0x4_5be0cd19);
  }

  function Zeros(n: nat): (s: seq<Byte>)
    ensures |s| == n && forall i :: 0 <= i < n ==> s[i] == 0
  {
    seq(n, i => 0)
  }

  function Digit(n: nat, unit: nat): Byte
    requires unit > 0
  {
    (n / unit % 256) as Byte
  }

  /** A number as a 64-bit block, most significant byte first. */
  function LengthBytes(n: nat): (s: seq<Byte>)
    ensures |s| == 8
  {
    [Digit(n, 0x1_00_0000_0000_0000), Digit(n, 0x1_0000_0000_0000), Digit(n, 0x1_00_0000_0000), Digit(n, 0x1_0000_0000),
     Digit(n, 0x1_00_0000), Digit(n, 0x1_0000), Digit(n, 0x1_00), Digit(n, 1)]
  }

  /** With `k` zero bytes behind it, the padding of `n` bytes reaches the place of the length. */
  predicate Fills(n: nat, k: int) {
    (n + 1 + k) % 64 == 56
  }

  /** The smallest number of zero bytes that makes room for the length at the end of a block. */
  function Gap(n: nat): nat {
    (55 - n) % 64
  }

  lemma GapIsSmallest(n: nat)
    ensures Fills(n, Gap(n))
    ensures forall k :: 0 <= k < Gap(n) ==> !Fills(n, k)
  {
  }

  /** A message of bytes, padded to whole blocks; its length counts in bits. */
  function Pad(m: seq<Byte>): seq<Byte> {
    m + [0x80] + Zeros(Gap(|m|)) + LengthBytes(8 * |m|)
  }

  lemma PadFillsBlocks(m: seq<Byte>)
    ensures |Pad(m)| % 64 == 0
  {
    hide LengthBytes;
    GapIsSmallest(|m|);
    assert |Pad(m)| == |m| + 1 + Gap(|m|) + 8;
  }

  function WordAt(b: seq<Byte>, i: nat): Word
    requires 4 * i + 4 <= |b|
  {
    ((b[4 * i] as Word) << 24) + ((b[4 * i + 1] as Word) << 16) + ((b[4 * i + 2] as Word) << 8) + (b[4 * i + 3] as Word)
  }

  function Words(b: seq<Byte>): (w: seq<Word>)
    requires |b| == 64
    ensures |w| == 16 && forall i :: 0 <= i < 16 ==> w[i] == WordAt(b, i)
  {
    seq(16, i requires 0 <= i < 16 => WordAt(b, i))
  }

  /** The hash value after the whole blocks of `p`. */
  function Absorb(p: seq<Byte>): (s: seq<Word>)
    ensures |s| == 8
  {
    if |p| < 64 then InitialHash() else Compress(Absorb(p[..|p| - 64]), Words(p[|p| - 64..]))
  }

  function ByteOf(w: Word, shift: int): Byte
    requires 0 <= shift < 32
  {
    ((w >> shift) & 0xff) as Byte
  }

  function Bytes(s: seq<Word>): (b: seq<Byte>)
    ensures |b| == 4 * |s|
  {
    if s == [] then []
    else Bytes(s[..|s| - 1])
         + [ByteOf(s[|s| - 1], 24), ByteOf(s[|s| - 1], 16), ByteOf(s[|s| - 1], 8), ByteOf(s[|s| - 1], 0)]
  }

  /** The bytes of a word read back as the word. */
  lemma WordBack(w: Word)
    ensures WordAt(Bytes([w]), 0) == w
  {
    hide ByteOf, Bytes;
    ByteIs(w);
    FourBytes(w);
    BytesOfWord(ByteOf(w, 24), ByteOf(w, 16), ByteOf(w, 8), ByteOf(w, 0), w);
  }

  lemma ByteIs(w: Word)
    ensures ByteOf(w, 24) == ((w >> 24) & 0xff) as Byte && ByteOf(w, 16) == ((w >> 16) & 0xff) as Byte
    ensures ByteOf(w, 8) == ((w >> 8) & 0xff) as Byte && ByteOf(w, 0) == (w & 0xff) as Byte
  {
  }

  lemma FourBytes(w: Word)
    ensures Bytes([w]) == [ByteOf(w, 24), ByteOf(w, 16), ByteOf(w, 8), ByteOf(w, 0)]
  {
    hide ByteOf;
    assert [w][..0] == [];
  }

  lemma BytesOfWord(a: bv8, b: bv8, c: bv8, d: bv8, w: bv32)
    requires a == ((w >> 24) & 0xff) as bv8 && b == ((w >> 16) & 0xff) as bv8 && c == ((w >> 8) & 0xff) as bv8 && d == (w & 0xff) as bv8
    ensures ((a as bv32) << 24) + ((b as bv32) << 16) + ((c as bv32) << 8) + (d as bv32) == w
  {
  }

  function Hash(m: seq<Byte>): (d: seq<Byte>)
    ensures |d| == 32
  {
    Bytes(Absorb(Pad(m)))
  }

  // ---- section 2 of RFC 2104 ----

  function BlockKey(key: seq<Byte>): (k: seq<Byte>)
    ensures |k| == 64
  {
    var k := if |key| > 64 then Hash(key) else key;
    k + Zeros(64 - |k|)
  }

  function Masked(k: seq<Byte>, mask: Byte): (r: seq<Byte>)
    ensures |r| == |k| && forall i :: 0 <= i < |k| ==> r[i] == k[i] ^ mask
  {
    seq(|k|, i requires 0 <= i < |k| => k[i] ^ mask)
  }

  function Hmac(key: seq<Byte>, text: seq<Byte>): seq<Byte> {
    var k := BlockKey(key);
    Hash(Masked(k, 0x5c) + Hash(Masked(k, 0x36) + text))
  }
}

module Sha256s {
  import opened Basics
  import opened Sha256Standard

  // ---- the macros ----

  /** `Ch` and `Maj` as the program writes them. */
  function QuickCh(x: Word, y: Word, z: Word): Word {
    z ^ (x & (y ^ z))
  }

  function QuickMaj(x: Word, y: Word, z: Word): Word {
    (x & y) | (z & (x | y))
  }

  lemma ChBits(x: bv32, y: bv32, z: bv32)
    ensures z ^ (x & (y ^ z)) == (x & y) ^ (!x & z)
  {
  }

  lemma MajBits(x: bv32, y: bv32, z: bv32)
    ensures (x & y) | (z & (x | y)) == (x & y) ^ (x & z) ^ (y & z)
  {
  }

  lemma QuickForms(x: Word, y: Word, z: Word)
    ensures QuickCh(x, y, z) == Ch(x, y, z) && QuickMaj(x, y, z) == Maj(x, y, z)
  {
    ChBits(x, y, z);
    MajBits(x, y, z);
  }

  /** Where register `k` (0 for `a`, 7 for `h`) of round `i` is in the rotating file: `(k - i) & 7`. */
  function Reg(k: int, i: int): (r: int)
    ensures 0 <= r < 8
  {
    (k - i) % 8
  }

  /** The register file `T` holds the working variables of round `t`. */
  ghost predicate HoldsRegisters(T: seq<Word>, r: Registers, t: int) {
    && |T| == 8
    && T[Reg(0, t)] == r.a && T[Reg(1, t)] == r.b && T[Reg(2, t)] == r.c && T[Reg(3, t)] == r.d
    && T[Reg(4, t)] == r.e && T[Reg(5, t)] == r.f && T[Reg(6, t)] == r.g && T[Reg(7, t)] == r.h
  }

  /** The circular schedule `W` holds the last sixteen words. */
  ghost predicate HoldsSchedule(W: seq<Word>, m: seq<Word>, t: nat) {
    |W| == 16 && |m| == 16 && forall u: nat :: t - 16 <= u < t ==> W[u % 16] == Schedule(m, u)
  }

  lemma RegsApart(t: int)
    ensures forall k, l :: 0 <= k < l < 8 ==> Reg(k, t) != Reg(l, t)
    ensures forall k :: 0 <= k < 7 ==> Reg(k, t) == Reg(k + 1, t + 1)
    ensures Reg(7, t) == Reg(0, t + 1)
  {
  }

  lemma AddLast(x: Word, a: Word, b: Word, c: Word)
    ensures Add(x, Add(Add(a, b), c)) == Add(Add(Add(a, b), c), x)
  {
    AddBits(x, Add(Add(a, b), c), x);
  }

  /** One round on the rotating file: two of the eight cells change. */
  ghost function Turned(T: seq<Word>, t: int, k: Word, w: Word): seq<Word>
    requires |T| == 8
  {
    var h := Add(T[Reg(7, t)], Add(Add(Add(BigSigma1(T[Reg(4, t)]), QuickCh(T[Reg(4, t)], T[Reg(5, t)], T[Reg(6, t)])), k), w));
    var T1 := T[Reg(7, t) := h];
    var T2 := T1[Reg(3, t) := Add(T1[Reg(3, t)], h)];
    T2[Reg(7, t) := Add(h, Add(BigSigma0(T2[Reg(0, t)]), QuickMaj(T2[Reg(0, t)], T2[Reg(1, t)], T2[Reg(2, t)])))]
  }

  lemma TurnedIsRound(T: seq<Word>, r: Registers, t: int, k: Word, w: Word)
    requires HoldsRegisters(T, r, t)
    ensures HoldsRegisters(Turned(T, t, k, w), Round(r, k, w), t + 1)
  {
    hide Add, BigSigma0, BigSigma1, Ch, Maj, QuickCh, QuickMaj, Reg;
    RegsApart(t);
    QuickForms(r.e, r.f, r.g);
    QuickForms(r.a, r.b, r.c);
  }

  /** The next word of the schedule replaces the one sixteen words back. */
  lemma NextScheduled(W: seq<Word>, m: seq<Word>, t: nat)
    requires HoldsSchedule(W, m, t)
    ensures t >= 16 ==>
              Add(W[t % 16], Add(Add(SmallSigma1(W[(t - 2) % 16]), W[(t - 7) % 16]), SmallSigma0(W[(t - 15) % 16]))) == Schedule(m, t)
    ensures HoldsSchedule(W[t % 16 := Schedule(m, t)], m, t + 1)
  {
    hide Add, SmallSigma0, SmallSigma1;
    if t >= 16 {
      assert (t - 16) % 16 == t % 16;
      assert W[(t - 16) % 16] == Schedule(m, t - 16) && W[(t - 2) % 16] == Schedule(m, t - 2);
      assert W[(t - 7) % 16] == Schedule(m, t - 7) && W[(t - 15) % 16] == Schedule(m, t - 15);
      AddLast(W[t % 16], SmallSigma1(W[(t - 2) % 16]), W[(t - 7) % 16], SmallSigma0(W[(t - 15) % 16]));
    }
    forall u: nat | t + 1 - 16 <= u < t + 1 ensures W[t % 16 := Schedule(m, t)][u % 16] == Schedule(m, u) {
      if u < t { assert u % 16 != t % 16; }
    }
  }

  lemma SchedulePlaces(i: int, j: int)
    requires 0 <= i < 16 && j % 16 == 0
    ensures i % 16 == (i + j) % 16
    ensures (i - 2) % 16 == (i + j - 2) % 16 && (i - 7) % 16 == (i + j - 7) % 16 && (i - 15) % 16 == (i + j - 15) % 16
  {
  }

  /** `blk0` and `blk2`. */
  method NextWord(W: array<Word>, data: array<Word>, i: int, j: int) returns (w: Word)
    requires W.Length == 16 && data.Length == 16 && W != data && 0 <= i < 16 && (j == 0 || j == 16 || j == 32 || j == 48)
    requires HoldsSchedule(W[..], data[..], i + j)
    modifies W
    ensures HoldsSchedule(W[..], data[..], i + j + 1) && w == Schedule(data[..], i + j)
  {
    hide Add, SmallSigma0, SmallSigma1, HoldsSchedule;
    ghost var W0 := W[..];
    NextScheduled(W0, data[..], i + j);
    SchedulePlaces(i, j);
    if j != 0 {
      W[i % 16] := Add(W[i % 16], Add(Add(SmallSigma1(W[(i - 2) % 16]), W[(i - 7) % 16]), SmallSigma0(W[(i - 15) % 16])));
    } else {
      W[i] := data[i];
    }
    w := W[i % 16];
    assert W[..] == W0[(i + j) % 16 := w];
  }

  /** The macro `R(i)`: one round, in place. */
  method Turn(T: array<Word>, i: int, j: int, w: Word, ghost r: Registers)
    requires T.Length == 8 && 0 <= i < 16 && (j == 0 || j == 16 || j == 32 || j == 48)
    requires HoldsRegisters(T[..], r, i + j)
    modifies T
    ensures HoldsRegisters(T[..], Round(r, RoundConstant(i + j), w), i + j + 1)
  {
    hide Add, BigSigma0, BigSigma1, RoundConstant, QuickCh, QuickMaj, Reg, HoldsRegisters, Round;
    TurnedIsRound(T[..], r, i + j, RoundConstant(i + j), w);
    SameRegs(i, j);
    ghost var T0 := T[..];
    T[Reg(7, i)] := Add(T[Reg(7, i)], Add(Add(Add(BigSigma1(T[Reg(4, i)]), QuickCh(T[Reg(4, i)], T[Reg(5, i)], T[Reg(6, i)])), RoundConstant(i + j)), w));
    T[Reg(3, i)] := Add(T[Reg(3, i)], T[Reg(7, i)]);
    T[Reg(7, i)] := Add(T[Reg(7, i)], Add(BigSigma0(T[Reg(0, i)]), QuickMaj(T[Reg(0, i)], T[Reg(1, i)], T[Reg(2, i)])));
    assert T[..] == Turned(T0, i + j, RoundConstant(i + j), w);
  }

  lemma SameRegs(i: int, j: int)
    requires j % 16 == 0
    ensures forall k :: Reg(k, i) == Reg(k, i + j)
    ensures Reg(3, i) != Reg(7, i)
  {
    forall k ensures Reg(k, i) == Reg(k, i + j) {
      assert j == 8 * (2 * (j / 16)) && k - i == 8 * ((k - i) / 8) + (k - i) % 8;
      RemainderUnique(k - (i + j), (k - i) / 8 - 2 * (j / 16), (k - i) % 8, 8);
    }
  }

  // ---- the compression function ----

  /** The 64 rounds, sixteen at a time. */
  method AllRounds(T: array<Word>, data: array<Word>, ghost r: Registers)
    requires T.Length == 8 && data.Length == 16 && T != data
    requires HoldsRegisters(T[..], r, 0)
    modifies T
    ensures HoldsRegisters(T[..], Rounds(r, data[..], 64), 64)
  {
    hide Add, Round, Schedule, HoldsRegisters, HoldsSchedule, RoundConstant;
    var W := new Word[16];
    ghost var m := data[..];
    NothingScheduled(W[..], m);
    var j := 0;
    while j < 64
      invariant j == 0 || j == 16 || j == 32 || j == 48 || j == 64
      invariant data[..] == m
      invariant HoldsRegisters(T[..], Rounds(r, m, j), j) && HoldsSchedule(W[..], m, j)
      decreases 64 - j
    {
      for i := 0 to 16
        invariant data[..] == m
        invariant HoldsRegisters(T[..], Rounds(r, m, i + j), i + j) && HoldsSchedule(W[..], m, i + j)
      {
        var w := NextWord(W, data, i, j);
        Turn(T, i, j, w, Rounds(r, m, i + j));
        OneRound(r, m, i + j);
      }
      j := j + 16;
    }
  }

  method LoadFile(state: array<Word>) returns (T: array<Word>)
    requires state.Length == 8
    ensures fresh(T) && T.Length == 8 && HoldsRegisters(T[..], Load(state[..]), 0)
  {
    T := new Word[8];
    for j := 0 to 8
      invariant forall k :: 0 <= k < j ==> T[k] == state[k]
    {
      T[j] := state[j];
    }
    Loaded(T[..], state[..]);
  }

  method AddFile(state: array<Word>, T: array<Word>)
    requires state.Length == T.Length == 8 && state != T
    modifies state
    ensures forall k :: 0 <= k < 8 ==> state[k] == Add(old(state[k]), T[k])
  {
    hide Add;
    for j := 0 to 8
      invariant forall k :: 0 <= k < j ==> state[k] == Add(old(state[k]), T[k])
      invariant forall k :: j <= k < 8 ==> state[k] == old(state[k])
    {
      state[j] := Add(state[j], T[j]);
    }
  }

  /** `Transform`. */
  method Transform(state: array<Word>, data: array<Word>)
    requires state.Length == 8 && data.Length == 16 && state != data
    modifies state
    ensures state[..] == Compress(old(state[..]), data[..])
  {
    hide Add, Rounds, HoldsRegisters, Compress;
    ghost var s, m := state[..], data[..];
    var T := LoadFile(state);
    AllRounds(T, data, Load(s));
    ghost var z := T[..];
    AddFile(state, T);
    Finished(state[..], s, m, z);
  }

  lemma Loaded(T: seq<Word>, s: seq<Word>)
    requires |T| == |s| == 8 && forall k :: 0 <= k < 8 ==> T[k] == s[k]
    ensures HoldsRegisters(T, Load(s), 0)
  {
  }

  lemma NothingScheduled(W: seq<Word>, m: seq<Word>)
    requires |W| == |m| == 16
    ensures HoldsSchedule(W, m, 0)
  {
  }

  lemma OneRound(r: Registers, m: seq<Word>, t: nat)
    requires |m| == 16 && t < 64
    ensures Rounds(r, m, t + 1) == Round(Rounds(r, m, t), RoundConstant(t), Schedule(m, t))
  {
  }

  /** After 64 rounds the file is back in place. */
  lemma Finished(out: seq<Word>, s: seq<Word>, m: seq<Word>, T: seq<Word>)
    requires |s| == |out| == 8 && |m| == 16 && HoldsRegisters(T, Rounds(Load(s), m, 64), 64)
    requires forall k :: 0 <= k < 8 ==> out[k] == Add(s[k], T[k])
    ensures out == Compress(s, m)
  {
    hide Add, Rounds;
  }

  // ---- hashing in pieces ----

  /** The state and the first `pos` bytes of the buffer stand for the bytes `p`. */
  ghost predicate Holds(state: seq<Word>, buffer: seq<Byte>, p: seq<Byte>, pos: int) {
    && |state| == 8 && |buffer| == 64 && 0 <= pos <= 64 && pos <= |p| && (|p| - pos) % 64 == 0
    && state == Absorb(p[..|p| - pos]) && buffer[..pos] == p[|p| - pos..]
  }

  lemma HoldsNothing(buffer: seq<Byte>)
    requires |buffer| == 64
    ensures Holds(InitialHash(), buffer, [], 0)
  {
  }

  lemma HoldsMore(state: seq<Word>, buffer: seq<Byte>, p: seq<Byte>, pos: int, x: Byte)
    requires Holds(state, buffer, p, pos) && pos < 64
    ensures Holds(state, buffer[pos := x], p + [x], pos + 1)
  {
    var q, b := p + [x], buffer[pos := x];
    assert q[..|q| - (pos + 1)] == p[..|p| - pos];
    assert b[..pos + 1] == buffer[..pos] + [x];
    assert q[|q| - (pos + 1)..] == p[|p| - pos..] + [x];
  }

  lemma HoldsBlock(state: seq<Word>, buffer: seq<Byte>, p: seq<Byte>)
    requires Holds(state, buffer, p, 64)
    ensures Holds(Compress(state, Words(buffer)), buffer, p, 0)
  {
    hide Compress, Words;
    assert buffer == p[|p| - 64..] && p[..|p|] == p;
  }

  lemma HoldsAll(state: seq<Word>, buffer: seq<Byte>, p: seq<Byte>)
    requires Holds(state, buffer, p, 0)
    ensures state == Absorb(p)
  {
    assert p[..|p|] == p;
  }

  /** The digit of weight `v` on top of the digits below, in a number scaled by `c`. */
  lemma TopDigit(n: nat, v: nat, c: nat)
    requires v > 0 && c > 0
    ensures v * c > 0 && v * 256 > 0
    ensures var a := n % (v * 256);
            a * c / (v * c) == n / v % 256 && a * c * 256 % (v * c * 256) == n % v * c * 256
  {
    var q, d, r := n / v / 256, n / v % 256, n % v;
    assert n == v * (n / v) + r;
    assert n / v == 256 * q + d;
    calc { n; v * (256 * q + d) + r; (v * 256) * q + (v * d + r); }
    Below(v, d, r);
    RemainderUnique(n, q, v * d + r, v * 256);
    var a := v * d + r;
    assert 0 <= r * c < v * c by { Scale(r, v, c); }
    assert a * c == (v * c) * d + r * c;
    RemainderUnique(a * c, d, r * c, v * c);
    assert a * c * 256 == (v * c * 256) * d + r * c * 256;
    RemainderUnique(a * c * 256, d, r * c * 256, v * c * 256);
  }
  lemma Below(v: nat, d: nat, r: nat)
    requires d < 256 && r < v
    ensures v * d + r < v * 256
  {
    assert v * d + v == v * (d + 1);
    if d + 1 < 256 { ProductBound(v, 256 - d - 1); }
  }
  lemma Scale(r: nat, v: nat, c: nat)
    requires r < v && c > 0
    ensures r * c < v * c
  {
    ProductBound(c, v - r);
    assert v * c - r * c == c * (v - r);
  }

  function Power256(k: nat): (p: nat)
    requires k < 8
    ensures p > 0
  {
    match k
    case 0 => 1
    case 1 => 0x1_00
    case 2 => 0x1_0000
    case 3 => 0x1_00_0000
    case 4 => 0x1_0000_0000
    case 5 => 0x1_00_0000_0000
    case 6 => 0x1_0000_0000_0000
    case _ => 0x1_00_0000_0000_0000
  }

  lemma Powers(i: nat)
    requires i < 8
    ensures Power256(7 - i) * Power256(i) == 0x1_00_0000_0000_0000
    ensures i < 7 ==> Power256(i + 1) == Power256(i) * 256 && Power256(7 - i) == Power256(7 - (i + 1)) * 256
  {
  }

  /** After `i` shifts by a byte the length has its digit `i` on top. */
  ghost predicate Shifted(len: nat, n: nat, i: nat) {
    i < 8 ==> len == n % (Power256(7 - i) * 256) * Power256(i)
  }

  lemma ShiftOnce(len: nat, n: nat, i: nat)
    requires i < 8 && Shifted(len, n, i)
    ensures len / 0x1_00_0000_0000_0000 == n / Power256(7 - i) % 256
    ensures Shifted(len * 256 % 0x1_0000_0000_0000_0000, n, i + 1)
  {
    hide Power256;
    TopDigit(n, Power256(7 - i), Power256(i));
    Powers(i);
  }

  lemma DigitAt(n: nat, i: nat, d: nat)
    requires i < 8 && d == n / Power256(7 - i) % 256
    ensures LengthBytes(n)[i] == d as Byte
  {
    assert LengthBytes(n)[i] == Digit(n, Power256(7 - i));
  }

  class Sha256 {
    const state: array<Word>
    const buffer: array<Byte>
    var count: nat
    ghost var message: seq<Byte>   // everything since the last reset

    ghost predicate Holding(p: seq<Byte>, pos: int)
      reads state, buffer
    {
      state.Length == 8 && buffer.Length == 64 && Holds(state[..], buffer[..], p, pos)
    }

    ghost predicate Valid()
      reads this, state, buffer
    {
      Holding(message, |message| % 64) && count == |message| % 0x1_0000_0000_0000_0000
    }

    constructor ()
      ensures Valid() && message == [] && fresh(state) && fresh(buffer)
    {
      state := new Word[8];
      buffer := new Byte[64];
      count := 0;
      message := [];
      new;
      Reset();
    }

    method Reset()
      requires state.Length == 8 && buffer.Length == 64
      modifies this, state
      ensures Valid() && message == []
    {
      state[0], state[1], state[2], state[3] := 0x6a09e667, 0xbb67ae85, 0x3c6ef372, 0xa54ff53a;
      state[4], state[5], state[6], state[7] := 0x510e527f, 0x9b05688c, 0x1f83d9ab, 0x5be0cd19;
      count := 0;
      message := [];
      assert state[..] == InitialHash();
      HoldsNothing(buffer[..]);
    }

    /** The place in the buffer: `(UInt32)count & 0x3F`. */
    function Position(): int
      reads this
    {
      count % 0x1_0000_0000 % 64
    }

    lemma PositionIs()
      requires Valid()
      ensures Position() == |message| % 64
    {
      hide Holding;
      LowBits(|message|);
    }

    static lemma LowBits(n: nat)
      ensures n % 0x1_0000_0000_0000_0000 % 0x1_0000_0000 % 64 == n % 64
    {
      var c := n % 0x1_0000_0000_0000_0000;
      var q, p := n / 0x1_0000_0000_0000_0000, c / 0x1_0000_0000;
      assert c % 0x1_0000_0000 == 64 * (n / 64 - q * 0x400_0000_0000_0000 - p * 0x400_0000) + n % 64;
      RemainderUnique(c % 0x1_0000_0000, n / 64 - q * 0x400_0000_0000_0000 - p * 0x400_0000, n % 64, 64);
    }

    /** Feeds the buffer to the compression function. */
    method WriteByteBlock(ghost p: seq<Byte>)
      requires Holding(p, 64)
      modifies state
      ensures Holding(p, 0)
    {
      hide Words, Compress, Holds;
      var data32 := new Word[16];
      for i := 0 to 16
        invariant state[..] == old(state[..]) && forall k :: 0 <= k < i ==> data32[k] == WordAt(buffer[..], k)
      {
        data32[i] := ((buffer[i * 4] as Word) << 24) + ((buffer[i * 4 + 1] as Word) << 16) + ((buffer[i * 4 + 2] as Word) << 8) + (buffer[i * 4 + 3] as Word);
      }
      assert data32[..] == Words(buffer[..]);
      HoldsBlock(state[..], buffer[..], p);
      Transform(state, data32);
    }

    /** `buffer[pos] = x`. */
    method PutByte(pos: int, x: Byte, ghost p: seq<Byte>)
      requires Holding(p, pos) && pos < 64
      modifies buffer
      ensures Holding(p + [x], pos + 1)
    {
      hide Absorb;
      HoldsMore(state[..], buffer[..], p, pos, x);
      ghost var was := buffer[..];
      buffer[pos] := x;
      assert buffer[..] == was[pos := x];
    }

    /** One byte more; a full buffer goes to the compression function. */
    method UpdateByte(pos: int, x: Byte) returns (curBufferPos: int)
      requires Valid() && pos == |message| % 64
      modifies this, state, buffer
      ensures Valid() && message == old(message) + [x] && curBufferPos == |message| % 64
    {
      hide Holding;
      curBufferPos := pos;
      NextCount(|message|, count);
      NextRemainder(|message|, 64);
      PutByte(curBufferPos, x, message);
      message := message + [x];
      curBufferPos := curBufferPos + 1;
      count := (count + 1) % 0x1_0000_0000_0000_0000;
      if curBufferPos == 64 {
        curBufferPos := 0;
        WriteByteBlock(message);
      }
    }

    static lemma NextCount(n: nat, count: nat)
      requires count == n % 0x1_0000_0000_0000_0000
      ensures (count + 1) % 0x1_0000_0000_0000_0000 == (n + 1) % 0x1_0000_0000_0000_0000
    {
      NextRemainder(n, 0x1_0000_0000_0000_0000);
    }

    static lemma NextRemainder(n: nat, m: nat)
      requires m > 1
      ensures (n % m + 1) % m == (n + 1) % m == if n % m == m - 1 then 0 else n % m + 1
    {
      var q, r := n / m, n % m;
      assert n == m * q + r;
      if r + 1 < m {
        RemainderUnique(n + 1, q, r + 1, m);
        RemainderUnique(r + 1, 0, r + 1, m);
      } else {
        assert n + 1 == m * (q + 1) + 0;
        RemainderUnique(n + 1, q + 1, 0, m);
        RemainderUnique(r + 1, 1, 0, m);
      }
    }

    method Update(data: seq<Byte>)
      requires Valid()
      modifies this, state, buffer
      ensures Valid() && message == old(message) + data
    {
      hide Valid;
      var curBufferPos := Position();
      PositionIs();
      var k := 0;
      assert data[..0] == [];
      while k < |data|
        invariant k <= |data| && message == old(message) + data[..k]
        invariant Valid() && curBufferPos == |message| % 64
      {
        curBufferPos := UpdateByte(curBufferPos, data[k]);
        assert data[..k + 1] == data[..k] + [data[k]];
        k := k + 1;
      }
      assert data[..k] == data;
    }

    /** The zero bytes of the padding. */
    method PutZeros(start: int, ghost m: seq<Byte>)
      requires Holding(m + [0x80], start) && 0 < start <= 64
      modifies state, buffer
      ensures Holding(m + [0x80] + Zeros(Gap(|m|)), 56)
    {
      hide Holding;
      var curBufferPos := start;
      ghost var z := 0;
      assert m + [0x80] + Zeros(0) == m + [0x80];
      while curBufferPos != 64 - 8
        invariant 0 < curBufferPos <= 64 && z <= Gap(|m|) && Holding(m + [0x80] + Zeros(z), curBufferPos)
        decreases Gap(|m|) - z
      {
        ghost var p := m + [0x80] + Zeros(z);
        NotYet(p, curBufferPos, m, z);
        curBufferPos := curBufferPos % 64;
        if curBufferPos == 0 {
          WriteByteBlock(p);
        }
        PutByte(curBufferPos, 0, p);
        curBufferPos := curBufferPos + 1;
        assert Zeros(z + 1) == Zeros(z) + [0];
        assert m + [0x80] + Zeros(z + 1) == p + [0];
        z := z + 1;
      }
      NotYet(m + [0x80] + Zeros(z), 56, m, z);
    }

    /** Where the padding stands. */
    lemma NotYet(p: seq<Byte>, pos: int, m: seq<Byte>, z: nat)
      requires Holding(p, pos) && |p| == |m| + 1 + z && z <= Gap(|m|) && pos > 0
      ensures 0 < pos <= 64 && (pos == 56 <==> z == Gap(|m|))
    {
      hide Absorb;
    }

    /** The length of the padding. */
    method PutLength(n: nat, ghost m: nat, ghost p: seq<Byte>)
      requires Holding(p, 56) && n == m % 0x1_0000_0000_0000_0000
      modifies buffer
      ensures Holding(p + LengthBytes(m), 64)
    {
      hide Holding, LengthBytes, Shifted, Power256;
      var lenInBits := n;
      var curBufferPos := 64 - 8;
      FirstShift(n, m);
      assert p + LengthBytes(m)[..0] == p;
      for i := 0 to 8
        invariant Holding(p + LengthBytes(m)[..i], curBufferPos) && curBufferPos == 56 + i
        invariant Shifted(lenInBits, m, i)
      {
        ShiftOnce(lenInBits, m, i);
        DigitAt(m, i, lenInBits / 0x1_00_0000_0000_0000);
        PutByte(curBufferPos, (lenInBits / 0x1_00_0000_0000_0000) as Byte, p + LengthBytes(m)[..i]);
        assert p + LengthBytes(m)[..i + 1] == p + LengthBytes(m)[..i] + [LengthBytes(m)[i]];
        curBufferPos := curBufferPos + 1;
        lenInBits := lenInBits * 256 % 0x1_0000_0000_0000_0000;
      }
      assert LengthBytes(m)[..8] == LengthBytes(m);
    }

    static lemma FirstShift(n: nat, m: nat)
      requires n == m % 0x1_0000_0000_0000_0000
      ensures Shifted(n, m, 0)
    {
    }

    /** Writes the digest of everything since the last reset, and resets. */
    method Finalize(digest: array<Byte>)
      requires Valid() && digest.Length >= 32 && digest != buffer
      modifies this, state, buffer, digest
      ensures Valid() && message == []
      ensures digest[..32] == Hash(old(message)) && digest[32..] == old(digest[32..])
    {
      hide Holding, Zeros, Gap, LengthBytes, Absorb, Bytes, ByteOf;
      ghost var m := message;
      var lenInBits := count * 8 % 0x1_0000_0000_0000_0000;
      var curBufferPos := Position();
      PositionIs();
      PutByte(curBufferPos, 0x80, m);
      curBufferPos := curBufferPos + 1;
      PutZeros(curBufferPos, m);
      BitCount(|m|, count);
      PutLength(lenInBits, 8 * |m|, m + [0x80] + Zeros(Gap(|m|)));
      WriteByteBlock(Pad(m));
      Absorbed(Pad(m));
      for i := 0 to 8
        invariant state[..] == Absorb(Pad(m)) && digest[..4 * i] == Bytes(state[..i]) && digest[32..] == old(digest[32..])
      {
        ghost var d := digest[..4 * i];
        var w := state[i];
        digest[4 * i], digest[4 * i + 1], digest[4 * i + 2], digest[4 * i + 3] := ByteOf(w, 24), ByteOf(w, 16), ByteOf(w, 8), ByteOf(w, 0);
        NextBytes(state[..], i);
        assert digest[..4 * i + 4] == d + [ByteOf(w, 24), ByteOf(w, 16), ByteOf(w, 8), ByteOf(w, 0)];
      }
      assert state[..8] == state[..];
      Reset();
    }

    static lemma BitCount(n: nat, count: nat)
      requires count == n % 0x1_0000_0000_0000_0000
      ensures count * 8 % 0x1_0000_0000_0000_0000 == 8 * n % 0x1_0000_0000_0000_0000
    {
    }

    lemma Absorbed(p: seq<Byte>)
      requires Holding(p, 0)
      ensures state[..] == Absorb(p) && buffer.Length == 64
    {
      HoldsAll(state[..], buffer[..], p);
    }

    static lemma NextBytes(s: seq<Word>, i: nat)
      requires i < |s|
      ensures Bytes(s[..i + 1]) == Bytes(s[..i]) + [ByteOf(s[i], 24), ByteOf(s[i], 16), ByteOf(s[i], 8), ByteOf(s[i], 0)]
    {
      assert s[..i + 1][..i] == s[..i];
    }

    /** The hash of one piece of data. */
    static method OneShot(data: seq<Byte>, result: array<Byte>)
      requires result.Length == 32
      modifies result
      ensures result[..] == Hash(data)
    {
      hide Sha256.Valid;
      var sha256 := new Sha256();
      sha256.Update(data);
      assert [] + data == data;
      sha256.Finalize(result);
      assert result[..32] == result[..];
    }

    /** The key, hashed when it is too long, filled up with zeros. */
    method FillKey(key: seq<Byte>, hashKey: array<Byte>)
      requires Valid() && message == [] && hashKey.Length == 64 && hashKey != buffer
      modifies this, state, buffer, hashKey
      ensures Valid() && message == [] && hashKey[..] == BlockKey(key)
    {
      hide Valid, Hash;
      if |key| > 64 {
        Update(key);
        assert [] + key == key;
        Finalize(hashKey);
        ZeroTail(hashKey, 32);
        assert hashKey[..] == hashKey[..32] + hashKey[32..];
      } else {
        var n := |key|;
        for i := 0 to n
          invariant hashKey[..i] == key[..i] && Valid() && message == []
        {
          hashKey[i] := key[i];
        }
        if n < 64 {
          ZeroTail(hashKey, n);
        }
        assert hashKey[..] == hashKey[..n] + hashKey[n..] && hashKey[n..] == Zeros(64 - n);
      }
    }

    static method ZeroTail(a: array<Byte>, from: nat)
      requires from <= a.Length
      modifies a
      ensures a[..from] == old(a[..from]) && a[from..] == Zeros(a.Length - from)
    {
      for i := from to a.Length
        invariant a[..from] == old(a[..from]) && forall k :: from <= k < i ==> a[k] == 0
      {
        a[i] := 0;
      }
    }

    static method MakePads(hashKey: array<Byte>) returns (oKeyPad: array<Byte>, iKeyPad: array<Byte>)
      requires hashKey.Length == 64
      ensures fresh(oKeyPad) && fresh(iKeyPad)
      ensures oKeyPad[..] == Masked(hashKey[..], 0x5c) && iKeyPad[..] == Masked(hashKey[..], 0x36)
    {
      oKeyPad, iKeyPad := new Byte[64], new Byte[64];
      for i := 0 to 64
        invariant forall k :: 0 <= k < i ==> oKeyPad[k] == hashKey[k] ^ 0x5c && iKeyPad[k] == hashKey[k] ^ 0x36
      {
        oKeyPad[i] := hashKey[i] ^ 0x5c;
        iKeyPad[i] := hashKey[i] ^ 0x36;
      }
    }

    static method Hmac(key: seq<Byte>, message: seq<Byte>, result: array<Byte>)
      requires result.Length == 32
      modifies result
      ensures result[..] == Sha256Standard.Hmac(key, message)
    {
      hide Sha256.Valid, Hash, BlockKey;
      var sha256 := new Sha256();
      var hashKey := new Byte[64];
      sha256.FillKey(key, hashKey);
      var oKeyPad, iKeyPad := MakePads(hashKey);
      sha256.Digest(iKeyPad[..], message, oKeyPad[..], result);
    }

    /** The inner and the outer hash, with the one object. */
    method Digest(iKeyPad: seq<Byte>, text: seq<Byte>, oKeyPad: seq<Byte>, result: array<Byte>)
      requires Valid() && message == [] && result.Length == 32 && result != buffer
      modifies this, state, buffer, result
      ensures result[..] == Hash(oKeyPad + Hash(iKeyPad + text))
    {
      hide Valid, Hash;
      var hash := new Byte[32];
      Update(iKeyPad);
      Update(text);
      assert [] + iKeyPad == iKeyPad && [] + oKeyPad == oKeyPad;
      Finalize(hash);
      assert hash[..32] == hash[..];
      Update(oKeyPad);
      Update(hash[..]);
      Finalize(result);
      assert result[..32] == result[..];
    }
  }
}
