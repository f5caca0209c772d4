/** UTF-8: encoding code points, and walking and checking strings. */
module Unicode {
  type Byte = b: int | 0 <= b < 256

  type Text = seq<Byte>

  /**
   The byte forms of section 3 of RFC 3629. With bits moved by shifting and masking, `x | 0x80` is
   `x + 0x80` for an `x` of six bits, and likewise for the other prefixes.
   */
  function Utf8(ch: nat): (s: Text)
    requires ch < 0x110000
    ensures 1 <= |s| <= 4
  {
    if ch < 0x80 then [ch]
    else if ch < 0x800 then [0xC0 + ch / 0x40, 0x80 + ch % 0x40]
    else if ch < 0x10000 then [0xE0 + ch / 0x1000, 0x80 + ch / 0x40 % 0x40, 0x80 + ch % 0x40]
    else [0xF0 + ch / 0x40000, 0x80 + ch / 0x1000 % 0x40, 0x80 + ch / 0x40 % 0x40, 0x80 + ch % 0x40]
  }

  /** `append`: a number that is no code point leaves the string alone. */
  method Append(ch: nat, str: Text) returns (ok: bool, r: Text)
    ensures ok <==> ch < 0x110000
    ensures r == if ch < 0x110000 then str + Utf8(ch) else str
  {
    if ch < 0x80 {
      return true, str + [ch];
    }
    if ch < 0x800 {
      return true, str + [ch / 0x40 + 0xC0] + [ch % 0x40 + 0x80];
    }
    if ch < 0x10000 {
      r := str + [ch / 0x1000 + 0xE0] + [ch / 0x40 % 0x40 + 0x80] + [ch % 0x40 + 0x80];
      return true, r;
    }
    if ch < 0x110000 {
      r := str + [ch / 0x40000 + 0xF0] + [ch / 0x1000 % 0x40 + 0x80] + [ch / 0x40 % 0x40 + 0x80] + [ch % 0x40 + 0x80];
      return true, r;
    }
    return false, str;
  }

  /** The encoding of the numbers that are code points. */
  function EncodeAll(cs: seq<nat>): Text {
    if cs == [] then []
    else EncodeAll(cs[..|cs| - 1]) + (if cs[|cs| - 1] < 0x110000 then Utf8(cs[|cs| - 1]) else [])
  }

  ghost predicate CodePoints(cs: seq<nat>) {
    forall i :: 0 <= i < |cs| ==> cs[i] < 0x110000
  }

  method AppendAll(data: seq<nat>, str: Text) returns (ok: bool, r: Text)
    ensures ok <==> CodePoints(data)
    ensures r == str + EncodeAll(data)
  {
    hide *;
    ok, r := true, str;
    NothingEncoded(str);
    assert data[..0] == [];
    for i := 0 to |data|
      invariant (ok <==> CodePoints(data[..i])) && r == str + EncodeAll(data[..i])
    {
      OneMore(data, i);
      PointsGrown(data[..i], data[i]);
      Grown(str, r, data[..i], data[i]);
      var one;
      one, r := Append(data[i], r);
      ok := ok && one;
    }
    assert data[..|data|] == data;
  }

  lemma OneMore(s: seq<nat>, i: nat)
    requires i < |s|
    ensures s[..i + 1] == s[..i] + [s[i]]
  {
  }

  lemma NothingEncoded(str: Text)
    ensures str + EncodeAll([]) == str && CodePoints([])
  {
  }

  lemma PointsGrown(cs: seq<nat>, c: nat)
    ensures CodePoints(cs + [c]) <==> CodePoints(cs) && c < 0x110000
  {
    var all := cs + [c];
    assert all[|cs|] == c;
    if CodePoints(all) {
      forall i | 0 <= i < |cs| ensures cs[i] < 0x110000 { assert all[i] == cs[i]; }
    }
  }

  lemma Grown(str: Text, was: Text, cs: seq<nat>, c: nat)
    requires was == str + EncodeAll(cs)
    ensures str + EncodeAll(cs + [c]) == if c < 0x110000 then was + Utf8(c) else was
  {
    hide Utf8;
    assert (cs + [c])[..|cs|] == cs;
  }

  /** The number of bytes that a first byte announces, 0 for a byte that is none. */
  function Length(ch: Byte): nat {
    if ch < 0x80 then 1
    else if 0xC0 <= ch < 0xE0 then 2
    else if 0xE0 <= ch < 0xF0 then 3
    else if 0xF0 <= ch < 0xF8 then 4
    else 0
  }

  function Offset(n: nat): nat {
    match n
    case 2 => 0x3080
    case 3 => 0xE2080
    case 4 => 0x3C82080
    case _ => 0
  }

  /** Six bits up, and the next byte added. */
  function Shift(sum: int, b: int): int {
    sum * 0x40 + b
  }

  /** `fromString`: the sum of the shifted bytes, less what the prefixes put into it. */
  function FromString(s: Text): nat {
    if s == [] then 0
    else if s[0] < 0x80 then s[0]
    else
      var n := Length(s[0]);
      if |s| < n then 0
      else
        var sum :=
          if n == 4 then Shift(Shift(Shift(s[0], s[1]), s[2]), s[3])
          else if n == 3 then Shift(Shift(s[0], s[1]), s[2])
          else if n == 2 then Shift(s[0], s[1])
          else s[0];
        (sum - Offset(n)) % 0x1_0000_0000
  }

  predicate Continues(b: Byte) {
    0x80 <= b < 0xC0
  }

  /** A first byte with the continuation bytes it announces. */
  predicate Sound(s: Text)
    requires s != []
  {
    var n := Length(s[0]);
    n > 0 && |s| >= n && forall i :: 1 <= i < n ==> Continues(s[i])
  }

  predicate WellFormed(s: Text) {
    s == [] || (Sound(s) && WellFormed(s[Length(s[0])..]))
  }

  // ---- which strings are accepted ----

  /** How many bytes from 0x80 to 0xBF a byte asks for behind it. */
  function Announced(b: Byte): nat {
    if b >= 0xF0 then 3 else if b >= 0xE0 then 2 else if b >= 0xC0 then 1 else 0
  }

  /** A byte from 0x80 to 0xBF stands where one before it asked for it; any other has behind it what it asks for. */
  ghost predicate PlacedAt(s: Text, i: nat)
    requires i < |s|
  {
    && s[i] < 0xF8
    && if 0x80 <= s[i] <= 0xBF then exists j: nat :: j < i && i <= j + Announced(s[j])
       else i + Announced(s[i]) < |s| && forall k :: i < k <= i + Announced(s[i]) ==> 0x80 <= s[k] <= 0xBF
  }

  ghost predicate Placed(s: Text) {
    forall i :: 0 <= i < |s| ==> PlacedAt(s, i)
  }

  /** The strings that are accepted are those in which every byte is in its place. */
  lemma {:induction false} WellFormedExactly(s: Text)
    ensures WellFormed(s) <==> Placed(s)
    decreases |s|
  {
    if s != [] {
      FirstPlaced(s);
      if Sound(s) {
        var n := Length(s[0]);
        WellFormedExactly(s[n..]);
        RestPlaced(s, n);
      }
    }
  }

  lemma FirstPlaced(s: Text)
    requires s != []
    ensures Sound(s) <==> PlacedAt(s, 0)
    ensures Sound(s) ==> Length(s[0]) == 1 + Announced(s[0])
  {
  }

  lemma RestPlaced(s: Text, n: nat)
    requires s != [] && Sound(s) && n == Length(s[0])
    ensures Placed(s) <==> Placed(s[n..])
  {
    FirstPlaced(s);
    var t := s[n..];
    assert forall i :: 0 <= i < |t| ==> t[i] == s[n + i];
    forall i | n <= i < |s| ensures PlacedAt(s, i) <==> PlacedAt(t, i - n) {
      if 0x80 <= s[i] <= 0xBF {
        if j: nat :| j < i - n && i - n <= j + Announced(t[j]) { assert i <= n + j + Announced(s[n + j]); }
        if j: nat :| j < i && i <= j + Announced(s[j]) { assert j >= n && t[j - n] == s[j]; }
      } else if PlacedAt(t, i - n) {
        forall k | i < k <= i + Announced(s[i]) ensures 0x80 <= s[k] <= 0xBF { assert t[k - n] == s[k]; }
      }
    }
    forall i | 0 <= i < n ensures PlacedAt(s, i) {
      if i > 0 { assert i <= 0 + Announced(s[0]); }
    }
    if Placed(s) {
      forall i | 0 <= i < |t| ensures PlacedAt(t, i) { assert PlacedAt(s, n + i); }
    }
  }

  method IsValid(s: Text) returns (ok: bool)
    ensures ok <==> Placed(s)
    ensures ok <==> WellFormed(s)
  {
    WellFormedExactly(s);
    var ch := 0;
    while ch < |s|
      invariant ch <= |s| && (WellFormed(s) <==> WellFormed(s[ch..]))
    {
      var minLen := Length(s[ch]);
      assert s[ch..][0] == s[ch];
      if |s| - ch < minLen {
        return false;
      }
      if minLen == 4 {
        if !(Continues(s[ch + 1]) && Continues(s[ch + 2]) && Continues(s[ch + 3])) {
          assert s[ch..][1] == s[ch + 1] && s[ch..][2] == s[ch + 2] && s[ch..][3] == s[ch + 3];
          return false;
        }
      } else if minLen == 3 {
        if !(Continues(s[ch + 1]) && Continues(s[ch + 2])) {
          assert s[ch..][1] == s[ch + 1] && s[ch..][2] == s[ch + 2];
          return false;
        }
      } else if minLen == 2 {
        if !Continues(s[ch + 1]) {
          assert s[ch..][1] == s[ch + 1];
          return false;
        }
      } else if minLen == 0 {
        return false;
      }
      assert Sound(s[ch..]) && s[ch..][minLen..] == s[ch + minLen..];
      ch := ch + minLen;
    }
    return true;
  }

  /** The code points that `length` and `fromString` find on the way through a string. */
  function Walk(s: Text): seq<nat>
    requires WellFormed(s)
  {
    if s == [] then [] else [FromString(s)] + Walk(s[Length(s[0])..])
  }

  // ---- encoding and decoding ----

  lemma OneCodePoint(ch: nat, rest: Text)
    requires ch < 0x110000
    ensures var s := Utf8(ch) + rest; Length(s[0]) == |Utf8(ch)| && Sound(s) && FromString(s) == ch
  {
    assert ch == ch / 0x40 * 0x40 + ch % 0x40;
    assert ch / 0x40 == ch / 0x1000 * 0x40 + ch / 0x40 % 0x40;
    assert ch / 0x1000 == ch / 0x40000 * 0x40 + ch / 0x1000 % 0x40;
  }

  /** Six more bits. */
  function Six(high: int, b: int): int {
    high * 64 + (b - 0x80)
  }

  /** The shortest form is used, and its bits, six to a byte behind the first one, are those of the code point. */
  lemma FormOf(ch: nat)
    requires ch < 0x110000
    ensures var s := Utf8(ch);
            && |s| == (if ch <= 0x7F then 1 else if ch <= 0x7FF then 2 else if ch <= 0xFFFF then 3 else 4)
            && (forall i :: 1 <= i < |s| ==> 0x80 <= s[i] <= 0xBF)
            && ch == (if |s| == 1 then s[0]
                      else if |s| == 2 then Six(s[0] - 0xC0, s[1])
                      else if |s| == 3 then Six(Six(s[0] - 0xE0, s[1]), s[2])
                      else Six(Six(Six(s[0] - 0xF0, s[1]), s[2]), s[3]))
  {
    assert ch == ch / 0x40 * 0x40 + ch % 0x40;
    assert ch / 0x40 == ch / 0x1000 * 0x40 + ch / 0x40 % 0x40;
    assert ch / 0x1000 == ch / 0x40000 * 0x40 + ch / 0x1000 % 0x40;
  }

  /** A code point that is cut off reads as 0. */
  lemma CutOff(ch: nat, k: nat)
    requires ch < 0x110000 && k < |Utf8(ch)|
    ensures FromString(Utf8(ch)[..k]) == 0
  {
    OneCodePoint(ch, []);
    assert Utf8(ch) + [] == Utf8(ch);
    if k > 0 { assert Utf8(ch)[..k][0] == Utf8(ch)[0]; }
  }

  lemma {:induction false} EncodeFirst(cs: seq<nat>)
    requires cs != []
    ensures EncodeAll(cs) == (if cs[0] < 0x110000 then Utf8(cs[0]) else []) + EncodeAll(cs[1..])
  {
    var n := |cs| - 1;
    if n > 0 {
      EncodeFirst(cs[..n]);
      assert cs[..n][1..] == cs[1..][..n - 1] && cs[1..][n - 1] == cs[n] && cs[..n][0] == cs[0];
    }
  }

  /**
   Every sequence of code points, surrogates included, encodes to a string that `isValid` accepts
   and that decodes to the same sequence.
   */
  lemma {:induction false} RoundTrip(cs: seq<nat>)
    requires CodePoints(cs)
    ensures WellFormed(EncodeAll(cs)) && Walk(EncodeAll(cs)) == cs
  {
    if cs != [] {
      RoundTrip(cs[1..]);
      EncodeFirst(cs);
      var u, rest := Utf8(cs[0]), EncodeAll(cs[1..]);
      OneCodePoint(cs[0], rest);
      assert EncodeAll(cs) == u + rest && (u + rest)[|u|..] == rest;
    }
  }
}
