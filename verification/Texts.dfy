/** What the JSON and the XML code share: character classes, searches, and members with keys. */
module Texts {
  import opened Unicode

  const TAB: Byte := 0x09
  const LF: Byte := 0x0A
  const CR: Byte := 0x0D
  const QUOTE: Byte := 0x22

  /** The characters of a string. */
  function Ascii(s: string): (t: Text)
    requires forall i :: 0 <= i < |s| ==> s[i] < 128 as char
    ensures |t| == |s| && forall i :: 0 <= i < |s| ==> t[i] == s[i] as int
  {
    seq(|s|, i requires 0 <= i < |s| => s[i] as int)
  }

  predicate IsSpace(c: Byte) {
    9 <= c <= 13 || c == 32
  }

  predicate IsDigit(c: Byte) {
    0x30 <= c <= 0x39
  }

  function DigitValue(c: Byte): nat
    requires IsDigit(c)
  {
    c - 0x30
  }

  /** The value of the digits at the start, on top of `acc`. */
  function DigitsValue(s: Text, acc: nat): nat {
    if s == [] || !IsDigit(s[0]) then acc else DigitsValue(s[1..], acc * 10 + DigitValue(s[0]))
  }

  // ---- decimal numbers ----

  function Digits(n: nat): Text {
    if n < 10 then [0x30 + n] else Digits(n / 10) + [0x30 + n % 10]
  }

  lemma {:induction false} DigitsAre(n: nat)
    ensures Digits(n) != [] && forall i :: 0 <= i < |Digits(n)| ==> IsDigit(Digits(n)[i])
  {
    if n >= 10 { DigitsAre(n / 10); }
  }

  /** The decimal digits of a number read back as the number. */
  lemma DigitsBack(n: nat, rest: Text)
    requires rest == [] || !IsDigit(rest[0])
    ensures DigitsValue(Digits(n) + rest, 0) == n
  {
    DigitsAre(n);
    DigitsTotal(Digits(n), rest, 0);
    DigitsTotalOf(n);
  }

  /** The value of a whole sequence of digits. */
  function Total(s: Text, acc: nat): nat
    requires forall i :: 0 <= i < |s| ==> IsDigit(s[i])
  {
    if s == [] then acc else Total(s[..|s| - 1], acc) * 10 + DigitValue(s[|s| - 1])
  }

  lemma {:induction false} DigitsTotal(s: Text, rest: Text, acc: nat)
    requires (forall i :: 0 <= i < |s| ==> IsDigit(s[i])) && (rest == [] || !IsDigit(rest[0]))
    ensures DigitsValue(s + rest, acc) == Total(s, acc)
    decreases |s|
  {
    if s == [] {
      assert s + rest == rest;
    } else {
      assert (s + rest)[1..] == s[1..] + rest;
      DigitsTotal(s[1..], rest, acc * 10 + DigitValue(s[0]));
      TotalFirst(s, acc);
    }
  }

  lemma {:induction false} TotalFirst(s: Text, acc: nat)
    requires s != [] && forall i :: 0 <= i < |s| ==> IsDigit(s[i])
    ensures Total(s, acc) == Total(s[1..], acc * 10 + DigitValue(s[0]))
    decreases |s|
  {
    var n := |s| - 1;
    if n > 0 {
      TotalFirst(s[..n], acc);
      assert s[..n][1..] == s[1..][..n - 1];
    }
  }

  lemma {:induction false} DigitsTotalOf(n: nat)
    ensures (forall i :: 0 <= i < |Digits(n)| ==> IsDigit(Digits(n)[i])) && Total(Digits(n), 0) == n
  {
    DigitsAre(n);
    if n >= 10 {
      DigitsTotalOf(n / 10);
      assert Digits(n)[..|Digits(n)| - 1] == Digits(n / 10);
    } else {
      assert Digits(n)[..0] == [];
    }
  }

  // decimal digits in plain terms

  ghost predicate Digit(c: Byte) {
    c in Ascii("0123456789")
  }

  ghost predicate AllDigits(ds: Text) {
    forall i :: 0 <= i < |ds| ==> Digit(ds[i])
  }

  /** The value of digits. */
  ghost function Decimal(ds: Text): nat
    requires AllDigits(ds)
  {
    if ds == [] then 0 else Decimal(ds[..|ds| - 1]) * 10 + (ds[|ds| - 1] - Ascii("0")[0])
  }

  lemma DigitIs(c: Byte)
    ensures Digit(c) <==> IsDigit(c)
    ensures IsDigit(c) ==> c - Ascii("0")[0] == DigitValue(c)
  {
    assert Ascii("0123456789") == [0x30, 0x31, 0x32, 0x33, 0x34, 0x35, 0x36, 0x37, 0x38, 0x39];
  }

  lemma {:induction false} DecimalTotal(ds: Text)
    requires AllDigits(ds)
    ensures (forall i :: 0 <= i < |ds| ==> IsDigit(ds[i])) && Total(ds, 0) == Decimal(ds)
  {
    hide Digit;
    forall i | 0 <= i < |ds| ensures IsDigit(ds[i]) { DigitIs(ds[i]); }
    if ds != [] {
      DecimalTotal(ds[..|ds| - 1]);
      DigitIs(ds[|ds| - 1]);
    }
  }

  /** Reading digit by digit gives the value of the digits. */
  lemma DecimalRead(ds: Text, rest: Text)
    requires AllDigits(ds) && (rest == [] || !Digit(rest[0]))
    ensures DigitsValue(ds + rest, 0) == Decimal(ds)
  {
    hide Digit;
    if rest != [] { DigitIs(rest[0]); }
    DecimalTotal(ds);
    DigitsTotal(ds, rest, 0);
  }

  /** What is left after the white space at the start. */
  function TrimStart(s: Text): (r: Text)
    ensures |r| <= |s| && (r != [] ==> !IsSpace(r[0]))
  {
    if s != [] && IsSpace(s[0]) then TrimStart(s[1..]) else s
  }

  predicate Blank(s: Text) {
    forall i :: 0 <= i < |s| ==> IsSpace(s[i])
  }

  /** Text that the NUL at its end delimits. */
  predicate NoNul(s: Text) {
    forall i :: 0 <= i < |s| ==> s[i] != 0
  }

  /** The place of the first character that is one of `stops`, or the length. */
  function Span(s: Text, stops: set<Byte>): (n: nat)
    ensures n <= |s| && (n < |s| ==> s[n] in stops) && forall i :: 0 <= i < n ==> s[i] !in stops
  {
    if s == [] || s[0] in stops then 0 else 1 + Span(s[1..], stops)
  }

  lemma SpanOver(a: Text, b: Text, stops: set<Byte>)
    requires (forall i :: 0 <= i < |a| ==> a[i] !in stops) && (b == [] || b[0] in stops)
    ensures Span(a + b, stops) == |a| && (a + b)[..|a|] == a && (a + b)[|a|..] == b
  {
    var s := a + b;
    assert forall i :: 0 <= i < |a| ==> s[i] == a[i];
    assert b != [] ==> s[|a|] == b[0];
  }

  /** What is left at the end of a text. */
  ghost predicate Suffix(r: Text, s: Text) {
    |r| <= |s| && r == s[|s| - |r|..]
  }

  lemma SuffixOf(r: Text, t: Text, s: Text)
    requires Suffix(r, t) && Suffix(t, s)
    ensures Suffix(r, s)
  {
  }

  // ---- keys and values in order of insertion ----

  datatype Member<V> = Member(key: Text, value: V)

  predicate DistinctKeys<V>(ms: seq<Member<V>>) {
    forall i, j :: 0 <= i < j < |ms| ==> ms[i].key != ms[j].key
  }

  /** The place of a key among the members. */
  function KeyAt<V>(ms: seq<Member<V>>, key: Text): (i: nat)
    ensures i <= |ms| && (i < |ms| ==> ms[i].key == key) && forall j :: 0 <= j < i ==> ms[j].key != key
  {
    if ms == [] || ms[0].key == key then 0 else 1 + KeyAt(ms[1..], key)
  }

  function PutMember<V>(ms: seq<Member<V>>, key: Text, v: V): seq<Member<V>> {
    if KeyAt(ms, key) < |ms| then ms[KeyAt(ms, key) := Member(key, v)] else ms + [Member(key, v)]
  }

  /** The members of `ms` are new beside those of `done`. */
  ghost predicate NewKeys<V, W>(done: seq<Member<V>>, ms: seq<Member<W>>) {
    && DistinctKeys(ms)
    && forall i, j :: 0 <= i < |done| && 0 <= j < |ms| ==> done[i].key != ms[j].key
  }

  lemma PutNew<V, W>(done: seq<Member<V>>, ms: seq<Member<W>>, v: V)
    requires ms != [] && NewKeys(done, ms)
    ensures PutMember(done, ms[0].key, v) == done + [Member(ms[0].key, v)]
    ensures NewKeys(done + [Member(ms[0].key, v)], ms[1..])
  {
  }

  /** The last value of a key counts, all other keys keep theirs, and every key keeps its place. */
  lemma PutLookup<V>(ms: seq<Member<V>>, key: Text, v: V, k: Text)
    ensures var r := PutMember(ms, key, v);
            && (if k == key then KeyAt(r, k) < |r| && r[KeyAt(r, k)].value == v
                else (KeyAt(r, k) < |r| <==> KeyAt(ms, k) < |ms|)
                     && (KeyAt(ms, k) < |ms| ==> KeyAt(r, k) == KeyAt(ms, k) && r[KeyAt(r, k)].value == ms[KeyAt(ms, k)].value))
            && |ms| <= |r| <= |ms| + 1 && (forall i :: 0 <= i < |ms| ==> r[i].key == ms[i].key)
            && (DistinctKeys(ms) ==> DistinctKeys(r))
  {
    hide KeyAt;
    var r := PutMember(ms, key, v);
    assert forall i :: 0 <= i < |ms| ==> r[i].key == ms[i].key;
    if k == key {
      KeyAtIs(r, k, KeyAt(ms, k));
    } else if KeyAt(ms, k) < |ms| {
      KeyAtIs(r, k, KeyAt(ms, k));
    } else {
      KeyAtIs(r, k, |r|);
    }
  }

  /** The first place of a key is the only one that `KeyAt` can give. */
  lemma KeyAtIs<V>(ms: seq<Member<V>>, key: Text, i: nat)
    requires i <= |ms| && (i < |ms| ==> ms[i].key == key) && forall j :: 0 <= j < i ==> ms[j].key != key
    ensures KeyAt(ms, key) == i
  {
  }
}
