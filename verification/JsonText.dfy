/**
 JSON as text: what the lexer, the parser and the printer compute, as functions, and the proof
 that parsing undoes printing. The methods of `Json` compute these functions.
 */
module JsonText {
  import opened Unicode
  import opened Texts

  datatype Value =
    | Null
    | Bool(b: bool)
    | Int(i: int)              // an integer of any of the integer types, by value
    | Double(text: Text)       // a number with a point, unconverted
    | Str(s: Text)
    | List(items: seq<Value>)
    | Array(items: seq<Value>)
    | Map(members: seq<Member<Value>>)   // in insertion order

  // ---- characters ----

  const BACKSLASH: Byte := 0x5C
  const COMMA: Byte := 0x2C
  const COLON: Byte := 0x3A
  const OPEN_LIST: Byte := 0x5B
  const CLOSE_LIST: Byte := 0x5D
  const OPEN_MAP: Byte := 0x7B
  const CLOSE_MAP: Byte := 0x7D
  const NUMBER: Byte := 0x23   // the token of a number
  const END: Byte := 0         // the token of the end of the text

  predicate IsHexDigit(c: Byte) {
    IsDigit(c) || 0x41 <= c <= 0x46 || 0x61 <= c <= 0x66
  }

  /** A character that a number token goes on with. */
  predicate InNumber(c: Byte) {
    IsDigit(c) || c == 0x45 || c == 0x65 || c == 0x2D || c == 0x2B || c == 0x2E
  }

  // ---- the lexer ----

  /** `Wild` is a read past the end of the text. */
  datatype Read<T> = Got(value: T, rest: Text) | Bad | Wild

  function HexValue(c: Byte): (v: nat)
    requires IsHexDigit(c)
    ensures v < 16
  {
    if IsDigit(c) then DigitValue(c) else if c <= 0x46 then c - 0x37 else c - 0x57
  }

  predicate HexAhead(s: Text): (ahead: bool)
    ensures ahead ==> |s| >= 4
  {
    |s| >= 4 && IsHexDigit(s[0]) && IsHexDigit(s[1]) && IsHexDigit(s[2]) && IsHexDigit(s[3])
  }

  function Hex4(s: Text): (w: nat)
    requires HexAhead(s)
    ensures w < 0x10000
  {
    ((HexValue(s[0]) * 16 + HexValue(s[1])) * 16 + HexValue(s[2])) * 16 + HexValue(s[3])
  }

  predicate HighSurrogate(w: nat) { 0xD800 <= w < 0xDC00 }
  predicate LowSurrogate(w: nat) { 0xDC00 <= w < 0xE000 }

  /** The code point of a surrogate pair. */
  function Paired(w1: nat, w2: nat): (ch: nat)
    ensures 0x10000 <= ch < 0x110000
  {
    w2 % 0x400 + w1 % 0x400 * 0x400 + 0x10000
  }

  /** An escape that starts with a backslash and a `u`: its characters, and the rest. */
  function ReadUnicode(s: Text): (r: Read<Text>)
    ensures r.Got? ==> |r.rest| < |s|
  {
    if !HexAhead(s) then Bad
    else if HighSurrogate(Hex4(s)) then
      var t := s[4..];
      if |t| < 2 || t[0] != BACKSLASH || t[1] != 0x75 || !HexAhead(t[2..]) || !LowSurrogate(Hex4(t[2..])) then Bad
      else Got(Utf8(Paired(Hex4(s), Hex4(t[2..]))), t[6..])
    else Got(Utf8(Hex4(s)), s[4..])
  }

  /** The character of a short escape. */
  function Escaped(c: Byte): Text {
    if c == QUOTE || c == BACKSLASH || c == 0x2F then [c]
    else if c == 0x62 then [0x08]
    else if c == 0x66 then [0x0C]
    else if c == 0x6E then [0x0A]
    else if c == 0x72 then [0x0D]
    else if c == 0x74 then [0x09]
    else [BACKSLASH, c]
  }

  function Prepend(x: Text, r: Read<Text>): Read<Text> {
    if r.Got? then Got(x + r.value, r.rest) else r
  }

  /** The string up to its closing quote. */
  function ReadString(s: Text): (r: Read<Text>)
    ensures r.Got? ==> |r.rest| < |s|
    decreases |s|
  {
    if s == [] then Bad
    else if s[0] == QUOTE then Got([], s[1..])
    else if s[0] == CR then ReadString(if |s| > 1 && s[1] == LF then s[2..] else s[1..])
    else if s[0] == LF then ReadString(s[1..])
    else if s[0] != BACKSLASH then Prepend([s[0]], ReadString(s[1..]))
    else if |s| == 1 then Wild
    else if s[1] != 0x75 then Prepend(Escaped(s[1]), ReadString(s[2..]))
    else
      var u := ReadUnicode(s[2..]);
      if u.Got? then Prepend(u.value, ReadString(u.rest)) else u
  }

  /** The length of a number token. */
  function NumberLength(s: Text): (n: nat)
    ensures n <= |s| && (forall i :: 0 <= i < n ==> InNumber(s[i])) && (n < |s| ==> !InNumber(s[n]))
  {
    if s == [] || !InNumber(s[0]) then 0 else 1 + NumberLength(s[1..])
  }

  function Clamp(x: int): int {
    if x < -0x8000_0000_0000_0000 then -0x8000_0000_0000_0000
    else if x > 0x7FFF_FFFF_FFFF_FFFF then 0x7FFF_FFFF_FFFF_FFFF
    else x
  }

  /** `atoll`. */
  function ToInt64(s: Text): int {
    if s != [] && s[0] == 0x2D then Clamp(0 - DigitsValue(s[1..], 0))
    else if s != [] && s[0] == 0x2B then Clamp(DigitsValue(s[1..], 0))
    else Clamp(DigitsValue(s, 0))
  }

  function NumberValue(n: Text): Value {
    if 0x2E in n then Double(n) else Int(ToInt64(n))
  }

  datatype Token = Token(kind: Byte, value: Value)

  predicate IsMark(c: Byte) {
    c == OPEN_MAP || c == CLOSE_MAP || c == OPEN_LIST || c == CLOSE_LIST || c == COMMA || c == COLON
  }

  const TRUE: Text := [0x74, 0x72, 0x75, 0x65]
  const FALSE: Text := [0x66, 0x61, 0x6C, 0x73, 0x65]
  const NULL: Text := [0x6E, 0x75, 0x6C, 0x6C]

  /** The next token, after white space. */
  function ReadToken(s: Text): (r: Read<Token>)
    ensures r.Got? ==> |r.rest| <= |s| && (r.value.kind != END ==> |r.rest| < |s|)
  {
    ReadAt(TrimStart(s))
  }

  function ReadAt(s: Text): (r: Read<Token>)
    ensures r.Got? ==> |r.rest| <= |s| && (r.value.kind != END ==> |r.rest| < |s|)
  {
    if s == [] then Got(Token(END, Null), s)
    else if IsMark(s[0]) then Got(Token(s[0], Null), s[1..])
    else if s[0] == QUOTE then
      match ReadString(s[1..])
      case Got(value, rest) => Got(Token(QUOTE, Str(value)), rest)
      case Bad => Bad
      case Wild => Wild
    else if s[0] == 0x74 then if TRUE <= s then Got(Token(0x74, Bool(true)), s[4..]) else Bad
    else if s[0] == 0x66 then if FALSE <= s then Got(Token(0x66, Bool(false)), s[5..]) else Bad
    else if s[0] == 0x6E then if NULL <= s then Got(Token(0x6E, Null), s[4..]) else Bad
    else if s[0] == 0x2D || IsDigit(s[0]) then
      Got(Token(NUMBER, NumberValue(s[..NumberLength(s)])), s[NumberLength(s)..])
    else Bad
  }

  // ---- the parser ----

  /** A value, with the token after it and the text after that. */
  datatype Parsed<T> = Done(value: T, token: Token, rest: Text) | Failed | Strayed

  function Finish<T>(value: T, r: Read<Token>): Parsed<T> {
    match r
    case Got(t, rest) => Done(value, t, rest)
    case Bad => Failed
    case Wild => Strayed
  }

  function NoMatch<S, T>(p: Parsed<S>): Parsed<T>
    requires !p.Done?
  {
    if p.Failed? then Failed else Strayed
  }

  function Weight(t: Token, rest: Text): nat {
    |rest| + (if t.kind == END then 0 else 1)
  }

  predicate HoldsValue(kind: Byte) {
    kind == QUOTE || kind == NUMBER || kind == 0x74 || kind == 0x66 || kind == 0x6E
  }

  function ParseValue(t: Token, rest: Text): (p: Parsed<Value>)
    ensures p.Done? ==> Weight(p.token, p.rest) <= |rest|
    decreases Weight(t, rest), 0
  {
    if HoldsValue(t.kind) then Finish(t.value, ReadToken(rest))
    else if t.kind == OPEN_LIST then
      match ReadToken(rest)
      case Got(t1, r1) =>
        (match ParseItems(t1, r1)
         case Done(vs, t2, r2) => Done(List(vs), t2, r2)
         case Failed => Failed
         case Strayed => Strayed)
      case Bad => Failed
      case Wild => Strayed
    else if t.kind == OPEN_MAP then
      match ReadToken(rest)
      case Got(t1, r1) =>
        (match ParseMembers(t1, r1, [])
         case Done(ms, t2, r2) => Done(Map(ms), t2, r2)
         case Failed => Failed
         case Strayed => Strayed)
      case Bad => Failed
      case Wild => Strayed
    else Failed
  }

  function ParseItems(t: Token, rest: Text): (p: Parsed<seq<Value>>)
    ensures p.Done? ==> Weight(p.token, p.rest) <= |rest|
    decreases Weight(t, rest), 1
  {
    if t.kind == CLOSE_LIST then Finish([], ReadToken(rest))
    else
      var p := ParseValue(t, rest);
      if !p.Done? then NoMatch(p)
      else if p.token.kind == CLOSE_LIST then Finish([p.value], ReadToken(p.rest))
      else if p.token.kind != COMMA then Failed
      else
        match ReadToken(p.rest)
        case Got(t2, r2) =>
          var q := ParseItems(t2, r2);
          if q.Done? then Done([p.value] + q.value, q.token, q.rest) else q
        case Bad => Failed
        case Wild => Strayed
  }

  function ParseMembers(t: Token, rest: Text, ms: seq<Member<Value>>): (p: Parsed<seq<Member<Value>>>)
    ensures p.Done? ==> Weight(p.token, p.rest) <= |rest|
    decreases Weight(t, rest), 1
  {
    if t.kind == CLOSE_MAP then Finish(ms, ReadToken(rest))
    else if t.kind != QUOTE || !t.value.Str? then Failed
    else
      match ReadToken(rest)
      case Bad => Failed
      case Wild => Strayed
      case Got(t1, r1) =>
        if t1.kind != COLON then Failed
        else
          match ReadToken(r1)
          case Bad => Failed
          case Wild => Strayed
          case Got(t2, r2) =>
            var p := ParseValue(t2, r2);
            if !p.Done? then NoMatch(p)
            else
              var ms' := PutMember(ms, t.value.s, p.value);
              if p.token.kind == CLOSE_MAP then Finish(ms', ReadToken(p.rest))
              else if p.token.kind != COMMA then Failed
              else
                match ReadToken(p.rest)
                case Bad => Failed
                case Wild => Strayed
                case Got(t3, r3) => ParseMembers(t3, r3, ms')
  }

  /** The whole text; whatever follows the value need only start with a token. */
  function Parse(s: Text): Parsed<Value> {
    match ReadToken(s)
    case Got(t, rest) => ParseValue(t, rest)
    case Bad => Failed
    case Wild => Strayed
  }

  // ---- the printer ----

  /** What `appendEscapedString` does to one character. */
  function Escape1(c: Byte): Text {
    if c == QUOTE || c == BACKSLASH then [BACKSLASH, c] else [c]
  }

  /** A search for quotes and backslashes ends at a NUL, so what comes after one stays as it is. */
  function Escape(s: Text): Text {
    if s == [] || s[0] == 0 then s else Escape1(s[0]) + Escape(s[1..])
  }

  function IntText(i: int): Text {
    if i < 0 then [0x2D] + Digits(-i) else Digits(i)
  }

  function Quoted(s: Text): Text {
    [QUOTE] + Escape(s) + [QUOTE]
  }

  /** The text of a value; `ind` is the indentation of the line it starts on. */
  function Print(v: Value, ind: Text): Text
    decreases v
  {
    match v
    case Null => NULL
    case Bool(b) => if b then TRUE else FALSE
    case Int(i) => IntText(i)
    case Double(text) => text
    case Str(s) => Quoted(s)
    case List(vs) => if vs == [] then [OPEN_LIST, CLOSE_LIST] else [OPEN_LIST, LF] + PrintItems(vs, ind + [TAB]) + [LF] + ind + [CLOSE_LIST]
    case Array(vs) => if vs == [] then [OPEN_LIST, CLOSE_LIST] else [OPEN_LIST, LF] + PrintItems(vs, ind + [TAB]) + [LF] + ind + [CLOSE_LIST]
    case Map(ms) => if ms == [] then [OPEN_MAP, CLOSE_MAP] else [OPEN_MAP, LF] + PrintMembers(ms, ind + [TAB]) + [LF] + ind + [CLOSE_MAP]
  }

  function PrintItems(vs: seq<Value>, ind: Text): Text
    requires vs != []
    decreases vs
  {
    ind + Print(vs[0], ind) + (if |vs| == 1 then [] else [COMMA, LF] + PrintItems(vs[1..], ind))
  }

  function PrintMembers(ms: seq<Member<Value>>, ind: Text): Text
    requires ms != []
    decreases ms
  {
    ind + Quoted(ms[0].key) + [COLON, 0x20] + Print(ms[0].value, ind)
    + (if |ms| == 1 then [] else [COMMA, LF] + PrintMembers(ms[1..], ind))
  }

  // ---- which values come back ----

  /** No NUL, which ends a text, and no line break, which the lexer drops from strings. */
  predicate Plain(s: Text) {
    forall i :: 0 <= i < |s| ==> s[i] != 0 && s[i] != CR && s[i] != LF
  }

  /** What the lexer leaves of a string. */
  function Stripped(s: Text): Text {
    if s == [] then [] else if s[0] == CR || s[0] == LF then Stripped(s[1..]) else [s[0]] + Stripped(s[1..])
  }

  /** The text of a number with a point. */
  predicate IsNumber(text: Text) {
    text != [] && (text[0] == 0x2D || IsDigit(text[0])) && 0x2E in text && forall i :: 0 <= i < |text| ==> InNumber(text[i])
  }

  /** Everything but numbers that are none and strings with a NUL in them. */
  predicate Printable(v: Value)
    decreases v
  {
    match v
    case Null => true
    case Bool(_) => true
    case Int(i) => Clamp(i) == i
    case Double(text) => IsNumber(text)
    case Str(s) => NoNul(s)
    case List(vs) => AllPrintable(vs)
    case Array(vs) => AllPrintable(vs)
    case Map(ms) => DistinctKeys(ms) && AllPrintableMembers(ms)
  }

  predicate AllPrintable(vs: seq<Value>)
    decreases vs
  {
    vs == [] || (Printable(vs[0]) && AllPrintable(vs[1..]))
  }

  predicate AllPrintableMembers(ms: seq<Member<Value>>)
    decreases ms
  {
    ms == [] || (NoNul(ms[0].key) && Printable(ms[0].value) && AllPrintableMembers(ms[1..]))
  }

  /** What comes back: arrays as lists, strings without line breaks, and the members that then have the same key as one. */
  function Returned(v: Value): Value
    decreases v
  {
    match v
    case Str(s) => Str(Stripped(s))
    case List(vs) => List(AllReturned(vs))
    case Array(vs) => List(AllReturned(vs))
    case Map(ms) => Map(Merged([], AllReturnedMembers(ms)))
    case _ => v
  }

  function AllReturned(vs: seq<Value>): seq<Value>
    decreases vs
  {
    if vs == [] then [] else [Returned(vs[0])] + AllReturned(vs[1..])
  }

  function AllReturnedMembers(ms: seq<Member<Value>>): seq<Member<Value>>
    decreases ms
  {
    if ms == [] then [] else [Member(Stripped(ms[0].key), Returned(ms[0].value))] + AllReturnedMembers(ms[1..])
  }

  function Merged(done: seq<Member<Value>>, ms: seq<Member<Value>>): seq<Member<Value>>
    decreases |ms|
  {
    if ms == [] then done else Merged(PutMember(done, ms[0].key, ms[0].value), ms[1..])
  }

  /** The same value, with its arrays as lists. */
  function AsLists(v: Value): Value
    decreases v
  {
    match v
    case List(vs) => List(AllAsLists(vs))
    case Array(vs) => List(AllAsLists(vs))
    case Map(ms) => Map(AllMembersAsLists(ms))
    case _ => v
  }

  function AllAsLists(vs: seq<Value>): seq<Value>
    decreases vs
  {
    if vs == [] then [] else [AsLists(vs[0])] + AllAsLists(vs[1..])
  }

  function AllMembersAsLists(ms: seq<Member<Value>>): (r: seq<Member<Value>>)
    ensures |r| == |ms| && forall i :: 0 <= i < |ms| ==> r[i].key == ms[i].key
    decreases ms
  {
    if ms == [] then [] else [Member(ms[0].key, AsLists(ms[0].value))] + AllMembersAsLists(ms[1..])
  }

  /** No string and no key has a line break. */
  predicate Tidy(v: Value)
    decreases v
  {
    match v
    case Str(s) => Plain(s)
    case List(vs) => AllTidy(vs)
    case Array(vs) => AllTidy(vs)
    case Map(ms) => AllTidyMembers(ms)
    case _ => true
  }

  predicate AllTidy(vs: seq<Value>)
    decreases vs
  {
    vs == [] || (Tidy(vs[0]) && AllTidy(vs[1..]))
  }

  predicate AllTidyMembers(ms: seq<Member<Value>>)
    decreases ms
  {
    ms == [] || (Plain(ms[0].key) && Tidy(ms[0].value) && AllTidyMembers(ms[1..]))
  }

  // ---- a value comes back unchanged if and only if it is tidy ----

  /** A string without NUL is left alone exactly when it has no line break. */
  lemma {:induction false} StrippedPlain(s: Text)
    requires NoNul(s)
    ensures |Stripped(s)| <= |s| && (Stripped(s) == s <==> Plain(s))
  {
    if s != [] {
      StrippedPlain(s[1..]);
      assert s == [s[0]] + s[1..];
      if Plain(s[1..]) && s[0] != CR && s[0] != LF {
        assert forall i :: 0 <= i < |s| ==> s[i] == if i == 0 then s[0] else s[1..][i - 1];
      }
      if Plain(s) {
        assert forall i :: 0 <= i < |s[1..]| ==> s[1..][i] == s[i + 1];
      }
    }
  }

  /** Merging keeps the number of members only when no keys meet. */
  lemma {:induction false} MergedNew(done: seq<Member<Value>>, ms: seq<Member<Value>>)
    ensures |Merged(done, ms)| <= |done| + |ms|
    ensures |Merged(done, ms)| == |done| + |ms| ==> Merged(done, ms) == done + ms
    ensures NewKeys(done, ms) ==> Merged(done, ms) == done + ms
    decreases |ms|
  {
    hide NewKeys;
    if ms == [] {
      assert done + ms == done;
    } else {
      var more := PutMember(done, ms[0].key, ms[0].value);
      MergedNew(more, ms[1..]);
      assert ms[0] == Member(ms[0].key, ms[0].value);
      assert done + [ms[0]] + ms[1..] == done + ms;
      if NewKeys(done, ms) { PutNew(done, ms, ms[0].value); }
    }
  }

  lemma FirstTwo<T>(x: T, a: seq<T>, y: T, b: seq<T>)
    ensures [x] + a == [y] + b <==> x == y && a == b
  {
    if [x] + a == [y] + b {
      assert ([x] + a)[0] == ([y] + b)[0] && ([x] + a)[1..] == a && ([y] + b)[1..] == b;
    }
  }

  lemma {:induction false} ReturnedUnchanged(v: Value)
    requires Printable(v)
    ensures Returned(v) == AsLists(v) <==> Tidy(v)
    decreases v, 1
  {
    hide Merged, AllReturned, AllReturnedMembers, AllAsLists, AllMembersAsLists, AllTidy, AllTidyMembers, Stripped;
    match v
    case Str(s) => StrippedPlain(s);
    case List(vs) => ItemsUnchanged(vs);
    case Array(vs) => ItemsUnchanged(vs);
    case Map(ms) => {
      MembersUnchanged(ms);
      MergedUnchanged(ms, AllReturnedMembers(ms), AllMembersAsLists(ms));
    }
    case _ =>
  }

  lemma SameKeys(ms: seq<Member<Value>>, ls: seq<Member<Value>>)
    requires DistinctKeys(ms) && |ms| == |ls| && forall i :: 0 <= i < |ms| ==> ls[i].key == ms[i].key
    ensures DistinctKeys(ls)
  {
  }

  lemma MergedUnchanged(ms: seq<Member<Value>>, rs: seq<Member<Value>>, ls: seq<Member<Value>>)
    requires DistinctKeys(ms) && |rs| == |ms| == |ls| && forall i :: 0 <= i < |ms| ==> ls[i].key == ms[i].key
    ensures Merged([], rs) == ls <==> rs == ls
  {
    hide Merged, DistinctKeys;
    MergedNew([], rs);
    assert [] + rs == rs;
    if rs == ls {
      SameKeys(ms, ls);
      assert NewKeys<Value, Value>([], rs);
    }
  }

  lemma {:induction false} ItemsUnchanged(vs: seq<Value>)
    requires AllPrintable(vs)
    ensures AllReturned(vs) == AllAsLists(vs) <==> AllTidy(vs)
    decreases vs, 0
  {
    hide Returned, AsLists, Tidy, Printable;
    if vs != [] {
      ReturnedUnchanged(vs[0]);
      ItemsUnchanged(vs[1..]);
      FirstTwo(Returned(vs[0]), AllReturned(vs[1..]), AsLists(vs[0]), AllAsLists(vs[1..]));
    }
  }

  lemma {:induction false} MembersUnchanged(ms: seq<Member<Value>>)
    requires AllPrintableMembers(ms)
    ensures |AllReturnedMembers(ms)| == |ms| && (AllReturnedMembers(ms) == AllMembersAsLists(ms) <==> AllTidyMembers(ms))
    decreases ms, 0
  {
    hide Returned, AsLists, Tidy, Printable, Stripped, Plain;
    if ms != [] {
      StrippedPlain(ms[0].key);
      ReturnedUnchanged(ms[0].value);
      MembersUnchanged(ms[1..]);
      FirstTwo(Member(Stripped(ms[0].key), Returned(ms[0].value)), AllReturnedMembers(ms[1..]),
               Member(ms[0].key, AsLists(ms[0].value)), AllMembersAsLists(ms[1..]));
    }
  }

  // ---- tokens come back ----

  lemma {:induction false} SkipBlank(b: Text, s: Text)
    requires Blank(b)
    ensures TrimStart(b + s) == TrimStart(s)
  {
    if b == [] {
      assert b + s == s;
    } else {
      assert (b + s)[1..] == b[1..] + s;
      SkipBlank(b[1..], s);
    }
  }

  lemma BlankBefore(b: Text, s: Text)
    requires Blank(b)
    ensures ReadToken(b + s) == ReadToken(s)
  {
    SkipBlank(b, s);
  }

  /** Reading an escaped string gives the string back, without its line breaks. */
  lemma {:induction false} StringBack(s: Text, rest: Text)
    requires NoNul(s)
    ensures ReadString(Escape(s) + [QUOTE] + rest) == Got(Stripped(s), rest)
    decreases |s|
  {
    hide ReadString;
    var all := Escape(s) + [QUOTE] + rest;
    if s == [] {
      assert all == [QUOTE] + rest;
      AtQuote(rest);
    } else {
      StringBack(s[1..], rest);
      var e, tail := Escape1(s[0]), Escape(s[1..]) + [QUOTE] + rest;
      assert all == e + tail;
      EscapedChar(s[0], tail);
    }
  }

  lemma AtQuote(rest: Text)
    ensures ReadString([QUOTE] + rest) == Got([], rest)
  {
    assert ([QUOTE] + rest)[1..] == rest;
  }

  /** A line break is dropped, be it one character or two; every other character is kept. */
  lemma EscapedChar(c: Byte, tail: Text)
    requires c != 0
    ensures ReadString(Escape1(c) + tail) == if c == CR || c == LF then ReadString(tail) else Prepend([c], ReadString(tail))
  {
    hide ReadUnicode;
    var t := Escape1(c) + tail;
    assert t[|Escape1(c)|..] == tail;
    if c == CR && tail != [] && tail[0] == LF { assert t[2..] == tail[1..]; }
  }

  /** So a string without NUL comes back as it was if and only if it has no line break. */
  lemma StringBackExactly(s: Text, rest: Text)
    requires NoNul(s)
    ensures ReadString(Escape(s) + [QUOTE] + rest) == Got(s, rest) <==> Plain(s)
  {
    StringBack(s, rest);
    StrippedPlain(s);
  }

  lemma TokenOfString(s: Text, rest: Text)
    requires NoNul(s)
    ensures ReadToken(Quoted(s) + rest) == Got(Token(QUOTE, Str(Stripped(s))), rest)
  {
    hide ReadString, Escape;
    StringBack(s, rest);
    assert Quoted(s) + rest == [QUOTE] + (Escape(s) + [QUOTE] + rest);
  }

  /** What follows a number on the page does not continue it. */
  predicate Ends(rest: Text) {
    rest == [] || !InNumber(rest[0])
  }

  lemma {:induction false} NumberEnds(n: Text, rest: Text)
    requires (forall i :: 0 <= i < |n| ==> InNumber(n[i])) && Ends(rest)
    ensures NumberLength(n + rest) == |n|
    decreases |n|
  {
    if n == [] {
      assert n + rest == rest;
    } else {
      assert (n + rest)[1..] == n[1..] + rest;
      NumberEnds(n[1..], rest);
    }
  }

  lemma IntBack(i: int)
    requires Clamp(i) == i
    ensures var n := IntText(i); n != [] && (forall k :: 0 <= k < |n| ==> InNumber(n[k]) && n[k] != 0x2E) && ToInt64(n) == i
    ensures IntText(i)[0] == 0x2D || IsDigit(IntText(i)[0])
  {
    var m: nat := if i < 0 then -i else i;
    DigitsAre(m);
    DigitsBack(m, []);
    assert Digits(m) + [] == Digits(m);
    if i < 0 { assert IntText(i)[1..] == Digits(m); }
  }

  lemma TokenOfInt(i: int, rest: Text)
    requires Clamp(i) == i && Ends(rest)
    ensures ReadToken(IntText(i) + rest) == Got(Token(NUMBER, Int(i)), rest)
  {
    hide IntText, Digits, ToInt64, Clamp, NumberLength;
    var n := IntText(i);
    IntBack(i);
    NumberEnds(n, rest);
    var s := n + rest;
    assert s[0] == n[0] && s[..|n|] == n && s[|n|..] == rest;
    assert TrimStart(s) == s;
  }

  lemma TokenOfDouble(text: Text, rest: Text)
    requires IsNumber(text) && Ends(rest)
    ensures ReadToken(text + rest) == Got(Token(NUMBER, Double(text)), rest)
  {
    hide NumberLength, ToInt64;
    NumberEnds(text, rest);
    var s := text + rest;
    assert s[0] == text[0] && s[..|text|] == text && s[|text|..] == rest;
    assert TrimStart(s) == s;
  }

  lemma TokenOfWord(v: Value, w: Text, rest: Text)
    requires (v == Null && w == NULL) || (v == Bool(true) && w == TRUE) || (v == Bool(false) && w == FALSE)
    ensures ReadToken(w + rest) == Got(Token(w[0], v), rest) && HoldsValue(w[0])
  {
    var s := w + rest;
    assert s[0] == w[0] && w <= s && s[|w|..] == rest && TrimStart(s) == s;
  }

  lemma TokenOfMark(c: Byte, rest: Text)
    requires IsMark(c)
    ensures ReadToken([c] + rest) == Got(Token(c, Null), rest)
  {
    assert ([c] + rest)[1..] == rest && TrimStart([c] + rest) == [c] + rest;
  }

  // ---- values come back ----

  /** What parsing makes of the text of `v`, when `rest` comes after it. */
  ghost predicate Back(v: Value, ind: Text, rest: Text) {
    var r, next := ReadToken(Print(v, ind) + rest), ReadToken(rest);
    && r.Got? && next.Got? && r.value.kind != CLOSE_LIST
    && ParseValue(r.value, r.rest) == Done(Returned(v), next.value, next.rest)
  }

  lemma SimpleBack(v: Value, ind: Text, rest: Text)
    requires Printable(v) && !v.List? && !v.Array? && !v.Map? && Ends(rest) && ReadToken(rest).Got?
    ensures Back(v, ind, rest)
  {
    hide ReadToken, Escape, IntText;
    match v
    case Null => TokenOfWord(v, NULL, rest);
    case Bool(b) => TokenOfWord(v, if b then TRUE else FALSE, rest);
    case Int(i) => TokenOfInt(i, rest);
    case Double(text) => TokenOfDouble(text, rest);
    case Str(s) => TokenOfString(s, rest);
  }

  /** The lines of a list, up to and with its closing bracket. */
  ghost function ListTail(vs: seq<Value>, ind: Text, rest: Text): Text
    requires vs != []
  {
    PrintItems(vs, ind + [TAB]) + [LF] + ind + [CLOSE_LIST] + rest
  }

  /** The first line of a list, and what comes after it. */
  lemma ListLines(vs: seq<Value>, ind: Text, rest: Text)
    requires vs != []
    ensures var inner := ind + [TAB];
            ListTail(vs, ind, rest) == inner + (Print(vs[0], inner)
              + (if |vs| == 1 then [LF] + ind + [CLOSE_LIST] + rest else [COMMA] + ([LF] + ListTail(vs[1..], ind, rest))))
  {
    hide Print;
  }

  lemma LastItem(t: Token, r: Text, v: Value, r1: Text)
    requires t.kind != CLOSE_LIST && ParseValue(t, r) == Done(v, Token(CLOSE_LIST, Null), r1)
    ensures ParseItems(t, r) == Finish([v], ReadToken(r1))
  {
    hide ReadToken, ParseValue;
  }

  lemma MoreItems(t: Token, r: Text, v: Value, r1: Text, vs: seq<Value>, t3: Token, r3: Text)
    requires t.kind != CLOSE_LIST && ParseValue(t, r) == Done(v, Token(COMMA, Null), r1) && ReadToken(r1).Got?
    requires ParseItems(ReadToken(r1).value, ReadToken(r1).rest) == Done(vs, t3, r3)
    ensures ParseItems(t, r) == Done([v] + vs, t3, r3)
  {
    hide ReadToken, ParseValue;
  }

  /** The closing bracket on its own line. */
  lemma CloseBack(c: Byte, ind: Text, rest: Text)
    requires (c == CLOSE_LIST || c == CLOSE_MAP) && Blank(ind)
    ensures var close := [LF] + ind + [c] + rest; ReadToken(close) == Got(Token(c, Null), rest) && Ends(close)
  {
    hide ReadToken;
    BlankBefore([LF] + ind, [c] + rest);
    TokenOfMark(c, rest);
    assert [LF] + ind + [c] + rest == ([LF] + ind) + ([c] + rest);
  }

  /** The comma and the next line. */
  lemma CommaBack(tail: Text)
    ensures var more := [COMMA] + ([LF] + tail);
            ReadToken(more) == Got(Token(COMMA, Null), [LF] + tail) && Ends(more) && ReadToken([LF] + tail) == ReadToken(tail)
  {
    hide ReadToken;
    TokenOfMark(COMMA, [LF] + tail);
    BlankBefore([LF], tail);
  }

  lemma {:induction false} ItemsBack(vs: seq<Value>, ind: Text, rest: Text)
    requires vs != [] && AllPrintable(vs) && Blank(ind) && ReadToken(rest).Got?
    ensures var r, next := ReadToken(ListTail(vs, ind, rest)), ReadToken(rest);
            r.Got? && ParseItems(r.value, r.rest) == Done(AllReturned(vs), next.value, next.rest)
    decreases vs, 0
  {
    hide ReadToken, Print, Returned, ParseItems, ParseValue, IsMark, Printable, ListTail;
    var inner := ind + [TAB];
    if |vs| == 1 {
      var close := [LF] + ind + [CLOSE_LIST] + rest;
      CloseBack(CLOSE_LIST, ind, rest);
      ValueBack(vs[0], inner, close);
      ListLines(vs, ind, rest);
      BlankBefore(inner, Print(vs[0], inner) + close);
      var r := ReadToken(Print(vs[0], inner) + close);
      LastItem(r.value, r.rest, Returned(vs[0]), rest);
      assert AllReturned(vs) == [Returned(vs[0])];
    } else {
      ItemsBack(vs[1..], ind, rest);
      var tail := ListTail(vs[1..], ind, rest);
      var more := [COMMA] + ([LF] + tail);
      CommaBack(tail);
      ValueBack(vs[0], inner, more);
      ListLines(vs, ind, rest);
      BlankBefore(inner, Print(vs[0], inner) + more);
      var r := ReadToken(Print(vs[0], inner) + more);
      MoreItems(r.value, r.rest, Returned(vs[0]), [LF] + tail, AllReturned(vs[1..]), ReadToken(rest).value, ReadToken(rest).rest);
    }
  }

  /** The lines of a map, up to and with its closing brace. */
  ghost function MapTail(ms: seq<Member<Value>>, ind: Text, rest: Text): Text
    requires ms != []
  {
    PrintMembers(ms, ind + [TAB]) + [LF] + ind + [CLOSE_MAP] + rest
  }

  lemma MapLines(ms: seq<Member<Value>>, ind: Text, rest: Text)
    requires ms != []
    ensures var inner := ind + [TAB];
            MapTail(ms, ind, rest) == inner + Quoted(ms[0].key) + [COLON, 0x20] + (Print(ms[0].value, inner)
              + (if |ms| == 1 then [LF] + ind + [CLOSE_MAP] + rest else [COMMA] + ([LF] + MapTail(ms[1..], ind, rest))))
  {
    hide Print, Quoted;
  }

  /** The key, the colon and the value of a member. */
  ghost predicate MemberRead(t: Token, r: Text, key: Text, t2: Token, r2: Text) {
    && t == Token(QUOTE, Str(key))
    && ReadToken(r).Got? && ReadToken(r).value.kind == COLON
    && ReadToken(ReadToken(r).rest) == Got(t2, r2)
  }

  lemma LastMember(t: Token, r: Text, key: Text, t2: Token, r2: Text, v: Value, r3: Text, ms: seq<Member<Value>>)
    requires MemberRead(t, r, key, t2, r2) && ParseValue(t2, r2) == Done(v, Token(CLOSE_MAP, Null), r3)
    ensures ParseMembers(t, r, ms) == Finish(PutMember(ms, key, v), ReadToken(r3))
  {
    hide ReadToken, ParseValue, PutMember;
  }

  lemma MoreMembers(t: Token, r: Text, key: Text, t2: Token, r2: Text, v: Value, r3: Text, ms: seq<Member<Value>>)
    requires MemberRead(t, r, key, t2, r2) && ParseValue(t2, r2) == Done(v, Token(COMMA, Null), r3) && ReadToken(r3).Got?
    ensures ParseMembers(t, r, ms) == ParseMembers(ReadToken(r3).value, ReadToken(r3).rest, PutMember(ms, key, v))
  {
    hide ReadToken, ParseValue, PutMember;
  }

  /** A key, its colon and a value at the start of a line. */
  lemma MemberBack(key: Text, ind: Text, text: Text)
    requires NoNul(key) && Blank(ind) && ReadToken(text).Got?
    ensures var r := ReadToken(ind + Quoted(key) + [COLON, 0x20] + text);
            r.Got? && MemberRead(r.value, r.rest, Stripped(key), ReadToken(text).value, ReadToken(text).rest)
  {
    hide ReadToken, Quoted, IsMark;
    var after := [COLON] + ([0x20] + text);
    assert ind + Quoted(key) + [COLON, 0x20] + text == ind + (Quoted(key) + after);
    BlankBefore(ind, Quoted(key) + after);
    TokenOfString(key, after);
    ColonBack(text);
  }

  lemma ColonBack(text: Text)
    ensures ReadToken([COLON] + ([0x20] + text)) == Got(Token(COLON, Null), [0x20] + text)
    ensures ReadToken([0x20] + text) == ReadToken(text)
  {
    hide ReadToken;
    TokenOfMark(COLON, [0x20] + text);
    BlankBefore([0x20], text);
  }

  lemma FirstMember(ms: seq<Member<Value>>, done: seq<Member<Value>>)
    requires ms != [] && AllPrintableMembers(ms)
    ensures NoNul(ms[0].key) && Printable(ms[0].value) && AllPrintableMembers(ms[1..])
    ensures var more := PutMember(done, Stripped(ms[0].key), Returned(ms[0].value));
            && Merged(done, AllReturnedMembers(ms)) == Merged(more, AllReturnedMembers(ms[1..]))
            && (|ms| == 1 ==> Merged(done, AllReturnedMembers(ms)) == more)
  {
    hide PutMember, Stripped, Returned, Printable;
    var m := Member(Stripped(ms[0].key), Returned(ms[0].value));
    assert AllReturnedMembers(ms)[0] == m && AllReturnedMembers(ms)[1..] == AllReturnedMembers(ms[1..]);
  }

  lemma {:induction false} MembersBack(ms: seq<Member<Value>>, done: seq<Member<Value>>, ind: Text, rest: Text)
    requires ms != [] && AllPrintableMembers(ms) && Blank(ind) && ReadToken(rest).Got?
    ensures var r, next := ReadToken(MapTail(ms, ind, rest)), ReadToken(rest);
            r.Got? && ParseMembers(r.value, r.rest, done) == Done(Merged(done, AllReturnedMembers(ms)), next.value, next.rest)
    decreases ms, 0
  {
    hide ReadToken, Print, Returned, ParseMembers, ParseValue, IsMark, Printable, Quoted, PutMember, NoNul, MapTail, MemberRead;
    hide AllReturnedMembers, AllPrintableMembers, Merged, Stripped;
    FirstMember(ms, done);
    var inner, key, v := ind + [TAB], Stripped(ms[0].key), Returned(ms[0].value);
    if |ms| == 1 {
      var close := [LF] + ind + [CLOSE_MAP] + rest;
      CloseBack(CLOSE_MAP, ind, rest);
      ValueBack(ms[0].value, inner, close);
      var text := Print(ms[0].value, inner) + close;
      MapLines(ms, ind, rest);
      MemberBack(ms[0].key, inner, text);
      var r := ReadToken(MapTail(ms, ind, rest));
      LastMember(r.value, r.rest, key, ReadToken(text).value, ReadToken(text).rest, v, rest, done);
    } else {
      MembersBack(ms[1..], PutMember(done, key, v), ind, rest);
      var tail := MapTail(ms[1..], ind, rest);
      var more := [COMMA] + ([LF] + tail);
      CommaBack(tail);
      ValueBack(ms[0].value, inner, more);
      var text := Print(ms[0].value, inner) + more;
      MapLines(ms, ind, rest);
      MemberBack(ms[0].key, inner, text);
      var r := ReadToken(MapTail(ms, ind, rest));
      MoreMembers(r.value, r.rest, key, ReadToken(text).value, ReadToken(text).rest, v, [LF] + tail, done);
    }
  }

  lemma ListBack(v: Value, vs: seq<Value>, ind: Text, rest: Text)
    requires (v == List(vs) || v == Array(vs)) && AllPrintable(vs) && Blank(ind) && ReadToken(rest).Got?
    requires vs != [] ==>
               var r, next := ReadToken(ListTail(vs, ind, rest)), ReadToken(rest);
               r.Got? && ParseItems(r.value, r.rest) == Done(AllReturned(vs), next.value, next.rest)
    ensures Back(v, ind, rest)
  {
    hide ReadToken, PrintItems, ParseItems, IsMark;
    var next := ReadToken(rest);
    if vs == [] {
      assert Print(v, ind) + rest == [OPEN_LIST] + ([CLOSE_LIST] + rest);
      MarkToken(OPEN_LIST, [CLOSE_LIST] + rest);
      MarkToken(CLOSE_LIST, rest);
      NoItems(Token(CLOSE_LIST, Null), rest);
    } else {
      var tail := ListTail(vs, ind, rest);
      assert Print(v, ind) + rest == [OPEN_LIST] + ([LF] + tail);
      MarkToken(OPEN_LIST, [LF] + tail);
      BlankBefore([LF], tail);
    }
  }

  lemma MarkToken(c: Byte, rest: Text)
    requires c == OPEN_LIST || c == CLOSE_LIST || c == OPEN_MAP || c == CLOSE_MAP
    ensures ReadToken([c] + rest) == Got(Token(c, Null), rest)
  {
    TokenOfMark(c, rest);
  }

  lemma NoItems(t: Token, rest: Text)
    requires t.kind == CLOSE_LIST && ReadToken(rest).Got?
    ensures ParseItems(t, rest) == Done([], ReadToken(rest).value, ReadToken(rest).rest)
  {
    hide ReadToken;
  }

  lemma MapBack(ms: seq<Member<Value>>, ind: Text, rest: Text)
    requires Printable(Map(ms)) && Blank(ind) && ReadToken(rest).Got?
    requires ms != [] ==>
               var r, next := ReadToken(MapTail(ms, ind, rest)), ReadToken(rest);
               r.Got? && ParseMembers(r.value, r.rest, []) == Done(Merged([], AllReturnedMembers(ms)), next.value, next.rest)
    ensures Back(Map(ms), ind, rest)
  {
    hide ReadToken, PrintMembers, ParseMembers, IsMark, AllPrintableMembers, DistinctKeys;
    var next := ReadToken(rest);
    if ms == [] {
      assert Print(Map(ms), ind) + rest == [OPEN_MAP] + ([CLOSE_MAP] + rest);
      MarkToken(OPEN_MAP, [CLOSE_MAP] + rest);
      MarkToken(CLOSE_MAP, rest);
      NoMembers(Token(CLOSE_MAP, Null), rest);
    } else {
      var tail := MapTail(ms, ind, rest);
      assert Print(Map(ms), ind) + rest == [OPEN_MAP] + ([LF] + tail);
      MarkToken(OPEN_MAP, [LF] + tail);
      BlankBefore([LF], tail);
    }
  }

  lemma NoMembers(t: Token, rest: Text)
    requires t.kind == CLOSE_MAP && ReadToken(rest).Got?
    ensures ParseMembers(t, rest, []) == Done([], ReadToken(rest).value, ReadToken(rest).rest)
  {
    hide ReadToken;
  }

  /** A printed value, at any indentation and before any text that starts with a token, parses back. */
  lemma {:induction false} ValueBack(v: Value, ind: Text, rest: Text)
    requires Printable(v) && Blank(ind) && Ends(rest) && ReadToken(rest).Got?
    ensures Back(v, ind, rest)
    decreases v, 1
  {
    hide ReadToken, Back, Print, PrintItems, PrintMembers, ParseItems, ParseMembers, AllReturned, AllReturnedMembers, Merged;
    match v
    case List(vs) =>
      if vs != [] { ItemsBack(vs, ind, rest); }
      ListBack(v, vs, ind, rest);
    case Array(vs) =>
      if vs != [] { ItemsBack(vs, ind, rest); }
      ListBack(v, vs, ind, rest);
    case Map(ms) =>
      if ms != [] {
        MembersBack(ms, [], ind, rest);
      }
      MapBack(ms, ind, rest);
    case _ =>
      SimpleBack(v, ind, rest);
  }

  /**
   Parsing what `toString` prints gives the value back, arrays as lists and strings without line
   breaks; so it gives the value itself, arrays as lists, if and only if no string has a line break.
   */
  lemma RoundTrip(v: Value)
    requires Printable(v)
    ensures var p := Parse(Print(v, []) + [LF]);
            p.Done? && p.value == Returned(v) && (p.value == AsLists(v) <==> Tidy(v))
  {
    BlankBefore([LF], []);
    assert [LF] + [] == [LF];
    ValueBack(v, [], [LF]);
    ReturnedUnchanged(v);
  }

  // ---- escapes with numbers ----

  function HexDigit(v: nat): Byte
    requires v < 16
  {
    if v < 10 then 0x30 + v else 0x37 + v
  }

  lemma HexDigitBack(v: nat)
    requires v < 16
    ensures IsHexDigit(HexDigit(v)) && HexValue(HexDigit(v)) == v
  {
  }

  lemma HexNumber(w: nat)
    requires w < 0x10000
    ensures w / 0x1000 < 16 && ((w / 0x1000 * 16 + w / 0x100 % 16) * 16 + w / 0x10 % 16) * 16 + w % 16 == w
  {
    assert w / 0x10 == w / 0x100 * 16 + w / 0x10 % 16;
    assert w / 0x100 == w / 0x1000 * 16 + w / 0x100 % 16;
  }

  /** The four digits of a number. */
  function FourDigits(w: nat): (d: Text)
    requires w < 0x10000
    ensures |d| == 4
  {
    [HexDigit(w / 0x1000), HexDigit(w / 0x100 % 16), HexDigit(w / 0x10 % 16), HexDigit(w % 16)]
  }

  /** A backslash, a `u` and the four digits. */
  function UnicodeEscape(w: nat): Text
    requires w < 0x10000
  {
    [BACKSLASH, 0x75] + FourDigits(w)
  }

  lemma HexBack(w: nat, rest: Text)
    requires w < 0x10000
    ensures var s := FourDigits(w) + rest; HexAhead(s) && Hex4(s) == w && s[4..] == rest
  {
    hide HexDigit, HexValue, IsHexDigit;
    HexDigitBack(w / 0x1000);
    HexDigitBack(w / 0x100 % 16);
    HexDigitBack(w / 0x10 % 16);
    HexDigitBack(w % 16);
    HexNumber(w);
    var s := FourDigits(w) + rest;
    assert s[0] == HexDigit(w / 0x1000) && s[1] == HexDigit(w / 0x100 % 16) && s[2] == HexDigit(w / 0x10 % 16) && s[3] == HexDigit(w % 16);
  }

  lemma EscapeParts(w: nat, rest: Text)
    requires w < 0x10000
    ensures var s := UnicodeEscape(w) + rest; |s| >= 2 && s[0] == BACKSLASH && s[1] == 0x75 && s[2..] == FourDigits(w) + rest && s[6..] == rest
  {
    hide FourDigits;
  }

  /** The escape of a number that is no high surrogate reads as the number's encoding. */
  lemma EscapeBack(w: nat, rest: Text)
    requires w < 0x10000 && !HighSurrogate(w)
    ensures ReadString(UnicodeEscape(w) + rest) == Prepend(Utf8(w), ReadString(rest))
  {
    hide HexAhead, Hex4, Utf8, FourDigits, UnicodeEscape;
    HexBack(w, rest);
    EscapeParts(w, rest);
  }

  /** Two escapes in a row, the first of them a high surrogate. */
  lemma PairRead(w1: nat, w2: nat, rest: Text)
    requires HighSurrogate(w1) && w2 < 0x10000
    ensures ReadUnicode(FourDigits(w1) + (UnicodeEscape(w2) + rest))
            == if LowSurrogate(w2) then Got(Utf8(Paired(w1, w2)), rest) else Bad
  {
    hide HexAhead, Hex4, Utf8, FourDigits, UnicodeEscape, Paired;
    HexBack(w1, UnicodeEscape(w2) + rest);
    EscapeParts(w2, rest);
    HexBack(w2, rest);
  }

  lemma TwoEscapes(w1: nat, w2: nat, rest: Text)
    requires HighSurrogate(w1) && w2 < 0x10000
    ensures ReadString(UnicodeEscape(w1) + UnicodeEscape(w2) + rest)
            == if LowSurrogate(w2) then Prepend(Utf8(Paired(w1, w2)), ReadString(rest)) else Bad
  {
    hide ReadUnicode, Utf8, FourDigits, UnicodeEscape, Paired;
    var tail := UnicodeEscape(w2) + rest;
    EscapeParts(w1, tail);
    PairRead(w1, w2, rest);
    assert UnicodeEscape(w1) + UnicodeEscape(w2) + rest == UnicodeEscape(w1) + tail;
  }

  /**
   Section 7 of RFC 8259: a code point outside the basic plane, escaped as a surrogate pair, reads
   as the encoding of that code point; a high surrogate before anything else is an error.
   */
  lemma PairBack(ch: nat, rest: Text)
    requires 0x10000 <= ch < 0x110000
    ensures var w1, w2 := 0xD800 + (ch - 0x10000) / 0x400, 0xDC00 + ch % 0x400;
            && ReadString(UnicodeEscape(w1) + UnicodeEscape(w2) + rest) == Prepend(Utf8(ch), ReadString(rest))
            && forall w: nat :: w < 0x10000 && !LowSurrogate(w) ==> ReadString(UnicodeEscape(w1) + UnicodeEscape(w) + rest) == Bad
  {
    hide ReadString, Utf8, UnicodeEscape;
    var w1, w2 := 0xD800 + (ch - 0x10000) / 0x400, 0xDC00 + ch % 0x400;
    SurrogatesOf(ch);
    TwoEscapes(w1, w2, rest);
    forall w: nat | w < 0x10000 && !LowSurrogate(w)
      ensures ReadString(UnicodeEscape(w1) + UnicodeEscape(w) + rest) == Bad {
      TwoEscapes(w1, w, rest);
    }
  }

  lemma SurrogatesOf(ch: nat)
    requires 0x10000 <= ch < 0x110000
    ensures var w1, w2 := 0xD800 + (ch - 0x10000) / 0x400, 0xDC00 + ch % 0x400;
            HighSurrogate(w1) && LowSurrogate(w2) && Paired(w1, w2) == ch
  {
    var h := (ch - 0x10000) / 0x400;
    assert ch - 0x10000 == h * 0x400 + (ch - 0x10000) % 0x400;
    assert 0xD800 + h == 54 * 0x400 + h && (0xD800 + h) % 0x400 == h;
    assert (0xDC00 + ch % 0x400) % 0x400 == ch % 0x400 == (ch - 0x10000) % 0x400;
  }

  // ---- what is printed is text ----

  lemma {:induction false} EscapedIsText(s: Text)
    requires NoNul(s)
    ensures NoNul(Escape(s))
  {
    if s != [] { EscapedIsText(s[1..]); }
  }

  lemma {:induction false} ValueIsText(v: Value, ind: Text)
    requires Printable(v) && NoNul(ind)
    ensures NoNul(Print(v, ind))
    decreases v, 1
  {
    hide Escape, Digits, PrintItems, PrintMembers;
    match v
    case Int(i) => DigitsAre(if i < 0 then -i else i);
    case Str(s) => EscapedIsText(s);
    case List(vs) => if vs != [] { ItemsAreText(vs, ind + [TAB]); }
    case Array(vs) => if vs != [] { ItemsAreText(vs, ind + [TAB]); }
    case Map(ms) => if ms != [] { MembersAreText(ms, ind + [TAB]); }
    case _ =>
  }

  lemma {:induction false} ItemsAreText(vs: seq<Value>, ind: Text)
    requires vs != [] && AllPrintable(vs) && NoNul(ind)
    ensures NoNul(PrintItems(vs, ind))
    decreases vs, 0
  {
    hide Print, Printable;
    ValueIsText(vs[0], ind);
    if |vs| > 1 { ItemsAreText(vs[1..], ind); }
  }

  lemma {:induction false} MembersAreText(ms: seq<Member<Value>>, ind: Text)
    requires ms != [] && AllPrintableMembers(ms) && NoNul(ind)
    ensures NoNul(PrintMembers(ms, ind))
    decreases ms, 0
  {
    hide Print, Printable, Escape;
    EscapedIsText(ms[0].key);
    ValueIsText(ms[0].value, ind);
    if |ms| > 1 { MembersAreText(ms[1..], ind); }
  }

  // ---- reading past the end ----

  ghost predicate OpenEnd(s: Text) {
    s != [] && s[|s| - 1] == BACKSLASH
  }

  lemma OpenSuffix(r: Text, s: Text)
    requires Suffix(r, s) && OpenEnd(r)
    ensures OpenEnd(s)
  {
  }

  lemma UnicodeSuffix(s: Text)
    ensures ReadUnicode(s).Got? ==> Suffix(ReadUnicode(s).rest, s)
    ensures !ReadUnicode(s).Wild?
  {
    hide Hex4, Utf8;
  }

  lemma PrependedRest(x: Text, r: Read<Text>)
    ensures Prepend(x, r).Got? <==> r.Got?
    ensures Prepend(x, r).Wild? <==> r.Wild?
    ensures r.Got? ==> Prepend(x, r).rest == r.rest
  {
  }

  /** Only a backslash at the end leads past the end; otherwise what is left is the end of the text. */
  ghost predicate StaysInside<T>(r: Read<T>, s: Text) {
    (r.Got? ==> Suffix(r.rest, s)) && (r.Wild? ==> OpenEnd(s))
  }

  lemma InsideLater<T>(r: Read<T>, t: Text, s: Text)
    requires StaysInside(r, t) && Suffix(t, s)
    ensures StaysInside(r, s)
  {
    if r.Got? { SuffixOf(r.rest, t, s); }
    if r.Wild? { OpenSuffix(t, s); }
  }

  lemma PrependInside(x: Text, r: Read<Text>, s: Text)
    requires StaysInside(r, s)
    ensures StaysInside(Prepend(x, r), s)
  {
    PrependedRest(x, r);
  }

  lemma {:induction false} StringInside(s: Text)
    ensures StaysInside(ReadString(s), s)
    decreases |s|
  {
    hide ReadUnicode, Escaped, Prepend, StaysInside;
    StringStep(s);
    if s == [] || s[0] == QUOTE {
      StringDone(s);
    } else if s[0] == BACKSLASH && |s| > 1 && s[1] == 0x75 {
      UnicodeSuffix(s[2..]);
      var u := ReadUnicode(s[2..]);
      if u.Got? {
        StringInside(u.rest);
        SuffixOf(u.rest, s[2..], s);
        InsideLater(ReadString(u.rest), u.rest, s);
        PrependInside(u.value, ReadString(u.rest), s);
      } else {
        BadInside<Text>(s);
      }
    } else if s[0] == BACKSLASH && |s| > 1 {
      StringInside(s[2..]);
      InsideLater(ReadString(s[2..]), s[2..], s);
      PrependInside(Escaped(s[1]), ReadString(s[2..]), s);
    } else if s[0] == BACKSLASH {
      WildInside<Text>(s);
    } else {
      var t := if s[0] == CR && |s| > 1 && s[1] == LF then s[2..] else s[1..];
      StringInside(t);
      InsideLater(ReadString(t), t, s);
      PrependInside([s[0]], ReadString(t), s);
    }
  }

  /** The reading of a string, case by case. */
  lemma StringStep(s: Text)
    ensures s == [] ==> ReadString(s) == Bad
    ensures s != [] && s[0] == QUOTE ==> ReadString(s) == Got([], s[1..])
    ensures s != [] && s[0] == CR ==> ReadString(s) == ReadString(if |s| > 1 && s[1] == LF then s[2..] else s[1..])
    ensures s != [] && s[0] == LF ==> ReadString(s) == ReadString(s[1..])
    ensures s == [BACKSLASH] ==> ReadString(s) == Wild
    ensures |s| > 1 && s[0] == BACKSLASH && s[1] != 0x75 ==> ReadString(s) == Prepend(Escaped(s[1]), ReadString(s[2..]))
    ensures |s| > 1 && s[0] == BACKSLASH && s[1] == 0x75 ==>
              var u := ReadUnicode(s[2..]); ReadString(s) == if u.Got? then Prepend(u.value, ReadString(u.rest)) else u
    ensures s != [] && s[0] !in {QUOTE, CR, LF, BACKSLASH} ==> ReadString(s) == Prepend([s[0]], ReadString(s[1..]))
  {
    hide ReadUnicode, Escaped, Prepend;
  }

  lemma StringDone(s: Text)
    requires s == [] || s[0] == QUOTE
    ensures StaysInside(ReadString(s), s)
  {
  }

  lemma BadInside<T>(s: Text)
    ensures StaysInside(Read<T>.Bad, s)
  {
  }

  lemma WildInside<T>(s: Text)
    requires OpenEnd(s)
    ensures StaysInside(Read<T>.Wild, s)
  {
  }

  lemma {:induction false} TrimSuffix(s: Text)
    ensures Suffix(TrimStart(s), s)
  {
    if s != [] && IsSpace(s[0]) {
      TrimSuffix(s[1..]);
      SuffixOf(TrimStart(s), s[1..], s);
    }
  }

  lemma TokenInside(s: Text)
    ensures StaysInside(ReadToken(s), s)
  {
    hide ReadAt, StaysInside;
    TrimSuffix(s);
    AtInside(TrimStart(s));
    InsideLater(ReadToken(s), TrimStart(s), s);
  }

  lemma AtInside(s: Text)
    ensures StaysInside(ReadAt(s), s)
  {
    hide ReadString, NumberLength, NumberValue;
    if s != [] && s[0] == QUOTE {
      StringInside(s[1..]);
      InsideLater(ReadString(s[1..]), s[1..], s);
    }
  }

  ghost predicate ParsesInside<T>(p: Parsed<T>, s: Text) {
    (p.Done? ==> Suffix(p.rest, s)) && (p.Strayed? ==> OpenEnd(s))
  }

  lemma ParsedLater<T>(p: Parsed<T>, t: Text, s: Text)
    requires ParsesInside(p, t) && Suffix(t, s)
    ensures ParsesInside(p, s)
  {
    if p.Done? { SuffixOf(p.rest, t, s); }
    if p.Strayed? { OpenSuffix(t, s); }
  }

  lemma FinishInside<T>(value: T, t: Text, s: Text)
    requires Suffix(t, s)
    ensures ParsesInside(Finish(value, ReadToken(t)), s)
  {
    hide ReadToken;
    TokenInside(t);
    InsideLater(ReadToken(t), t, s);
  }

  lemma {:induction false} ValueInside(t: Token, rest: Text)
    ensures ParsesInside(ParseValue(t, rest), rest)
    decreases Weight(t, rest), 0
  {
    hide ReadToken, ParseItems, ParseMembers, ParsesInside, Finish;
    ValueStep(t, rest);
    TokenInside(rest);
    NotInside<Value>(rest);
    if HoldsValue(t.kind) {
      SuffixSelf(rest);
      FinishInside(t.value, rest, rest);
    } else if (t.kind == OPEN_LIST || t.kind == OPEN_MAP) && ReadToken(rest).Got? {
      var t1, r1 := ReadToken(rest).value, ReadToken(rest).rest;
      if t.kind == OPEN_LIST {
        ItemsInside(t1, r1);
        ParsedLater(ParseItems(t1, r1), r1, rest);
        SameInside(ParseItems(t1, r1), ParseValue(t, rest), rest);
      } else {
        MembersInside(t1, r1, []);
        ParsedLater(ParseMembers(t1, r1, []), r1, rest);
        SameInside(ParseMembers(t1, r1, []), ParseValue(t, rest), rest);
      }
    } else if t.kind == OPEN_LIST || t.kind == OPEN_MAP {
      ReadInside(ReadToken(rest), ParseValue(t, rest), rest);
    }
  }

  lemma SuffixSelf(s: Text)
    ensures Suffix(s, s)
  {
  }

  lemma NotInside<T>(s: Text)
    ensures ParsesInside(Parsed<T>.Failed, s)
  {
  }

  lemma SameInside<S, T>(p: Parsed<S>, q: Parsed<T>, s: Text)
    requires ParsesInside(p, s) && SameEnd(p, q)
    ensures ParsesInside(q, s)
  {
  }

  lemma ReadInside<S, T>(r: Read<S>, q: Parsed<T>, s: Text)
    requires StaysInside(r, s) && !q.Done? && (q.Strayed? ==> r.Wild?)
    ensures ParsesInside(q, s)
  {
  }

  lemma ValueStep(t: Token, rest: Text)
    ensures HoldsValue(t.kind) ==> ParseValue(t, rest) == Finish(t.value, ReadToken(rest))
    ensures !HoldsValue(t.kind) && t.kind != OPEN_LIST && t.kind != OPEN_MAP ==> ParseValue(t, rest) == Failed
    ensures t.kind == OPEN_LIST || t.kind == OPEN_MAP ==>
              match ReadToken(rest)
              case Bad => ParseValue(t, rest) == Failed
              case Wild => ParseValue(t, rest) == Strayed
              case Got(t1, r1) =>
                if t.kind == OPEN_LIST then SameEnd(ParseItems(t1, r1), ParseValue(t, rest))
                else SameEnd(ParseMembers(t1, r1, []), ParseValue(t, rest))
  {
    hide ReadToken, Finish;
  }

  ghost predicate SameEnd<S, T>(p: Parsed<S>, q: Parsed<T>) {
    (p.Done? <==> q.Done?) && (p.Strayed? <==> q.Strayed?) && (p.Done? ==> p.rest == q.rest)
  }

  lemma {:induction false} ItemsInside(t: Token, rest: Text)
    ensures ParsesInside(ParseItems(t, rest), rest)
    decreases Weight(t, rest), 1
  {
    hide ReadToken, ParseValue, ParsesInside, Finish;
    SuffixSelf(rest);
    if t.kind == CLOSE_LIST {
      FinishInside<seq<Value>>([], rest, rest);
    } else {
      ValueInside(t, rest);
      var p := ParseValue(t, rest);
      if !p.Done? {
        SameInside(p, ParseItems(t, rest), rest);
      } else {
        DoneInside(p, rest);
        TokenInside(p.rest);
        InsideLater(ReadToken(p.rest), p.rest, rest);
        if p.token.kind == CLOSE_LIST {
          FinishInside([p.value], p.rest, rest);
        } else if p.token.kind != COMMA {
          NotInside<seq<Value>>(rest);
        } else if ReadToken(p.rest).Got? {
          var t2, r2 := ReadToken(p.rest).value, ReadToken(p.rest).rest;
          ItemsInside(t2, r2);
          ParsedLater(ParseItems(t2, r2), r2, rest);
          SameInside(ParseItems(t2, r2), ParseItems(t, rest), rest);
        } else {
          ReadInside(ReadToken(p.rest), ParseItems(t, rest), rest);
        }
      }
    }
  }

  lemma DoneInside<T>(p: Parsed<T>, s: Text)
    requires ParsesInside(p, s) && p.Done?
    ensures Suffix(p.rest, s)
  {
  }

  lemma {:induction false} MembersInside(t: Token, rest: Text, ms: seq<Member<Value>>)
    ensures ParsesInside(ParseMembers(t, rest, ms), rest)
    decreases Weight(t, rest), 1
  {
    hide ReadToken, ParseValue, ParsesInside, Finish, PutMember;
    SuffixSelf(rest);
    TokenInside(rest);
    NotInside<seq<Member<Value>>>(rest);
    if t.kind == CLOSE_MAP {
      FinishInside(ms, rest, rest);
    } else if t.kind == QUOTE && t.value.Str? {
      var all := ParseMembers(t, rest, ms);
      if !ReadToken(rest).Got? {
        ReadInside(ReadToken(rest), all, rest);
      } else if ReadToken(rest).value.kind == COLON {
        var r1 := ReadToken(rest).rest;
        TokenInside(r1);
        InsideLater(ReadToken(r1), r1, rest);
        if !ReadToken(r1).Got? {
          ReadInside(ReadToken(r1), all, rest);
        } else {
          var t2, r2 := ReadToken(r1).value, ReadToken(r1).rest;
          ValueInside(t2, r2);
          ParsedLater(ParseValue(t2, r2), r2, rest);
          MemberInside(t, rest, ms, t2, r2);
        }
      }
    }
  }

  /** The end of a member, whose value is inside. */
  lemma {:induction false} MemberInside(t: Token, rest: Text, ms: seq<Member<Value>>, t2: Token, r2: Text)
    requires t.kind == QUOTE && t.value.Str? && ReadToken(rest).Got? && ReadToken(rest).value.kind == COLON
    requires ReadToken(ReadToken(rest).rest) == Got(t2, r2) && ParsesInside(ParseValue(t2, r2), rest)
    ensures ParsesInside(ParseMembers(t, rest, ms), rest)
    decreases Weight(t, rest), 0
  {
    hide ReadToken, ParseValue, ParsesInside, Finish, PutMember;
    var p, all := ParseValue(t2, r2), ParseMembers(t, rest, ms);
    NotInside<seq<Member<Value>>>(rest);
    if !p.Done? {
      SameInside(p, all, rest);
    } else {
      DoneInside(p, rest);
      TokenInside(p.rest);
      InsideLater(ReadToken(p.rest), p.rest, rest);
      var ms' := PutMember(ms, t.value.s, p.value);
      if p.token.kind == CLOSE_MAP {
        FinishInside(ms', p.rest, rest);
      } else if p.token.kind == COMMA {
        if ReadToken(p.rest).Got? {
          var t3, r3 := ReadToken(p.rest).value, ReadToken(p.rest).rest;
          MembersInside(t3, r3, ms');
          ParsedLater(ParseMembers(t3, r3, ms'), r3, rest);
        } else {
          ReadInside(ReadToken(p.rest), all, rest);
        }
      }
    }
  }

  /** The parser reads past the end only of a text whose last character is a backslash. */
  lemma ParseInside(s: Text)
    ensures Parse(s) == Strayed ==> OpenEnd(s)
  {
    hide ReadToken, ParseValue;
    TokenInside(s);
    if ReadToken(s).Got? {
      ValueInside(ReadToken(s).value, ReadToken(s).rest);
      ParsedLater(ParseValue(ReadToken(s).value, ReadToken(s).rest), ReadToken(s).rest, s);
    }
  }

  /** A string that ends so strays exactly when a quote in the place of the backslash would have closed it. */
  lemma {:induction false} StrayExactly(y: Text)
    ensures ReadString(y + [BACKSLASH]) == Wild <==> ReadString(y + [QUOTE]).Got? && ReadString(y + [QUOTE]).rest == []
    decreases |y|
  {
    hide ReadUnicode, Escaped, Prepend, ReadString;
    var a, b := y + [BACKSLASH], y + [QUOTE];
    StringStep(a);
    StringStep(b);
    if y == [] {
      assert a == [BACKSLASH] && b == [QUOTE];
    } else if y[0] == BACKSLASH {
      if |y| == 1 {
        EscapedEnd(a, b);
      } else if y[1] != 0x75 {
        assert a[2..] == y[2..] + [BACKSLASH] && b[2..] == y[2..] + [QUOTE];
        StrayExactly(y[2..]);
        PrependedRest(Escaped(y[1]), ReadString(a[2..]));
        PrependedRest(Escaped(y[1]), ReadString(b[2..]));
      } else {
        assert a[2..] == y[2..] + [BACKSLASH] && b[2..] == y[2..] + [QUOTE];
        UnicodeOpen(y[2..], BACKSLASH);
        UnicodeOpen(y[2..], QUOTE);
        var u := ReadUnicode(y[2..]);
        if u.Got? {
          StrayExactly(u.rest);
          PrependedRest(u.value, ReadString(u.rest + [BACKSLASH]));
          PrependedRest(u.value, ReadString(u.rest + [QUOTE]));
        }
      }
    } else if y[0] != QUOTE {
      var t := if y[0] == CR && |y| > 1 && y[1] == LF then y[2..] else y[1..];
      assert a[1..] == y[1..] + [BACKSLASH] && b[1..] == y[1..] + [QUOTE];
      assert |y| > 1 ==> a[2..] == y[2..] + [BACKSLASH] && b[2..] == y[2..] + [QUOTE];
      StrayExactly(t);
      PrependedRest([y[0]], ReadString(y[1..] + [BACKSLASH]));
      PrependedRest([y[0]], ReadString(y[1..] + [QUOTE]));
    } else {
      assert b[1..] == y[1..] + [QUOTE];
    }
  }

  /** Behind a backslash both a backslash and a quote are characters of the string, which does not end. */
  lemma EscapedEnd(a: Text, b: Text)
    requires a == [BACKSLASH, BACKSLASH] && b == [BACKSLASH, QUOTE]
    ensures ReadString(a) == Bad && ReadString(b) == Bad
  {
    assert a[2..] == [] && b[2..] == [];
  }

  /** A quote or a backslash behind a text neither completes nor spoils an escape with numbers. */
  lemma UnicodeOpen(z: Text, c: Byte)
    requires c == QUOTE || c == BACKSLASH
    ensures var r := ReadUnicode(z);
            ReadUnicode(z + [c]) == if r.Got? then Got(r.value, r.rest + [c]) else Bad
  {
    hide Hex4, Utf8, HexAhead;
    HexOpen(z, c);
    if HexAhead(z) {
      var t := z[4..];
      assert (z + [c])[4..] == t + [c];
      if |t| >= 2 {
        HexOpen(t[2..], c);
        assert (t + [c])[2..] == t[2..] + [c];
        assert HexAhead(t[2..]) ==> |t| >= 6 && (t + [c])[6..] == t[6..] + [c];
      } else {
        assert |t| == 1 ==> (t + [c])[1] == c;
      }
    }
  }

  lemma HexOpen(z: Text, c: Byte)
    requires c == QUOTE || c == BACKSLASH
    ensures HexAhead(z + [c]) <==> HexAhead(z)
    ensures HexAhead(z) ==> |z| >= 4 && Hex4(z + [c]) == Hex4(z)
  {
    hide HexValue;
    assert |z| == 3 ==> (z + [c])[3] == c;
  }

  /** So a whole family of texts makes the parser read past the end: a backslash behind any escaped string. */
  lemma ParseStrays(s: Text)
    requires NoNul(s)
    ensures ReadString(Escape(s) + [BACKSLASH]) == Wild && Parse([QUOTE] + (Escape(s) + [BACKSLASH])) == Strayed
  {
    hide ReadString, Escape;
    StringBack(s, []);
    assert Escape(s) + [QUOTE] + [] == Escape(s) + [QUOTE];
    StrayExactly(Escape(s));
    var t := [QUOTE] + (Escape(s) + [BACKSLASH]);
    assert t[1..] == Escape(s) + [BACKSLASH] && TrimStart(t) == t;
  }
}
