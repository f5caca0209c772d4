/**
 Which texts the JSON parser accepts, and what they mean: a grammar of spellings and trees, written
 down without the parser, and the proof that the parser accepts exactly its texts. Section numbers
 are those of RFC 8259.
 */
module JsonGrammar {
  import opened Unicode
  import opened Texts
  import opened JsonText

  // ---- strings: section 7 ----

  /** One character of a string token, with the ways to write it. */
  datatype Piece =
    | Itself(c: Byte)
    | Break(c: Byte)                       // a raw line break, which is dropped
    | Short(c: Byte)                       // a backslash and a letter
    | Both(c: Byte)                        // a backslash before any other character: both stay
    | Code(digits: Text, w: nat)           // a backslash, `u` and four digits
    | Pair(high: Text, h: nat, low: Text, l: nat)

  /** The digit is the hexadecimal one of `v`, upper or lower case. */
  ghost predicate HexDigitOf(c: Byte, v: nat) {
    v < 16 && (c == Ascii("0123456789abcdef")[v] || c == Ascii("0123456789ABCDEF")[v])
  }

  ghost predicate HexOf(d: Text, w: nat) {
    |d| == 4 && exists a: nat, b: nat, c: nat, e: nat ::
      HexDigitOf(d[0], a) && HexDigitOf(d[1], b) && HexDigitOf(d[2], c) && HexDigitOf(d[3], e)
      && w == a * 4096 + b * 256 + c * 16 + e
  }

  ghost predicate LegalPiece(p: Piece) {
    match p
    case Itself(c) => c !in Ascii("\"\\\r\n")
    case Break(c) => c in Ascii("\r\n")
    case Short(c) => c in Ascii("\"\\/bfnrt")
    case Both(c) => c !in Ascii("\"\\/bfnrtu")
    case Code(d, w) => HexOf(d, w) && !(0xD800 <= w <= 0xDBFF)
    case Pair(d, h, e, l) => HexOf(d, h) && HexOf(e, l) && 0xD800 <= h <= 0xDBFF && 0xDC00 <= l <= 0xDFFF
  }

  ghost function Spelled(p: Piece): Text {
    match p
    case Itself(c) => [c]
    case Break(c) => [c]
    case Short(c) => Ascii("\\") + [c]
    case Both(c) => Ascii("\\") + [c]
    case Code(d, _) => Ascii("\\u") + d
    case Pair(d, _, e, _) => Ascii("\\u") + d + Ascii("\\u") + e
  }

  ghost function Meant(p: Piece): Text
    requires LegalPiece(p)
  {
    match p
    case Itself(c) => [c]
    case Break(_) => []
    case Short(c) =>
      if c == Ascii("b")[0] then [8] else if c == Ascii("f")[0] then [12] else if c == Ascii("n")[0] then [10]
      else if c == Ascii("r")[0] then [13] else if c == Ascii("t")[0] then [9] else [c]
    case Both(c) => Ascii("\\") + [c]
    case Code(_, w) => CodeBound(p); Utf8(w)
    case Pair(_, h, _, l) => Utf8(0x10000 + (h - 0xD800) * 0x400 + (l - 0xDC00))
  }

  lemma CodeBound(p: Piece)
    requires p.Code? && LegalPiece(p)
    ensures p.w < 0x10000
  {
  }

  ghost predicate LegalPieces(ps: seq<Piece>) {
    forall i :: 0 <= i < |ps| ==> LegalPiece(ps[i])
  }

  ghost function SpelledAll(ps: seq<Piece>): Text {
    if ps == [] then [] else Spelled(ps[0]) + SpelledAll(ps[1..])
  }

  ghost function MeantAll(ps: seq<Piece>): Text
    requires LegalPieces(ps)
  {
    if ps == [] then [] else Meant(ps[0]) + MeantAll(ps[1..])
  }

  // a character token by token

  lemma HexIs(c: Byte, v: nat)
    ensures HexDigitOf(c, v) <==> IsHexDigit(c) && HexValue(c) == v
  {
  }

  lemma HexRead(d: Text, w: nat, t: Text)
    requires HexOf(d, w)
    ensures var s := d + t; HexAhead(s) && Hex4(s) == w && s[4..] == t
  {
    hide HexDigitOf;
    var a: nat, b: nat, c: nat, e: nat :|
      HexDigitOf(d[0], a) && HexDigitOf(d[1], b) && HexDigitOf(d[2], c) && HexDigitOf(d[3], e)
      && w == a * 4096 + b * 256 + c * 16 + e;
    HexIs(d[0], a);
    HexIs(d[1], b);
    HexIs(d[2], c);
    HexIs(d[3], e);
    var s := d + t;
    assert s[0] == d[0] && s[1] == d[1] && s[2] == d[2] && s[3] == d[3];
  }

  lemma HexFound(s: Text)
    requires HexAhead(s)
    ensures HexOf(s[..4], Hex4(s)) && s == s[..4] + s[4..]
  {
    hide HexDigitOf;
    HexIs(s[0], HexValue(s[0]));
    HexIs(s[1], HexValue(s[1]));
    HexIs(s[2], HexValue(s[2]));
    HexIs(s[3], HexValue(s[3]));
  }

  /** What `ReadUnicode` finds behind a backslash and a `u` is one piece. */
  lemma UnicodeRead(p: Piece, t: Text)
    requires LegalPiece(p) && (p.Code? || p.Pair?)
    ensures ReadUnicode((Spelled(p) + t)[2..]) == Got(Meant(p), t)
  {
    hide HexAhead, Hex4, Utf8, HexOf;
    match p
    case Code(d, w) => {
      HexRead(d, w, t);
      assert (Spelled(p) + t)[2..] == d + t;
    }
    case Pair(d, h, e, l) => {
      var u := Ascii("\\u") + (e + t);
      HexRead(d, h, u);
      HexRead(e, l, t);
      assert (Spelled(p) + t)[2..] == d + u;
      assert u[0] == BACKSLASH && u[1] == 0x75 && u[2..] == e + t && u[6..] == t;
      PairedIs(h, l);
    }
  }

  lemma PairedIs(h: nat, l: nat)
    requires 0xD800 <= h <= 0xDBFF && 0xDC00 <= l <= 0xDFFF
    ensures Paired(h, l) == 0x10000 + (h - 0xD800) * 0x400 + (l - 0xDC00)
  {
  }

  lemma Classes(c: Byte)
    ensures c in Ascii("\"\\\r\n") <==> c == QUOTE || c == BACKSLASH || c == CR || c == LF
    ensures c in Ascii("\r\n") <==> c == CR || c == LF
    ensures c in Ascii("\"\\/bfnrtu") <==> c in Ascii("\"\\/bfnrt") || c == 0x75
  {
    assert Ascii("\"\\/bfnrtu") == Ascii("\"\\/bfnrt") + [0x75];
    assert Ascii("\"\\\r\n") == [QUOTE, BACKSLASH, CR, LF];
    assert Ascii("\r\n") == [CR, LF];
  }

  lemma ShortIs(c: Byte)
    requires LegalPiece(Short(c))
    ensures Escaped(c) == Meant(Short(c)) && c != 0x75
  {
  }

  lemma BothIs(c: Byte)
    requires LegalPiece(Both(c))
    ensures Escaped(c) == Meant(Both(c)) && c != 0x75
  {
    assert forall i :: 0 <= i < 9 ==> Ascii("\"\\/bfnrtu")[i] in Ascii("\"\\/bfnrtu");
    assert Ascii("\"\\/bfnrtu") == [QUOTE, BACKSLASH, 0x2F, 0x62, 0x66, 0x6E, 0x72, 0x74, 0x75];
  }

  lemma NothingBefore(r: Read<Text>)
    ensures Prepend([], r) == r
  {
    if r.Got? { assert [] + r.value == r.value; }
  }

  lemma PieceRead(p: Piece, t: Text)
    requires LegalPiece(p)
    ensures ReadString(Spelled(p) + t) == Prepend(Meant(p), ReadString(t))
  {
    hide ReadUnicode, HexOf, Escaped;
    var s := Spelled(p) + t;
    match p
    case Itself(c) => {
      Classes(c);
      assert s[1..] == t;
    }
    case Break(c) => {
      EscapedChar(c, t);
      assert Escape1(c) == [c];
      NothingBefore(ReadString(t));
    }
    case Short(c) => {
      ShortIs(c);
      assert s[0] == BACKSLASH && s[1] == c && s[2..] == t;
    }
    case Both(c) => {
      BothIs(c);
      assert s[0] == BACKSLASH && s[1] == c && s[2..] == t;
    }
    case Code(d, w) => {
      UnicodeRead(p, t);
      assert s[0] == BACKSLASH && s[1] == 0x75;
    }
    case Pair(d, h, e, l) => {
      UnicodeRead(p, t);
      assert s[0] == BACKSLASH && s[1] == 0x75;
    }
  }

  lemma {:induction false} StringRead(ps: seq<Piece>, r: Text)
    requires LegalPieces(ps)
    ensures ReadString(SpelledAll(ps) + Ascii("\"") + r) == Got(MeantAll(ps), r)
  {
    hide ReadString, Spelled, Meant, LegalPiece;
    if ps == [] {
      assert SpelledAll(ps) + Ascii("\"") + r == [QUOTE] + r;
      AtQuote(r);
    } else {
      var t := SpelledAll(ps[1..]) + Ascii("\"") + r;
      StringRead(ps[1..], r);
      PieceRead(ps[0], t);
      assert SpelledAll(ps) + Ascii("\"") + r == Spelled(ps[0]) + t;
    }
  }

  /** The first piece of a string that is read to its quote. */
  lemma PieceFound(s: Text) returns (p: Piece, t: Text)
    requires ReadString(s).Got? && s[0] != QUOTE
    ensures LegalPiece(p) && s == Spelled(p) + t && |t| < |s| && ReadString(t).Got?
    ensures ReadString(s) == Prepend(Meant(p), ReadString(t))
  {
    hide ReadUnicode, HexOf;
    Classes(s[0]);
    if |s| > 1 { Classes(s[1]); }
    if s[0] != BACKSLASH {
      t := s[1..];
      p := if s[0] == CR || s[0] == LF then Break(s[0]) else Itself(s[0]);
    } else if s[1] != 0x75 {
      t := s[2..];
      p := if s[1] in Ascii("\"\\/bfnrt") then Short(s[1]) else Both(s[1]);
    } else {
      p, t := UnicodeFound(s);
    }
    assert s == Spelled(p) + t;
    PieceRead(p, t);
  }

  lemma UnicodeFound(s: Text) returns (p: Piece, t: Text)
    requires |s| > 2 && s[0] == BACKSLASH && s[1] == 0x75 && ReadUnicode(s[2..]).Got?
    ensures LegalPiece(p) && s == Spelled(p) + t && |t| < |s|
  {
    hide HexAhead, Hex4, Utf8, HexOf;
    var u := s[2..];
    HexFound(u);
    if HighSurrogate(Hex4(u)) {
      var v := u[4..];
      HexFound(v[2..]);
      t := v[6..];
      p := Pair(u[..4], Hex4(u), v[2..][..4], Hex4(v[2..]));
      assert s == Ascii("\\u") + u[..4] + Ascii("\\u") + v[2..][..4] + t;
    } else {
      t := u[4..];
      p := Code(u[..4], Hex4(u));
      assert s == Ascii("\\u") + u[..4] + t;
    }
  }

  lemma {:induction false} StringFound(s: Text) returns (ps: seq<Piece>)
    requires ReadString(s).Got?
    ensures LegalPieces(ps) && s == SpelledAll(ps) + Ascii("\"") + ReadString(s).rest && ReadString(s).value == MeantAll(ps)
    decreases |s|
  {
    hide ReadString, Spelled, Meant, LegalPiece;
    AtEnd(s);
    if s[0] == QUOTE {
      ps := [];
      AtQuote(s[1..]);
      assert s == [QUOTE] + s[1..];
      assert SpelledAll([]) + Ascii("\"") + s[1..] == s;
    } else {
      var p, t := PieceFound(s);
      var more := StringFound(t);
      ps := [p] + more;
      assert ps[1..] == more;
      assert s == SpelledAll(ps) + Ascii("\"") + ReadString(s).rest;
    }
  }

  lemma AtEnd(s: Text)
    ensures ReadString(s).Got? ==> s != []
  {
  }

  /** The lexer reads a string token if and only if it is spelled by the rules, and reads what it means. */
  lemma StringExactly(s: Text, v: Text, r: Text)
    ensures ReadString(s) == Got(v, r)
            <==> exists ps :: LegalPieces(ps) && s == SpelledAll(ps) + Ascii("\"") + r && v == MeantAll(ps)
  {
    hide ReadString;
    if ReadString(s) == Got(v, r) {
      var ps := StringFound(s);
    }
    if ps :| LegalPieces(ps) && s == SpelledAll(ps) + Ascii("\"") + r && v == MeantAll(ps) {
      StringRead(ps, r);
    }
  }

  // ---- tokens: sections 2, 3 and 6 ----

  ghost predicate White(b: Text) {
    forall i :: 0 <= i < |b| ==> b[i] in {0x09, 0x0A, 0x0B, 0x0C, 0x0D, 0x20}
  }

  ghost predicate NumberChar(c: Byte) {
    Digit(c) || c in Ascii("+-.eE")
  }

  /** The digits that a text starts with. */
  ghost function DigitsAhead(s: Text): (d: Text)
    ensures AllDigits(d) && d <= s && (|d| < |s| ==> !Digit(s[|d|]))
  {
    if s == [] || !Digit(s[0]) then [] else [s[0]] + DigitsAhead(s[1..])
  }

  /** The integer that a number without a point stands for: its sign and its digits up to the first other character, within 64 bits. */
  ghost function Denoted(x: Text): int {
    if x != [] && x[0] == Ascii("-")[0] then Within(0 - Decimal(DigitsAhead(x[1..]))) else Within(Decimal(DigitsAhead(x)))
  }

  function Within(i: int): int {
    if i < -0x8000_0000_0000_0000 then -0x8000_0000_0000_0000 else if i >= 0x8000_0000_0000_0000 then 0x7FFF_FFFF_FFFF_FFFF else i
  }

  ghost predicate NumberMeans(x: Text, v: Value) {
    if Ascii(".")[0] in x then v == Double(x) else v == Int(Denoted(x))
  }

  /** `x` spells the token `t` when `r` comes after it. */
  ghost predicate Spells(x: Text, t: Token, r: Text) {
    || (x == [] && r == [] && t == Token(0, Null))
    || (exists c :: c in Ascii("{}[],:") && x == [c] && t == Token(c, Null))
    || (x == Ascii("true") && t == Token(Ascii("t")[0], Bool(true)))
    || (x == Ascii("false") && t == Token(Ascii("f")[0], Bool(false)))
    || (x == Ascii("null") && t == Token(Ascii("n")[0], Null))
    || StringSpells(x, t)
    || NumberSpells(x, t, r)
  }

  ghost predicate StringSpells(x: Text, t: Token) {
    exists ps :: LegalPieces(ps) && x == Ascii("\"") + SpelledAll(ps) + Ascii("\"") && t == Token(Ascii("\"")[0], Str(MeantAll(ps)))
  }

  /** A number goes as far as its characters go. */
  ghost predicate NumberSpells(x: Text, t: Token, r: Text) {
    && x != [] && (x[0] == Ascii("-")[0] || Digit(x[0]))
    && (forall i :: 0 <= i < |x| ==> NumberChar(x[i])) && (r == [] || !NumberChar(r[0]))
    && t.kind == Ascii("#")[0] && NumberMeans(x, t.value)
  }

  lemma NumberCharIs(c: Byte)
    ensures NumberChar(c) <==> InNumber(c)
  {
    hide Digit;
    DigitIs(c);
    assert Ascii("+-.eE") == [0x2B, 0x2D, 0x2E, 0x65, 0x45];
  }

  /** Reading digit by digit gives the value of the digits ahead. */
  lemma AheadValue(s: Text)
    ensures DigitsValue(s, 0) == Decimal(DigitsAhead(s))
  {
    hide Digit, DigitsAhead;
    var d := DigitsAhead(s);
    assert s == d + s[|d|..];
    DecimalRead(d, s[|d|..]);
  }

  lemma NumberIs(x: Text)
    requires x != [] && (x[0] == 0x2D || IsDigit(x[0]))
    ensures NumberMeans(x, NumberValue(x))
    ensures forall v :: NumberMeans(x, v) ==> v == NumberValue(x)
  {
    hide DigitsValue, DigitsAhead, Decimal;
    AheadValue(x);
    AheadValue(x[1..]);
  }

  // white space

  lemma WhiteIs(b: Text)
    ensures White(b) <==> Blank(b)
  {
  }

  lemma {:induction false} TrimmedWhite(s: Text) returns (b: Text)
    ensures White(b) && s == b + TrimStart(s)
  {
    if s != [] && IsSpace(s[0]) {
      b := TrimmedWhite(s[1..]);
      b := [s[0]] + b;
    } else {
      b := [];
    }
  }

  // tokens are read

  lemma WordsAre()
    ensures Ascii("true") == TRUE && Ascii("false") == FALSE && Ascii("null") == NULL
    ensures Ascii("{}[],:") == [OPEN_MAP, CLOSE_MAP, OPEN_LIST, CLOSE_LIST, COMMA, COLON]
    ensures Ascii("\"") == [QUOTE] && Ascii("-") == [0x2D] && Ascii("#") == [NUMBER] && Ascii(".") == [0x2E]
    ensures Ascii("t") == [0x74] && Ascii("f") == [0x66] && Ascii("n") == [0x6E]
  {
  }

  lemma MarkIs(c: Byte)
    ensures c in Ascii("{}[],:") <==> IsMark(c)
  {
    WordsAre();
  }

  lemma NumberRead(x: Text, t: Token, r: Text)
    requires NumberSpells(x, t, r)
    ensures ReadAt(x + r) == Got(t, r) && TrimStart(x + r) == x + r
  {
    hide Digit, NumberChar, NumberMeans, NumberValue;
    WordsAre();
    DigitIs(x[0]);
    if r != [] { NumberCharIs(r[0]); }
    forall i | 0 <= i < |x| ensures InNumber(x[i]) { NumberCharIs(x[i]); }
    NumberEnds(x, r);
    NumberIs(x);
    var s := x + r;
    assert s[0] == x[0] && s[..|x|] == x && s[|x|..] == r;
  }

  lemma StringTokenRead(x: Text, t: Token, r: Text)
    requires StringSpells(x, t)
    ensures ReadAt(x + r) == Got(t, r) && TrimStart(x + r) == x + r
  {
    hide ReadString, SpelledAll, MeantAll;
    WordsAre();
    var ps :| LegalPieces(ps) && x == Ascii("\"") + SpelledAll(ps) + Ascii("\"") && t == Token(Ascii("\"")[0], Str(MeantAll(ps)));
    StringRead(ps, r);
    var s := x + r;
    assert s[0] == QUOTE && s[1..] == SpelledAll(ps) + Ascii("\"") + r;
  }

  lemma SpelledRead(x: Text, t: Token, r: Text)
    requires Spells(x, t, r)
    ensures ReadAt(x + r) == Got(t, r) && TrimStart(x + r) == x + r
  {
    hide StringSpells, NumberSpells, ReadString, NumberValue;
    if NumberSpells(x, t, r) {
      NumberRead(x, t, r);
    } else if StringSpells(x, t) {
      StringTokenRead(x, t, r);
    } else {
      WordsAre();
      var s := x + r;
      if x != [] { assert s[0] == x[0] && s[|x|..] == r && x <= s; }
    }
  }

  /** A token that is read, with its spelling. */
  lemma TokenFound(s: Text) returns (x: Text)
    requires ReadAt(s).Got?
    ensures s == x + ReadAt(s).rest && Spells(x, ReadAt(s).value, ReadAt(s).rest)
  {
    hide StringSpells, NumberSpells, ReadString, NumberValue, NumberLength;
    WordsAre();
    x := s[..|s| - |ReadAt(s).rest|];
    if s != [] && s[0] == QUOTE {
      StringTokenFound(s, x);
    } else if s != [] && (s[0] == 0x2D || IsDigit(s[0])) {
      NumberFound(s, x);
    } else if s != [] {
      MarkIs(s[0]);
    }
  }

  lemma StringTokenFound(s: Text, x: Text)
    requires s != [] && s[0] == QUOTE && ReadAt(s).Got? && |ReadAt(s).rest| <= |s| && x == s[..|s| - |ReadAt(s).rest|]
    ensures s == x + ReadAt(s).rest && StringSpells(x, ReadAt(s).value)
  {
    hide ReadString, SpelledAll, MeantAll;
    WordsAre();
    var ps := StringFound(s[1..]);
    var r := ReadAt(s).rest;
    assert s == Ascii("\"") + SpelledAll(ps) + Ascii("\"") + r;
    assert x == Ascii("\"") + SpelledAll(ps) + Ascii("\"");
  }

  lemma NumberFound(s: Text, x: Text)
    requires s != [] && (s[0] == 0x2D || IsDigit(s[0])) && ReadAt(s).Got? && |ReadAt(s).rest| <= |s| && x == s[..|s| - |ReadAt(s).rest|]
    ensures s == x + ReadAt(s).rest && NumberSpells(x, ReadAt(s).value, ReadAt(s).rest)
  {
    hide NumberMeans, NumberValue, Digit, NumberChar;
    WordsAre();
    DigitIs(s[0]);
    var n := NumberLength(s);
    assert x == s[..n] && s[n..] == ReadAt(s).rest && n > 0;
    forall i | 0 <= i < n ensures NumberChar(x[i]) { NumberCharIs(x[i]); }
    if n < |s| { NumberCharIs(s[n]); }
    NumberIs(x);
  }

  /** The lexer reads a token if and only if white space and a spelling of it come next. */
  lemma TokenExactly(s: Text, t: Token, r: Text)
    ensures ReadToken(s) == Got(t, r) <==> exists b, x :: White(b) && s == b + x + r && Spells(x, t, r)
  {
    hide ReadAt, Spells, White;
    if ReadToken(s) == Got(t, r) {
      var b := TrimmedWhite(s);
      var x := TokenFound(TrimStart(s));
      assert s == b + x + r;
    }
    if b, x :| White(b) && s == b + x + r && Spells(x, t, r) {
      SpelledRead(x, t, r);
      WhiteIs(b);
      SkipBlank(b, x + r);
      assert s == b + (x + r);
    }
  }

  // ---- values: sections 3, 4 and 5 ----

  /** A tree of tokens. The code allows a comma behind the last item, which the standard does not. */
  datatype Doc =
    | Leaf(token: Token)
    | Listing(items: seq<Doc>, comma: bool)
    | Mapping(entries: seq<Entry>, comma: bool)

  datatype Entry = Entry(key: Text, doc: Doc)

  function Mark(c: Byte): Token {
    Token(c, Null)
  }

  ghost predicate LeafToken(t: Token) {
    t.kind in Ascii("\"#tfn")
  }

  ghost predicate LegalDoc(d: Doc)
    decreases d
  {
    match d
    case Leaf(t) => LeafToken(t)
    case Listing(ds, comma) => LegalDocs(ds) && (comma ==> ds != [])
    case Mapping(es, comma) => LegalEntries(es) && (comma ==> es != [])
  }

  ghost predicate LegalDocs(ds: seq<Doc>)
    decreases ds
  {
    ds == [] || (LegalDoc(ds[0]) && LegalDocs(ds[1..]))
  }

  ghost predicate LegalEntries(es: seq<Entry>)
    decreases es
  {
    es == [] || (LegalDoc(es[0].doc) && LegalEntries(es[1..]))
  }

  /** The tokens of a tree, in order. */
  ghost function Tokens(d: Doc): (ts: seq<Token>)
    ensures ts != []
    decreases d
  {
    match d
    case Leaf(t) => [t]
    case Listing(ds, comma) => [Mark(Ascii("[")[0])] + ItemTokens(ds, comma)
    case Mapping(es, comma) => [Mark(Ascii("{")[0])] + EntryTokens(es, comma)
  }

  /** The items with commas between them, and the closing bracket. */
  ghost function ItemTokens(ds: seq<Doc>, comma: bool): (ts: seq<Token>)
    ensures ts != []
    decreases ds
  {
    if ds == [] then [Mark(Ascii("]")[0])]
    else if |ds| == 1 && !comma then Tokens(ds[0]) + [Mark(Ascii("]")[0])]
    else Tokens(ds[0]) + ([Mark(Ascii(",")[0])] + ItemTokens(ds[1..], comma))
  }

  ghost function EntryTokens(es: seq<Entry>, comma: bool): (ts: seq<Token>)
    ensures ts != []
    decreases es
  {
    if es == [] then [Mark(Ascii("}")[0])]
    else
      [Token(Ascii("\"")[0], Str(es[0].key)), Mark(Ascii(":")[0])]
      + (Tokens(es[0].doc)
         + if |es| == 1 && !comma then [Mark(Ascii("}")[0])] else [Mark(Ascii(",")[0])] + EntryTokens(es[1..], comma))
  }

  /** What a tree means. */
  ghost function Means(d: Doc): Value
    decreases d
  {
    match d
    case Leaf(t) => t.value
    case Listing(ds, _) => List(AllMean(ds))
    case Mapping(es, _) => Map(Entered([], es))
  }

  ghost function AllMean(ds: seq<Doc>): seq<Value>
    decreases ds
  {
    if ds == [] then [] else [Means(ds[0])] + AllMean(ds[1..])
  }

  /** The entries one after the other: a key that is there already takes the new value and keeps its place. */
  ghost function Entered(done: seq<Member<Value>>, es: seq<Entry>): seq<Member<Value>>
    decreases es
  {
    if es == [] then done else Entered(PutMember(done, es[0].key, Means(es[0].doc)), es[1..])
  }

  /** The text `s` starts with the tokens `ts`, and `r` is left of it. */
  ghost predicate Reads(s: Text, ts: seq<Token>, r: Text)
    decreases |ts|
  {
    if ts == [] then s == r
    else ReadToken(s).Got? && ReadToken(s).value == ts[0] && Reads(ReadToken(s).rest, ts[1..], r)
  }

  lemma {:induction false} ReadsOn(s: Text, a: seq<Token>, m: Text, b: seq<Token>, r: Text)
    requires Reads(s, a, m) && Reads(m, b, r)
    ensures Reads(s, a + b, r)
    decreases |a|
  {
    hide ReadToken;
    if a == [] {
      assert a + b == b;
    } else {
      ReadsOn(ReadToken(s).rest, a[1..], m, b, r);
      assert (a + b)[1..] == a[1..] + b;
    }
  }

  lemma {:induction false} ReadsApart(s: Text, a: seq<Token>, b: seq<Token>, r: Text) returns (m: Text)
    requires Reads(s, a + b, r)
    ensures Reads(s, a, m) && Reads(m, b, r)
    decreases |a|
  {
    hide ReadToken;
    if a == [] {
      assert a + b == b;
      m := s;
    } else {
      assert (a + b)[1..] == a[1..] + b;
      m := ReadsApart(ReadToken(s).rest, a[1..], b, r);
    }
  }

  // ---- every tree is parsed ----

  lemma MarksAre()
    ensures Ascii("[") == [OPEN_LIST] && Ascii("]") == [CLOSE_LIST] && Ascii("{") == [OPEN_MAP] && Ascii("}") == [CLOSE_MAP]
    ensures Ascii(",") == [COMMA] && Ascii(":") == [COLON] && Ascii("\"") == [QUOTE]
    ensures forall k: Byte :: k in Ascii("\"#tfn") <==> HoldsValue(k)
  {
    assert Ascii("\"#tfn") == [QUOTE, NUMBER, 0x74, 0x66, 0x6E];
  }

  lemma {:induction false} ValueParsed(d: Doc, s: Text, t: Token, r: Text)
    requires LegalDoc(d) && Reads(s, Tokens(d)[1..] + [t], r)
    ensures ParseValue(Tokens(d)[0], s) == Done(Means(d), t, r)
    decreases d, 1
  {
    hide ReadToken, ParseItems, ParseMembers, ItemTokens, EntryTokens;
    MarksAre();
    match d
    case Leaf(u) => {
      assert Tokens(d)[1..] + [t] == [t];
      OneRead(s, t, r);
    }
    case Listing(ds, comma) => {
      assert Tokens(d)[1..] + [t] == ItemTokens(ds, comma) + [t];
      ItemsParsed(ds, comma, s, t, r);
    }
    case Mapping(es, comma) => {
      assert Tokens(d)[1..] + [t] == EntryTokens(es, comma) + [t];
      EntriesParsed(es, comma, [], s, t, r);
    }
  }

  lemma OneRead(s: Text, t: Token, r: Text)
    ensures Reads(s, [t], r) <==> ReadToken(s) == Got(t, r)
  {
    hide ReadToken;
    assert [t][1..] == [];
    if ReadToken(s).Got? { assert Reads(ReadToken(s).rest, [], r) <==> ReadToken(s).rest == r; }
  }

  /** The first of the tokens, and the rest of them. */
  lemma FirstRead(s: Text, ts: seq<Token>, r: Text)
    requires ts != []
    ensures Reads(s, ts, r) <==> ReadToken(s).Got? && ReadToken(s).value == ts[0] && Reads(ReadToken(s).rest, ts[1..], r)
  {
    hide ReadToken;
  }

  lemma {:induction false} ItemsParsed(ds: seq<Doc>, comma: bool, s: Text, t: Token, r: Text)
    requires LegalDocs(ds) && Reads(s, ItemTokens(ds, comma) + [t], r)
    ensures ReadToken(s).Got? && ParseItems(ReadToken(s).value, ReadToken(s).rest) == Done(AllMean(ds), t, r)
    decreases ds, 0
  {
    hide ReadToken, Reads, ParseValue, Tokens, Means, LegalDoc;
    MarksAre();
    var ts := ItemTokens(ds, comma) + [t];
    FirstRead(s, ts, r);
    var first, rest := ReadToken(s).value, ReadToken(s).rest;
    if ds == [] {
      assert ts[1..] == [t];
      OneRead(rest, t, r);
    } else {
      var d, close := Tokens(ds[0]), if |ds| == 1 && !comma then Mark(CLOSE_LIST) else Mark(COMMA);
      var tail := if |ds| == 1 && !comma then [t] else ItemTokens(ds[1..], comma) + [t];
      assert ts == d + ([close] + tail);
      assert ts[1..] == (d[1..] + [close]) + tail;
      var m := ReadsApart(rest, d[1..] + [close], tail, r);
      ValueParsed(ds[0], rest, close, m);
      FirstKind(ds[0]);
      if |ds| == 1 && !comma {
        OneRead(m, t, r);
        assert AllMean(ds[1..]) == [] && AllMean(ds) == [Means(ds[0])];
      } else {
        ItemsParsed(ds[1..], comma, m, t, r);
      }
    }
  }

  /** A value does not begin with a closing bracket. */
  lemma FirstKind(d: Doc)
    requires LegalDoc(d)
    ensures var k := Tokens(d)[0].kind; k != CLOSE_LIST && k != CLOSE_MAP && k != COMMA
  {
    MarksAre();
    assert !HoldsValue(CLOSE_LIST) && !HoldsValue(CLOSE_MAP) && !HoldsValue(COMMA);
  }

  lemma {:induction false} EntriesParsed(es: seq<Entry>, comma: bool, done: seq<Member<Value>>, s: Text, t: Token, r: Text)
    requires LegalEntries(es) && Reads(s, EntryTokens(es, comma) + [t], r)
    ensures ReadToken(s).Got? && ParseMembers(ReadToken(s).value, ReadToken(s).rest, done) == Done(Entered(done, es), t, r)
    decreases es, 0
  {
    hide ReadToken, Reads, ParseValue, Tokens, Means, LegalDoc, PutMember;
    MarksAre();
    var ts := EntryTokens(es, comma) + [t];
    FirstRead(s, ts, r);
    var first, rest := ReadToken(s).value, ReadToken(s).rest;
    if es == [] {
      assert ts[1..] == [t];
      OneRead(rest, t, r);
    } else {
      var d, close := Tokens(es[0].doc), if |es| == 1 && !comma then Mark(CLOSE_MAP) else Mark(COMMA);
      var tail := if |es| == 1 && !comma then [t] else EntryTokens(es[1..], comma) + [t];
      assert ts == [Token(QUOTE, Str(es[0].key)), Mark(COLON)] + (d + ([close] + tail));
      assert ts[1..] == [Mark(COLON)] + (d + ([close] + tail));
      FirstRead(rest, ts[1..], r);
      var r1 := ReadToken(rest).rest;
      assert ts[1..][1..] == d + ([close] + tail);
      FirstRead(r1, d + ([close] + tail), r);
      var r2 := ReadToken(r1).rest;
      assert (d + ([close] + tail))[1..] == (d[1..] + [close]) + tail;
      var m := ReadsApart(r2, d[1..] + [close], tail, r);
      ValueParsed(es[0].doc, r2, close, m);
      if |es| == 1 && !comma {
        OneRead(m, t, r);
        assert Entered(PutMember(done, es[0].key, Means(es[0].doc)), es[1..]) == PutMember(done, es[0].key, Means(es[0].doc));
      } else {
        EntriesParsed(es[1..], comma, PutMember(done, es[0].key, Means(es[0].doc)), m, t, r);
      }
    }
  }

  // ---- whatever is parsed is a tree ----

  /** Marks carry no value, and strings carry a string. */
  predicate Proper(t: Token) {
    (IsMark(t.kind) ==> t == Mark(t.kind)) && (t.kind == QUOTE ==> t.value.Str?)
  }

  lemma ReadProper(s: Text)
    ensures ReadToken(s).Got? ==> Proper(ReadToken(s).value)
  {
    hide ReadString, NumberLength, NumberValue, TrimStart;
  }

  lemma {:induction false} ReadsProper(s: Text, ts: seq<Token>, t: Token, r: Text)
    requires Reads(s, ts + [t], r)
    ensures Proper(t)
  {
    hide Proper;
    var m := ReadsApart(s, ts, [t], r);
    OneRead(m, t, r);
    ReadProper(m);
  }

  lemma {:induction false} ValueFound(u: Token, s: Text) returns (d: Doc)
    requires ParseValue(u, s).Done? && Proper(u)
    ensures var p := ParseValue(u, s);
            LegalDoc(d) && Means(d) == p.value && Tokens(d)[0] == u && Reads(s, Tokens(d)[1..] + [p.token], p.rest)
    decreases Weight(u, s), 0
  {
    hide ReadToken, ParseItems, ParseMembers, ItemTokens, EntryTokens, Reads;
    MarksAre();
    var p := ParseValue(u, s);
    OneRead(s, p.token, p.rest);
    if HoldsValue(u.kind) {
      d := Leaf(u);
      assert Tokens(d)[1..] + [p.token] == [p.token];
    } else {
      ReadProper(s);
      Lighter(u, s);
      if u.kind == OPEN_LIST {
        var ds, comma := ItemsFound(ReadToken(s).value, ReadToken(s).rest);
        d := Listing(ds, comma);
        assert Tokens(d)[1..] == ItemTokens(ds, comma);
        ReadsFirst(s, ItemTokens(ds, comma), p.token, p.rest);
      } else {
        var es, comma := EntriesFound(ReadToken(s).value, ReadToken(s).rest, []);
        d := Mapping(es, comma);
        assert Tokens(d)[1..] == EntryTokens(es, comma);
        ReadsFirst(s, EntryTokens(es, comma), p.token, p.rest);
      }
    }
  }

  /** Every token that is read makes the text lighter. */
  lemma Lighter(u: Token, s: Text)
    requires u.kind != END && ReadToken(s).Got?
    ensures Weight(ReadToken(s).value, ReadToken(s).rest) < Weight(u, s)
  {
    hide ReadToken;
  }

  lemma ReadsFirst(s: Text, ts: seq<Token>, t: Token, r: Text)
    requires ts != [] && ReadToken(s).Got? && ReadToken(s).value == ts[0] && Reads(ReadToken(s).rest, ts[1..] + [t], r)
    ensures Reads(s, ts + [t], r)
  {
    hide ReadToken, Reads;
    assert (ts + [t])[1..] == ts[1..] + [t];
    FirstRead(s, ts + [t], r);
  }

  lemma {:induction false} ItemsFound(u: Token, s: Text) returns (ds: seq<Doc>, comma: bool)
    requires ParseItems(u, s).Done? && Proper(u)
    ensures var p := ParseItems(u, s);
            && LegalDocs(ds) && (comma ==> ds != []) && AllMean(ds) == p.value
            && ItemTokens(ds, comma)[0] == u && Reads(s, ItemTokens(ds, comma)[1..] + [p.token], p.rest)
    decreases Weight(u, s), 1
  {
    hide ReadToken, Reads, ParseValue, Tokens, Means, LegalDoc;
    MarksAre();
    var q := ParseItems(u, s);
    if u.kind == CLOSE_LIST {
      ds, comma := [], false;
      assert ItemTokens([], false)[1..] + [q.token] == [q.token];
      OneRead(s, q.token, q.rest);
    } else {
      var d := ValueFound(u, s);
      var p := ParseValue(u, s);
      ReadsProper(s, Tokens(d)[1..], p.token, p.rest);
      if p.token.kind == CLOSE_LIST {
        ds, comma := [d], false;
        OneRead(p.rest, q.token, q.rest);
        ReadsOn(s, Tokens(d)[1..] + [p.token], p.rest, [q.token], q.rest);
        assert ItemTokens(ds, comma)[1..] + [q.token] == (Tokens(d)[1..] + [p.token]) + [q.token];
        assert AllMean(ds[1..]) == [] && AllMean(ds) == [Means(d)];
      } else {
        ReadProper(p.rest);
        NoEnd(u, s);
        WeightOf(u, s, p.token, p.rest);
        var more;
        more, comma := ItemsFound(ReadToken(p.rest).value, ReadToken(p.rest).rest);
        ds, comma := [d] + more, comma || more == [];
        var tail := ItemTokens(more, comma);
        ReadsFirst(p.rest, tail, q.token, q.rest);
        ReadsOn(s, Tokens(d)[1..] + [p.token], p.rest, tail + [q.token], q.rest);
        assert ds[1..] == more;
        assert ItemTokens(ds, comma) == Tokens(d) + ([Mark(COMMA)] + tail);
        assert ItemTokens(ds, comma)[1..] + [q.token] == (Tokens(d)[1..] + [p.token]) + (tail + [q.token]);
      }
    }
  }

  lemma WeightOf(u: Token, s: Text, t: Token, r: Text)
    requires ReadToken(r).Got? && Weight(t, r) <= |s| && t.kind != END && u.kind != END
    ensures Weight(ReadToken(r).value, ReadToken(r).rest) < Weight(u, s)
  {
    Lighter(t, r);
  }

  lemma NoEnd(u: Token, s: Text)
    ensures ParseValue(u, s).Done? ==> u.kind != END
  {
  }

  lemma {:induction false} EntriesFound(u: Token, s: Text, done: seq<Member<Value>>) returns (es: seq<Entry>, comma: bool)
    requires ParseMembers(u, s, done).Done? && Proper(u)
    ensures var p := ParseMembers(u, s, done);
            && LegalEntries(es) && (comma ==> es != []) && Entered(done, es) == p.value
            && EntryTokens(es, comma)[0] == u && Reads(s, EntryTokens(es, comma)[1..] + [p.token], p.rest)
    decreases Weight(u, s), 1
  {
    hide ReadToken, Reads, ParseValue, Tokens, Means, LegalDoc, PutMember;
    MarksAre();
    var q := ParseMembers(u, s, done);
    if u.kind == CLOSE_MAP {
      es, comma := [], false;
      assert EntryTokens([], false)[1..] + [q.token] == [q.token];
      OneRead(s, q.token, q.rest);
    } else {
      var r1 := ReadToken(s).rest;
      var v, r2 := ReadToken(r1).value, ReadToken(r1).rest;
      ReadProper(s);
      ReadProper(r1);
      NoEnd(v, r2);
      Lighter(u, s);
      WeightOf(u, s, ReadToken(s).value, r1);
      var d := ValueFound(v, r2);
      var p := ParseValue(v, r2);
      ReadsProper(r2, Tokens(d)[1..], p.token, p.rest);
      KeyRead(s, d, p.token, p.rest);
      var e := Entry(u.value.s, d);
      var more := PutMember(done, e.key, Means(d));
      if p.token.kind == CLOSE_MAP {
        es, comma := [e], false;
        OneRead(p.rest, q.token, q.rest);
        var head := [Mark(COLON)] + (Tokens(d) + [p.token]);
        ReadsOn(s, head, p.rest, [q.token], q.rest);
        assert EntryTokens(es, comma)[1..] + [q.token] == head + [q.token];
        assert Entered(more, es[1..]) == more;
      } else {
        ReadProper(p.rest);
        WeightOf(v, r2, p.token, p.rest);
        var rest;
        rest, comma := EntriesFound(ReadToken(p.rest).value, ReadToken(p.rest).rest, more);
        ReadsFirst(p.rest, EntryTokens(rest, comma), q.token, q.rest);
        EntryAhead(s, e, p.rest, rest, comma, q.token, q.rest);
        es, comma := [e] + rest, comma || rest == [];
        assert es[1..] == rest;
      }
    }
  }

  /** An entry, a comma and more entries. */
  lemma EntryAhead(s: Text, e: Entry, m: Text, rest: seq<Entry>, comma: bool, t: Token, r: Text)
    requires Reads(s, [Mark(COLON)] + (Tokens(e.doc) + [Mark(COMMA)]), m) && Reads(m, EntryTokens(rest, comma) + [t], r)
    ensures var es, c := [e] + rest, comma || rest == [];
            && EntryTokens(es, c)[0] == Token(QUOTE, Str(e.key)) && Reads(s, EntryTokens(es, c)[1..] + [t], r)
  {
    hide Reads, Tokens;
    MarksAre();
    var es, c, tail := [e] + rest, comma || rest == [], EntryTokens(rest, comma);
    var head := [Mark(COLON)] + (Tokens(e.doc) + [Mark(COMMA)]);
    ReadsOn(s, head, m, tail + [t], r);
    assert es[1..] == rest && EntryTokens(rest, c) == tail;
    assert EntryTokens(es, c)[1..] + [t] == head + (tail + [t]);
  }

  /** A colon and a value. */
  lemma KeyRead(s: Text, d: Doc, t: Token, r: Text)
    requires ReadToken(s).Got? && ReadToken(s).value == Mark(COLON)
    requires var r1 := ReadToken(s).rest;
             ReadToken(r1).Got? && ReadToken(r1).value == Tokens(d)[0] && Reads(ReadToken(r1).rest, Tokens(d)[1..] + [t], r)
    ensures Reads(s, [Mark(COLON)] + (Tokens(d) + [t]), r)
  {
    hide ReadToken, Reads, Tokens;
    ReadsFirst(ReadToken(s).rest, Tokens(d), t, r);
    var ts := [Mark(COLON)] + (Tokens(d) + [t]);
    assert ts[1..] == Tokens(d) + [t];
    FirstRead(s, ts, r);
  }

  /**
   The parser accepts a text if and only if the tokens that it starts with are those of a tree and a
   token follows; and what it makes of it is what the tree means.
   */
  lemma ParseExactly(s: Text, v: Value, t: Token, r: Text)
    ensures Parse(s) == Done(v, t, r) <==> exists d :: LegalDoc(d) && Means(d) == v && Reads(s, Tokens(d) + [t], r)
  {
    hide ReadToken, ParseValue, Reads, Tokens, Means, LegalDoc;
    ReadProper(s);
    if Parse(s) == Done(v, t, r) {
      var d := ValueFound(ReadToken(s).value, ReadToken(s).rest);
      ReadsFirst(s, Tokens(d), t, r);
    }
    if d :| LegalDoc(d) && Means(d) == v && Reads(s, Tokens(d) + [t], r) {
      FirstRead(s, Tokens(d) + [t], r);
      assert (Tokens(d) + [t])[1..] == Tokens(d)[1..] + [t];
      ValueParsed(d, ReadToken(s).rest, t, r);
    }
  }

  // ---- printed integers ----

  /** A sign only before a negative number, and digits without a zero in front, unless it is the only one. */
  lemma IntSpelled(i: int)
    ensures exists ds: Text ::
              && AllDigits(ds) && Decimal(ds) == (if i < 0 then -i else i) && ds != [] && (|ds| > 1 ==> ds[0] != Ascii("0")[0])
              && IntText(i) == (if i < 0 then Ascii("-") else []) + ds
  {
    hide Digit, Decimal;
    WordsAre();
    var m: nat := if i < 0 then -i else i;
    var ds := Digits(m);
    DigitsDecimal(m);
    assert [] + ds == ds;
  }

  lemma {:induction false} DigitsDecimal(n: nat)
    ensures var ds := Digits(n); AllDigits(ds) && ds != [] && Decimal(ds) == n && (|ds| > 1 ==> ds[0] != Ascii("0")[0]) && (n > 0 ==> ds[0] != Ascii("0")[0])
  {
    hide Digit;
    var ds := Digits(n);
    DigitIs(0x30 + n % 10);
    var last := ds[|ds| - 1];
    var front := ds[..|ds| - 1];
    if n < 10 {
      assert front == [] && Decimal([]) == 0;
    } else {
      DigitsDecimal(n / 10);
      assert front == Digits(n / 10);
    }
    assert last == 0x30 + n % 10;
  }

  // ---- an example of the layout ----

  /** One member or item a line, a tab for each level, a comma behind all but the last, and `[]` for an empty list. */
  lemma Layout()
    ensures Print(Map([Member(Ascii("a"), List([Int(-10), Null])), Member(Ascii("b"), Array([]))]), [])
            == Ascii("{\n\t\"a\": [\n\t\t-10,\n\t\tnull\n\t],\n\t\"b\": []\n}")
  {
    hide PrintMembers, Ascii;
    LayoutMembers();
    LayoutPieces();
  }

  lemma LayoutMembers()
    ensures PrintMembers([Member(Ascii("a"), List([Int(-10), Null])), Member(Ascii("b"), Array([]))], [] + [TAB])
            == Ascii("\t\"a\": ") + (Ascii("[\n") + (Ascii("\t\t-10,\n") + Ascii("\t\tnull")) + Ascii("\n\t]"))
               + (Ascii(",\n") + (Ascii("\t\"b\": ") + Ascii("[]")))
  {
    hide PrintItems, Quoted, Ascii;
    var v := List([Int(-10), Null]);
    var members := [Member(Ascii("a"), v), Member(Ascii("b"), Array([]))];
    assert members[1..] == [Member(Ascii("b"), Array([]))];
    KeyPieces();
    LayoutItems();
    assert [TAB] + [TAB] == [TAB, TAB] && [] + [TAB] == [TAB];
    assert Print(v, [TAB]) == Ascii("[\n") + (Ascii("\t\t-10,\n") + Ascii("\t\tnull")) + Ascii("\n\t]");
    assert PrintMembers(members[1..], [TAB]) == Ascii("\t\"b\": ") + Ascii("[]");
    assert PrintMembers(members, [TAB])
           == [TAB] + Quoted(Ascii("a")) + [COLON, 0x20] + Print(v, [TAB]) + ([COMMA, LF] + PrintMembers(members[1..], [TAB]));
  }

  lemma LayoutItems()
    ensures PrintItems([Int(-10), Null], [TAB, TAB]) == Ascii("\t\t-10,\n") + Ascii("\t\tnull")
  {
    hide Ascii;
    var items := [Int(-10), Null];
    assert items[1..] == [Null];
    ItemPieces();
    assert Digits(10) == [0x31, 0x30] by { assert Digits(1) == [0x31]; }
    assert PrintItems([Null], [TAB, TAB]) == Ascii("\t\tnull");
  }

  lemma ItemPieces()
    ensures Ascii("\t\t-10,\n") == [TAB, TAB, 0x2D, 0x31, 0x30, COMMA, LF] && Ascii("\t\tnull") == [TAB, TAB] + NULL
  {
  }

  lemma KeyPieces()
    ensures [TAB] + Quoted(Ascii("a")) + [COLON, 0x20] == Ascii("\t\"a\": ")
    ensures [TAB] + Quoted(Ascii("b")) + [COLON, 0x20] == Ascii("\t\"b\": ")
    ensures Ascii(",\n") == [COMMA, LF] && Ascii("[]") == [OPEN_LIST, CLOSE_LIST]
    ensures Ascii("[\n") == [OPEN_LIST, LF] && Ascii("\n\t]") == [LF] + [TAB] + [CLOSE_LIST]
  {
    OneCharacter(0x61);
    OneCharacter(0x62);
    assert Ascii("a") == [0x61] && Ascii("b") == [0x62];
  }

  lemma OneCharacter(c: Byte)
    requires c != 0 && c != QUOTE && c != BACKSLASH
    ensures Quoted([c]) == [QUOTE, c, QUOTE]
  {
    assert [c][1..] == [] && Escape([]) == [];
  }

  lemma LayoutPieces()
    ensures Ascii("{\n\t\"a\": [\n\t\t-10,\n\t\tnull\n\t],\n\t\"b\": []\n}")
            == [OPEN_MAP, LF]
               + (Ascii("\t\"a\": ") + (Ascii("[\n") + (Ascii("\t\t-10,\n") + Ascii("\t\tnull")) + Ascii("\n\t]"))
                  + (Ascii(",\n") + (Ascii("\t\"b\": ") + Ascii("[]"))))
               + [LF] + [] + [CLOSE_MAP]
  {
    hide Ascii;
    FirstHalf();
    SecondHalf();
    TwoHalves();
  }

  lemma FirstHalf()
    ensures Ascii("{\n\t\"a\": [\n\t\t-10,\n") == [OPEN_MAP, LF] + (Ascii("\t\"a\": ") + (Ascii("[\n") + Ascii("\t\t-10,\n")))
  {
  }

  lemma SecondHalf()
    ensures Ascii("\t\tnull\n\t],\n\t\"b\": []\n}")
            == Ascii("\t\tnull") + (Ascii("\n\t]") + (Ascii(",\n") + (Ascii("\t\"b\": ") + (Ascii("[]") + [LF, CLOSE_MAP]))))
  {
  }

  lemma TwoHalves()
    ensures Ascii("{\n\t\"a\": [\n\t\t-10,\n\t\tnull\n\t],\n\t\"b\": []\n}")
            == Ascii("{\n\t\"a\": [\n\t\t-10,\n") + Ascii("\t\tnull\n\t],\n\t\"b\": []\n}")
  {
  }
}
