/**
 Which texts the XML parser accepts, and what they mean: references, tokens and trees, written down
 without the parser, and the proof that the parser accepts exactly their texts.
 */
module XmlGrammar {
  import opened Basics
  import opened Unicode
  import opened Texts
  import opened XmlText

  // ---- references: sections 4.1 and 4.6 of XML 1.0 ----

  lemma Delimiters()
    ensures Ascii("&") == [AMP] && Ascii(";") == [SEMI] && Ascii("#") == [HASH] && Ascii("-") == [DASH] && Ascii("+") == [0x2B]
    ensures Ascii("<") == [LT] && Ascii(">") == [GT] && Ascii("=") == [EQUALS] && Ascii("/") == [SLASH] && Ascii("?") == [QUERY]
    ensures Ascii("\"") == [QUOTE] && Ascii("'") == [APOS] && Ascii("\r\n") == [CR, LF]
    ensures Ascii("<!--") == COMMENT_BEGIN && Ascii("-->") == COMMENT_END
    ensures Ascii("</") == [LT, SLASH] && Ascii("/>") == [SLASH, GT] && Ascii("<?") == [LT, QUERY] && Ascii("?>") == [QUERY, GT]
  {
  }

  lemma Names()
    ensures ESCAPE_NAMES == [Ascii("apos"), Ascii("quot"), Ascii("amp"), Ascii("lt"), Ascii("gt")]
    ensures ESCAPE_CHARS == Ascii("'\"&<>")
  {
    assert Ascii("apos") == ESCAPE_NAMES[0] && Ascii("quot") == ESCAPE_NAMES[1] && Ascii("amp") == ESCAPE_NAMES[2];
    assert Ascii("lt") == ESCAPE_NAMES[3] && Ascii("gt") == ESCAPE_NAMES[4];
  }

  lemma EscapesSpelled()
    ensures Ascii("&apos;") == XmlText.Escape1(APOS) && Ascii("&quot;") == XmlText.Escape1(QUOTE)
    ensures Ascii("&amp;") == XmlText.Escape1(AMP) && Ascii("&lt;") == XmlText.Escape1(LT) && Ascii("&gt;") == XmlText.Escape1(GT)
  {
  }

  /** The five predefined entities. */
  lemma PredefinedEntities(rest: Text)
    ensures Unescape(Ascii("&apos;") + rest) == Ascii("'") + Unescape(rest)
    ensures Unescape(Ascii("&quot;") + rest) == Ascii("\"") + Unescape(rest)
    ensures Unescape(Ascii("&amp;") + rest) == Ascii("&") + Unescape(rest)
    ensures Unescape(Ascii("&lt;") + rest) == Ascii("<") + Unescape(rest)
    ensures Unescape(Ascii("&gt;") + rest) == Ascii(">") + Unescape(rest)
  {
    hide Unescape, Ascii, XmlText.Escape1;
    Delimiters();
    EscapesSpelled();
    EntityBack(APOS, rest);
    EntityBack(QUOTE, rest);
    EntityBack(AMP, rest);
    EntityBack(LT, rest);
    EntityBack(GT, rest);
  }

  /** What stands between an ampersand and a semicolon in a reference to a character by its number. */
  datatype Number = Number(space: Text, sign: Text, digits: Text, more: Text)

  /** The scan skips white space, takes a sign, and stops at the first character that is no digit. */
  ghost predicate LegalNumber(n: Number) {
    && Blank(n.space) && n.sign in {[], Ascii("+"), Ascii("-")}
    && AllDigits(n.digits) && n.digits != [] && (n.more == [] || !Digit(n.more[0]))
  }

  ghost function NumberText(n: Number): Text {
    Ascii("#") + (n.space + (n.sign + (n.digits + n.more)))
  }

  /** The number as the C library delivers it: within 64 bits, then the low 32 of them. */
  ghost function NumberValue(n: Number): nat
    requires AllDigits(n.digits)
  {
    var v := Decimal(n.digits);
    if v >= 0x1_0000_0000_0000_0000 then 0xFFFF_FFFF
    else (if n.sign == Ascii("-") then 0 - v else v) % 0x1_0000_0000
  }

  lemma NumberScanned(n: Number)
    requires LegalNumber(n)
    ensures ScanUnsigned(NumberText(n)[1..]) == Some(NumberValue(n))
  {
    hide DigitsValue, Decimal, Digit, TrimStart;
    Delimiters();
    var d := n.digits + n.more;
    var t := n.sign + d;
    DigitIs(n.digits[0]);
    DecimalRead(n.digits, n.more);
    SkipSpaces(n.space, t);
    assert NumberText(n)[1..] == n.space + t;
    assert d[0] == n.digits[0];
    if n.sign != [] { assert t[0] == n.sign[0] && t[1..] == d; } else { assert t == d; }
  }

  lemma {:induction false} SkipSpaces(b: Text, t: Text)
    requires Blank(b) && t != [] && !IsSpace(t[0])
    ensures TrimStart(b + t) == t
  {
    if b == [] {
      assert b + t == t;
    } else {
      assert (b + t)[1..] == b[1..] + t;
      SkipSpaces(b[1..], t);
    }
  }

  /** A reference by number stands for the code point, or for nothing when the number is no code point. */
  lemma NumberReference(n: Number, rest: Text)
    requires LegalNumber(n) && SEMI !in NumberText(n)
    ensures Unescape(Ascii("&") + NumberText(n) + Ascii(";") + rest)
            == (if NumberValue(n) < 0x110000 then Utf8(NumberValue(n)) else []) + Unescape(rest)
  {
    hide Unescape, Span, ScanUnsigned, NumberValue, LegalNumber, Utf8;
    Delimiters();
    var e := NumberText(n);
    NumberScanned(n);
    ReferenceAt(e, rest);
  }

  /** The common case: plain decimal digits of a code point. */
  lemma DecimalReference(ds: Text, rest: Text)
    requires AllDigits(ds) && ds != [] && Decimal(ds) < 0x110000
    ensures Unescape(Ascii("&#") + ds + Ascii(";") + rest) == Utf8(Decimal(ds)) + Unescape(rest)
  {
    hide Unescape, Utf8, Decimal, Digit;
    Delimiters();
    var n := Number([], [], ds, []);
    assert NumberText(n) == Ascii("#") + ds;
    forall i | 0 <= i < |ds| ensures ds[i] != SEMI { DigitIs(ds[i]); }
    NumberReference(n, rest);
    assert Ascii("&") + NumberText(n) + Ascii(";") + rest == Ascii("&#") + ds + Ascii(";") + rest;
  }

  lemma ReferenceAt(e: Text, rest: Text)
    requires SEMI !in e
    ensures var s := Ascii("&") + e + Ascii(";") + rest;
            Unescape(s) == if Entity(e).Some? then Entity(e).value + Unescape(rest) else Ascii("&") + Unescape(e + Ascii(";") + rest)
  {
    hide Entity, Span;
    Delimiters();
    var s, t := Ascii("&") + e + Ascii(";") + rest, e + Ascii(";") + rest;
    assert s[0] == AMP && s[1..] == t;
    SpanOver(e, [SEMI] + rest, {SEMI});
    assert t == e + ([SEMI] + rest) && t[|e| + 1..] == rest;
  }

  /** An ampersand that starts neither kind of reference stays, and reading goes on behind it. */
  lemma OtherReference(e: Text, rest: Text)
    requires SEMI !in e
    requires e !in {Ascii("apos"), Ascii("quot"), Ascii("amp"), Ascii("lt"), Ascii("gt")}
    requires forall n :: LegalNumber(n) ==> e != NumberText(n)
    ensures Unescape(Ascii("&") + e + Ascii(";") + rest) == Ascii("&") + Unescape(e + Ascii(";") + rest)
  {
    hide Unescape, ScanUnsigned, NumberText, LegalNumber;
    Names();
    Delimiters();
    ReferenceAt(e, rest);
    if e != [] && e[0] == HASH && ScanUnsigned(e[1..]).Some? {
      var n := NumberFound(e);
    }
  }

  lemma NumberFound(e: Text) returns (n: Number)
    requires e != [] && e[0] == HASH && ScanUnsigned(e[1..]).Some?
    ensures LegalNumber(n) && e == NumberText(n)
  {
    hide DigitsValue, Digit, TrimStart;
    Delimiters();
    var s := e[1..];
    var b := SpaceFound(s);
    var t := TrimStart(s);
    var signed := t != [] && (t[0] == 0x2B || t[0] == DASH);
    var d := if signed then t[1..] else t;
    DigitIs(d[0]);
    var ds := DigitsFound(d);
    n := Number(b, if signed then [t[0]] else [], ds, d[|ds|..]);
    assert e == [HASH] + s && t == n.sign + d && d == ds + d[|ds|..];
    assert e == NumberText(n);
  }

  lemma {:induction false} SpaceFound(s: Text) returns (b: Text)
    ensures Blank(b) && s == b + TrimStart(s)
  {
    if s != [] && IsSpace(s[0]) {
      b := SpaceFound(s[1..]);
      b := [s[0]] + b;
    } else {
      b := [];
    }
  }

  lemma {:induction false} DigitsFound(s: Text) returns (ds: Text)
    ensures AllDigits(ds) && ds <= s && (|ds| < |s| ==> !Digit(s[|ds|])) && (s != [] && Digit(s[0]) ==> ds != [])
  {
    hide Digit;
    if s != [] && Digit(s[0]) {
      ds := DigitsFound(s[1..]);
      ds := [s[0]] + ds;
    } else {
      ds := [];
    }
  }

  /** Without a semicolon nothing is replaced. */
  lemma {:induction false} NoSemicolon(s: Text)
    requires SEMI !in s
    ensures Unescape(s) == s
    decreases |s|
  {
    hide Entity;
    if s != [] {
      NoSemicolon(s[1..]);
      assert s == [s[0]] + s[1..];
    }
  }

  // ---- white space and comments ----

  datatype Piece = Space(c: Byte) | Comment(body: Text)

  predicate White(c: Byte) {
    c in {0x09, 0x0A, 0x0B, 0x0C, 0x0D, 0x20}
  }

  /** A comment ends at the first place where it can. */
  ghost predicate LegalPiece(p: Piece) {
    match p
    case Space(c) => White(c)
    case Comment(b) => CommentBody(b)
  }

  ghost function PieceText(p: Piece): Text {
    match p
    case Space(c) => [c]
    case Comment(b) => Ascii("<!--") + (b + Ascii("-->"))
  }

  ghost predicate LegalGap(g: seq<Piece>) {
    forall i :: 0 <= i < |g| ==> LegalPiece(g[i])
  }

  ghost function GapText(g: seq<Piece>): Text {
    if g == [] then [] else PieceText(g[0]) + GapText(g[1..])
  }

  /** Neither white space nor a comment comes next. */
  ghost predicate NoGap(r: Text) {
    r == [] || (!White(r[0]) && !(Ascii("<!--") <= r))
  }

  /** `s` is white space and comments, and then `r`; a comment without an end takes everything. */
  ghost predicate Skips(s: Text, g: seq<Piece>, r: Text) {
    LegalGap(g) && ((s == GapText(g) + r && NoGap(r)) || (r == [] && OpenComment(s, g)))
  }

  ghost predicate OpenComment(s: Text, g: seq<Piece>) {
    exists b :: s == GapText(g) + (Ascii("<!--") + b) && Unended(b)
  }

  ghost predicate Unended(b: Text) {
    forall i :: 0 <= i <= |b| ==> !(Ascii("-->") <= b[i..])
  }

  lemma PieceSkipped(p: Piece, t: Text)
    requires LegalPiece(p)
    ensures SkipSpace(PieceText(p) + t) == SkipSpace(t)
  {
    hide SkipSpace;
    Delimiters();
    match p
    case Space(c) => OneSpace(c, t);
    case Comment(b) => {
      var s := PieceText(p) + t;
      CommentSkipped(b, t);
      assert s[4..] == b + COMMENT_END + t && s[..4] == COMMENT_BEGIN;
      AtComment(s, t);
    }
  }

  lemma {:induction false} GapSkipped(g: seq<Piece>, t: Text)
    requires LegalGap(g)
    ensures SkipSpace(GapText(g) + t) == SkipSpace(t)
  {
    hide SkipSpace, LegalPiece, PieceText;
    if g == [] {
      assert GapText(g) + t == t;
    } else {
      var u := GapText(g[1..]) + t;
      GapSkipped(g[1..], t);
      PieceSkipped(g[0], u);
      assert GapText(g) + t == PieceText(g[0]) + u;
    }
  }

  lemma {:induction false} NoEndSkipped(b: Text)
    requires Unended(b)
    ensures SkipComment(b) == []
  {
    Delimiters();
    if b != [] {
      assert b[0..] == b;
      forall i | 0 <= i <= |b[1..]| ensures !(Ascii("-->") <= b[1..][i..]) { assert b[1..][i..] == b[i + 1..]; }
      NoEndSkipped(b[1..]);
    }
  }

  lemma NoGapSkipped(r: Text)
    requires NoGap(r)
    ensures SkipSpace(r) == r
  {
    Delimiters();
  }

  /** A comment's inside, from its first character on. */
  lemma {:induction false} CommentFound(s: Text) returns (b: Text)
    ensures if Unended(s) then b == s && SkipComment(s) == [] else CommentBody(b) && s == b + Ascii("-->") + SkipComment(s)
  {
    Delimiters();
    if Unended(s) {
      NoEndSkipped(s);
      b := s;
    } else {
      b := EndFound(s);
    }
  }

  lemma {:induction false} EndFound(s: Text) returns (b: Text)
    requires !Unended(s)
    ensures CommentBody(b) && s == b + COMMENT_END + SkipComment(s)
  {
    hide CommentBody, SkipComment, Unended;
    Delimiters();
    if !(COMMENT_END <= s) { EndLater(s); }
    OneStep(s);
    if COMMENT_END <= s {
      b := [];
      NoBody();
      assert s == COMMENT_END + s[3..];
    } else {
      var c := EndFound(s[1..]);
      b := [s[0]] + c;
      assert s == b + COMMENT_END + SkipComment(s);
      BodyLonger(s[0], c, SkipComment(s));
    }
  }

  lemma OneStep(s: Text)
    requires s != []
    ensures SkipComment(s) == if COMMENT_END <= s then s[3..] else SkipComment(s[1..])
  {
  }

  lemma NoBody()
    ensures CommentBody([])
  {
  }

  lemma EndLater(s: Text)
    requires !Unended(s) && !(COMMENT_END <= s)
    ensures s != [] && !Unended(s[1..])
  {
    Delimiters();
    var i :| 0 <= i <= |s| && COMMENT_END <= s[i..];
    assert s[0..] == s;
    assert i > 0 && COMMENT_END <= s[1..][i - 1..];
  }

  lemma BodyLonger(x: Byte, c: Text, r: Text)
    requires CommentBody(c) && !(COMMENT_END <= [x] + c + COMMENT_END + r)
    ensures CommentBody([x] + c)
  {
    var b := [x] + c;
    var e := b + COMMENT_END;
    forall k | 0 <= k < |b| ensures !(COMMENT_END <= e[k..]) {
      if k > 0 {
        assert e[k..] == (c + COMMENT_END)[k - 1..];
      } else {
        assert e[0..] == e && e <= e + r;
      }
    }
  }

  lemma {:induction false} GapFound(s: Text) returns (g: seq<Piece>)
    ensures Skips(s, g, SkipSpace(s))
    decreases |s|
  {
    hide SkipSpace, SkipComment, Skips, LegalPiece, PieceText;
    g := [];
    if s == [] || (!IsSpace(s[0]) && !(COMMENT_BEGIN <= s)) {
      NothingFound(s);
    } else if IsSpace(s[0]) {
      var more := GapFound(s[1..]);
      SpacePiece(s);
      g := MorePieces(Space(s[0]), s[1..], more, SkipSpace(s));
    } else {
      var b := CommentFound(s[4..]);
      if Unended(s[4..]) {
        OpenFound(s);
      } else {
        var t := SkipComment(s[4..]);
        var more := GapFound(t);
        CommentPiece(s, b);
        g := MorePieces(Comment(b), t, more, SkipSpace(s));
      }
    }
  }

  lemma NothingFound(s: Text)
    requires s == [] || (!IsSpace(s[0]) && !(COMMENT_BEGIN <= s))
    ensures Skips(s, [], SkipSpace(s))
  {
    Delimiters();
    assert NoGap(s);
    NoGapSkipped(s);
    assert s == GapText([]) + s;
  }

  lemma SpacePiece(s: Text)
    requires s != [] && IsSpace(s[0])
    ensures LegalPiece(Space(s[0])) && PieceText(Space(s[0])) + s[1..] == s && SkipSpace(s) == SkipSpace(s[1..])
  {
    hide SkipSpace;
    OneSpace(s[0], s[1..]);
    assert [s[0]] + s[1..] == s;
  }

  lemma CommentPiece(s: Text, b: Text)
    requires COMMENT_BEGIN <= s && CommentBody(b) && s[4..] == b + Ascii("-->") + SkipComment(s[4..])
    ensures LegalPiece(Comment(b)) && PieceText(Comment(b)) + SkipComment(s[4..]) == s
    ensures SkipSpace(s) == SkipSpace(SkipComment(s[4..])) && |SkipComment(s[4..])| < |s|
  {
    hide SkipSpace, SkipComment, CommentBody;
    Delimiters();
    AtComment(s, SkipComment(s[4..]));
    assert s == COMMENT_BEGIN + s[4..];
  }

  lemma OpenFound(s: Text)
    requires COMMENT_BEGIN <= s && Unended(s[4..])
    ensures Skips(s, [], SkipSpace(s))
  {
    hide SkipSpace, Unended, Ascii, LegalPiece, PieceText;
    Delimiters();
    var b := s[4..];
    OpenSkipped(b);
    assert s == COMMENT_BEGIN + b;
    assert GapText([]) == [] && [] + s == s;
    assert s == GapText([]) + (Ascii("<!--") + b);
    assert OpenComment(s, []) && LegalGap([]);
  }

  lemma MorePieces(p: Piece, t: Text, g: seq<Piece>, r: Text) returns (h: seq<Piece>)
    requires LegalPiece(p) && Skips(t, g, r)
    ensures Skips(PieceText(p) + t, h, r)
  {
    hide LegalPiece, PieceText, NoGap, Unended;
    h := [p] + g;
    assert h[1..] == g;
    if t == GapText(g) + r && NoGap(r) {
      assert PieceText(p) + t == GapText(h) + r;
    } else {
      var b :| t == GapText(g) + (Ascii("<!--") + b) && Unended(b);
      assert PieceText(p) + t == GapText(h) + (Ascii("<!--") + b);
    }
  }

  /** The lexer skips exactly the white space and comments at the start. */
  lemma SpaceExactly(s: Text, r: Text)
    ensures SkipSpace(s) == r <==> exists g :: Skips(s, g, r)
  {
    hide SkipSpace;
    if SkipSpace(s) == r {
      var g := GapFound(s);
    }
    if g :| Skips(s, g, r) {
      if s == GapText(g) + r && NoGap(r) {
        GapSkipped(g, r);
        NoGapSkipped(r);
      } else {
        var b :| s == GapText(g) + (Ascii("<!--") + b) && Unended(b);
        GapSkipped(g, Ascii("<!--") + b);
        OpenSkipped(b);
      }
    }
  }

  lemma OpenSkipped(b: Text)
    requires Unended(b)
    ensures SkipSpace(Ascii("<!--") + b) == []
  {
    Delimiters();
    NoEndSkipped(b);
    var c := Ascii("<!--") + b;
    assert c[4..] == b;
    AtComment(c, []);
  }

  // ---- tokens ----

  /** A character that ends a name. */
  predicate EndsName(c: Byte) {
    White(c) || c in Ascii("/>=")
  }

  ghost predicate QuotedSpells(x: Text, t: Token) {
    exists q: Byte, body: Text :: QuotedBy(x, q, body) && t == Quoted(Unescape(body))
  }

  /** A text on one line between two quotes of the same kind. */
  ghost predicate QuotedBy(x: Text, q: Byte, body: Text) {
    && q in Ascii("\"'") && x == [q] + (body + [q])
    && (forall i :: 0 <= i < |body| ==> body[i] != q && body[i] !in Ascii("\r\n"))
  }

  /** A name goes as far as its characters go. */
  ghost predicate NameSpells(x: Text, t: Token, r: Text) {
    && x != [] && x[0] !in Ascii("<\"'") && (forall i :: 0 <= i < |x| ==> !EndsName(x[i]))
    && (r == [] || EndsName(r[0])) && t == Name(x)
  }

  /** `x` spells the token `t` when `r` comes after it. */
  ghost predicate TokenSpells(x: Text, t: Token, r: Text) {
    || (x == Ascii("<") && t == StartTagBegin && !(Ascii("/") <= r))
    || (x == Ascii("</") && t == EndTagBegin)
    || (x == Ascii(">") && t == TagEnd)
    || (x == Ascii("/>") && t == EmptyTagEnd)
    || (x == Ascii("=") && t == EqualsSign)
    || QuotedSpells(x, t)
    || NameSpells(x, t, r)
  }

  lemma EndsNameIs(c: Byte)
    ensures EndsName(c) <==> c in NAME_STOPS
    ensures White(c) <==> IsSpace(c)
    ensures c in Ascii("\"'") <==> c == QUOTE || c == APOS
    ensures c in Ascii("<\"'") <==> c == LT || c == QUOTE || c == APOS
    ensures c in Ascii("\r\n") <==> c == CR || c == LF
  {
    assert Ascii("/>=") == [SLASH, GT, EQUALS] && Ascii("\"'") == [QUOTE, APOS];
    assert Ascii("<\"'") == [LT, QUOTE, APOS] && Ascii("\r\n") == [CR, LF];
  }

  lemma NameSpelled(x: Text, t: Token, r: Text)
    requires NameSpells(x, t, r)
    ensures ReadAt(x + r) == Got(t, r)
  {
    hide EndsName, Span;
    EndsNameIs(x[0]);
    forall i | 0 <= i < |x| ensures x[i] !in NAME_STOPS { EndsNameIs(x[i]); }
    if r != [] { EndsNameIs(r[0]); }
    SpanOver(x, r, NAME_STOPS);
    var s := x + r;
    assert s[0] == x[0] && s[0] !in NAME_STOPS;
  }

  lemma QuotedRest(q: Byte, body: Text, r: Text)
    requires (q == QUOTE || q == APOS) && forall i :: 0 <= i < |body| ==> body[i] !in {q, CR, LF}
    ensures ReadQuoted(q, body + ([q] + r)) == Got(Quoted(Unescape(body)), r)
  {
    hide Span, Unescape;
    SpanOver(body, [q] + r, {q, CR, LF});
    var u := body + ([q] + r);
    assert u[|body| + 1..] == r && u[|body|] == q;
  }

  lemma QuotedSpelled(x: Text, t: Token, r: Text)
    requires QuotedSpells(x, t)
    ensures ReadAt(x + r) == Got(t, r)
  {
    hide ReadAt, QuotedBy, Unescape;
    var q: Byte, body: Text :| QuotedBy(x, q, body) && t == Quoted(Unescape(body));
    QuotedByRead(x, q, body, r);
  }

  lemma QuotedByRead(x: Text, q: Byte, body: Text, r: Text)
    requires QuotedBy(x, q, body)
    ensures ReadAt(x + r) == Got(Quoted(Unescape(body)), r)
  {
    hide ReadQuoted, ReadName, Unescape, Ascii;
    EndsNameIs(q);
    forall i | 0 <= i < |body| ensures body[i] !in {q, CR, LF} { EndsNameIs(body[i]); }
    QuotedRest(q, body, r);
    var s := x + r;
    assert s[0] == q && s[1..] == body + ([q] + r);
  }

  lemma MarkSpelled(x: Text, t: Token, r: Text)
    requires TokenSpells(x, t, r) && !QuotedSpells(x, t) && !NameSpells(x, t, r)
    ensures ReadAt(x + r) == Got(t, r)
  {
    hide QuotedSpells, NameSpells, Span;
    Delimiters();
    var s := x + r;
    assert s[0] == x[0] && s[|x|..] == r && (|x| > 1 ==> s[1] == x[1]);
    if |x| == 1 && r != [] { assert s[1] == r[0] && r[..1] == [r[0]]; }
  }

  lemma TokenFound(s: Text) returns (x: Text)
    requires ReadAt(s).Got?
    ensures s == x + ReadAt(s).rest && TokenSpells(x, ReadAt(s).token, ReadAt(s).rest)
  {
    hide QuotedSpells, NameSpells, Span, Unescape, ReadQuoted, ReadName;
    Delimiters();
    var r := ReadAt(s).rest;
    if s[0] == QUOTE || s[0] == APOS {
      x := QuotedFound(s);
    } else if s[0] != LT && s[0] != GT && s[0] != EQUALS && !(s[0] == SLASH && |s| > 1 && s[1] == GT) {
      x := NameFound(s);
    } else {
      x := s[..|s| - |r|];
      if s[0] == LT && r != [] { assert r[..1] == [r[0]]; }
    }
  }

  lemma QuotedFound(s: Text) returns (x: Text)
    requires s != [] && (s[0] == QUOTE || s[0] == APOS) && ReadAt(s).Got?
    ensures s == x + ReadAt(s).rest && QuotedSpells(x, ReadAt(s).token)
  {
    hide Unescape, Ascii, QuotedBy, ReadQuoted, ReadName;
    var q, u := s[0], s[1..];
    var body := QuotedBody(q, u);
    x := [q] + (body + [q]);
    QuotedIs(q, body);
    assert s == [q] + u;
  }

  lemma QuotedBody(q: Byte, u: Text) returns (body: Text)
    requires (q == QUOTE || q == APOS) && ReadQuoted(q, u).Got?
    ensures forall i :: 0 <= i < |body| ==> body[i] !in {q, CR, LF}
    ensures u == body + [q] + ReadQuoted(q, u).rest && ReadQuoted(q, u).token == Quoted(Unescape(body))
  {
    hide Unescape;
    body := u[..Span(u, {q, CR, LF})];
  }

  lemma QuotedIs(q: Byte, body: Text)
    requires (q == QUOTE || q == APOS) && forall i :: 0 <= i < |body| ==> body[i] !in {q, CR, LF}
    ensures QuotedBy([q] + (body + [q]), q, body)
  {
    hide Ascii;
    EndsNameIs(q);
    forall i | 0 <= i < |body| ensures body[i] != q && body[i] !in Ascii("\r\n") { EndsNameIs(body[i]); }
  }

  lemma NameFound(s: Text) returns (x: Text)
    requires s != [] && ReadAt(s) == ReadName(s) && ReadName(s).Got? && s[0] != LT && s[0] != QUOTE && s[0] != APOS
    ensures s == x + ReadAt(s).rest && NameSpells(x, ReadAt(s).token, ReadAt(s).rest)
  {
    hide EndsName, ReadAt;
    var n := Span(s, NAME_STOPS);
    x := s[..n];
    EndsNameIs(s[0]);
    forall i | 0 <= i < n ensures !EndsName(x[i]) { EndsNameIs(s[i]); }
    if n < |s| { EndsNameIs(s[n]); }
  }

  /** The lexer reads a token if and only if white space and comments and then a spelling of it come next. */
  lemma TokenExactly(s: Text, t: Token, r: Text)
    ensures ReadToken(s) == Got(t, r) <==> exists g, x :: Skips(s, g, x + r) && TokenSpells(x, t, r)
  {
    hide ReadAt, SkipSpace, Skips, TokenSpells;
    if ReadToken(s) == Got(t, r) {
      var g := GapFound(s);
      var x := TokenFound(SkipSpace(s));
      assert SkipSpace(s) == x + r;
      SpelledRead(x, t, r);
    }
    if g, x :| Skips(s, g, x + r) && TokenSpells(x, t, r) {
      SpaceExactly(s, x + r);
      SpelledRead(x, t, r);
    }
  }

  lemma SpelledRead(x: Text, t: Token, r: Text)
    requires TokenSpells(x, t, r)
    ensures ReadAt(x + r) == Got(t, r) && x != []
  {
    hide ReadAt, QuotedSpells, NameSpells, Unescape;
    if NameSpells(x, t, r) {
      NameSpelled(x, t, r);
      NotNothing(x, t, r);
    } else if QuotedSpells(x, t) {
      QuotedSpelled(x, t, r);
      NotNothing(x, t, r);
    } else {
      MarkSpelled(x, t, r);
    }
  }

  lemma NotNothing(x: Text, t: Token, r: Text)
    requires NameSpells(x, t, r) || QuotedSpells(x, t)
    ensures x != []
  {
  }

  // ---- trees ----

  /** A token, or a text between tags. */
  datatype Lexeme = Tok(token: Token) | Run(text: Text)

  /** A start tag with what is in it, and its content unless it closes itself. */
  datatype Tree = Tree(kind: Text, parts: seq<Part>, body: Body)

  /** An attribute, or a token that is passed over. */
  datatype Part = Attribute(key: Text, value: Text) | Stray(token: Token)

  datatype Body = Closed | Open(items: seq<Item>)

  datatype Item = Sub(tree: Tree) | Text(text: Text)

  ghost predicate LegalPart(p: Part) {
    p.Stray? ==> !p.token.Name? && !p.token.TagEnd? && !p.token.EmptyTagEnd?
  }

  ghost predicate LegalParts(ps: seq<Part>) {
    forall i :: 0 <= i < |ps| ==> LegalPart(ps[i])
  }

  ghost predicate LegalTree(t: Tree)
    decreases t
  {
    LegalParts(t.parts) && (t.body.Open? ==> LegalItems(t.body.items))
  }

  ghost predicate LegalItems(items: seq<Item>)
    decreases items
  {
    items == [] || (LegalItem(items[0]) && LegalItems(items[1..]))
  }

  ghost predicate LegalItem(i: Item)
    decreases i
  {
    match i
    case Sub(t) => LegalTree(t)
    case Text(_) => true
  }

  ghost function PartLexemes(ps: seq<Part>): seq<Lexeme> {
    if ps == [] then []
    else
      (match ps[0]
       case Attribute(k, v) => [Tok(Name(k)), Tok(EqualsSign), Tok(Quoted(v))]
       case Stray(t) => [Tok(t)])
      + PartLexemes(ps[1..])
  }

  /** The lexemes of a tree behind its bracket: the end tag has the name of the start tag. */
  ghost function Lexemes(t: Tree): seq<Lexeme>
    decreases t
  {
    [Tok(Name(t.kind))] + (PartLexemes(t.parts) + BodyLexemes(t.kind, t.body))
  }

  ghost function BodyLexemes(kind: Text, b: Body): seq<Lexeme>
    decreases b
  {
    match b
    case Closed => [Tok(EmptyTagEnd)]
    case Open(items) => [Tok(TagEnd)] + (ItemLexemes(items) + [Tok(Name(kind)), Tok(TagEnd)])
  }

  /** The items and the start of the end tag. */
  ghost function ItemLexemes(items: seq<Item>): seq<Lexeme>
    decreases items
  {
    if items == [] then [Tok(EndTagBegin)]
    else ItemLexeme(items[0]) + ItemLexemes(items[1..])
  }

  ghost function ItemLexeme(i: Item): seq<Lexeme>
    decreases i
  {
    match i
    case Sub(t) => [Tok(StartTagBegin)] + Lexemes(t)
    case Text(x) => [Run(x)]
  }

  /** The element that a tree means: of attributes with the same name the last value counts. */
  ghost function Means(t: Tree): Element
    decreases t
  {
    Element(t.kind, Entered([], t.parts), match t.body case Closed => [] case Open(items) => AllMean(items))
  }

  ghost function Entered(done: seq<Member<Text>>, ps: seq<Part>): seq<Member<Text>>
    decreases |ps|
  {
    if ps == [] then done
    else Entered(if ps[0].Attribute? then PutMember(done, ps[0].key, ps[0].value) else done, ps[1..])
  }

  ghost function AllMean(items: seq<Item>): seq<Node>
    decreases items
  {
    if items == [] then []
    else [ItemMeans(items[0])] + AllMean(items[1..])
  }

  ghost function ItemMeans(i: Item): Node
    decreases i
  {
    match i
    case Sub(t) => Child(Means(t))
    case Text(x) => Words(x)
  }

  // ---- reading lexemes ----

  /**
   A text up to the next bracket. The white space before it belongs to it unless no token comes next,
   for which a slash or a quote without its partner is the reason.
   */
  ghost predicate RunRead(s: Text, x: Text, r: Text) {
    && (ReadToken(s).Got? ==> !ReadToken(s).token.StartTagBegin? && !ReadToken(s).token.EndTagBegin?)
    && exists u: Text :: StartsAt(s, u + r) && u != [] && Ascii("<")[0] !in u && Ascii("<") <= r && x == Unescape(u)
  }

  /** Where in `s` a text begins. */
  ghost predicate StartsAt(s: Text, v: Text) {
    if ReadToken(s).Got? then s == v else exists g :: Skips(s, g, v)
  }

  /** The text `s` starts with the lexemes `ls`, and `r` is left of it. */
  ghost predicate Reads(s: Text, ls: seq<Lexeme>, r: Text)
    decreases |ls|
  {
    if ls == [] then s == r
    else if ls[0].Tok? then exists r1 :: ReadToken(s) == Got(ls[0].token, r1) && Reads(r1, ls[1..], r)
    else exists r1 :: RunRead(s, ls[0].text, r1) && Reads(r1, ls[1..], r)
  }

  lemma {:induction false} ReadsOn(s: Text, a: seq<Lexeme>, m: Text, b: seq<Lexeme>, r: Text)
    requires Reads(s, a, m) && Reads(m, b, r)
    ensures Reads(s, a + b, r)
    decreases |a|
  {
    hide ReadToken, RunRead;
    if a == [] {
      assert a + b == b;
    } else {
      var r1 :| Reads(r1, a[1..], m) && (if a[0].Tok? then ReadToken(s) == Got(a[0].token, r1) else RunRead(s, a[0].text, r1));
      ReadsOn(r1, a[1..], m, b, r);
      assert (a + b)[1..] == a[1..] + b;
    }
  }

  lemma {:induction false} ReadsApart(s: Text, a: seq<Lexeme>, b: seq<Lexeme>, r: Text) returns (m: Text)
    requires Reads(s, a + b, r)
    ensures Reads(s, a, m) && Reads(m, b, r)
    decreases |a|
  {
    hide ReadToken, RunRead;
    if a == [] {
      assert a + b == b;
      m := s;
    } else {
      var c := a + b;
      var r1 :| Reads(r1, c[1..], r) && (if a[0].Tok? then ReadToken(s) == Got(a[0].token, r1) else RunRead(s, a[0].text, r1));
      assert c[1..] == a[1..] + b;
      m := ReadsApart(r1, a[1..], b, r);
    }
  }

  lemma ReadsTok(s: Text, t: Token, ls: seq<Lexeme>, r: Text)
    ensures Reads(s, [Tok(t)] + ls, r) <==> ReadToken(s).Got? && ReadToken(s).token == t && Reads(ReadToken(s).rest, ls, r)
  {
    hide ReadToken;
    assert ([Tok(t)] + ls)[1..] == ls;
  }

  lemma ReadsNothing(s: Text, r: Text)
    ensures Reads(s, [], r) <==> s == r
  {
  }

  /** A run is what the parser takes as words. */
  lemma RunExactly(s: Text, x: Text, r: Text)
    ensures RunRead(s, x, r) <==>
            && !(ReadToken(s).Got? && (ReadToken(s).token.StartTagBegin? || ReadToken(s).token.EndTagBegin?))
            && var u := if ReadToken(s).Got? then s else SkipSpace(s);
               var n := Span(u, {LT});
               0 < n < |u| && x == Unescape(u[..n]) && r == u[n..]
  {
    hide ReadToken, SkipSpace, Span, Unescape, StartsAt;
    Delimiters();
    var w := if ReadToken(s).Got? then s else SkipSpace(s);
    var n := Span(w, {LT});
    if RunRead(s, x, r) {
      var u: Text :| StartsAt(s, u + r) && u != [] && Ascii("<")[0] !in u && Ascii("<") <= r && x == Unescape(u);
      StartIs(s, u + r);
      SpanOver(u, r, {LT});
    }
    if 0 < n < |w| && x == Unescape(w[..n]) && r == w[n..] {
      var u := w[..n];
      assert w == u + r && r[..1] == [LT];
      StartIs(s, u + r);
    }
  }

  lemma StartIs(s: Text, v: Text)
    ensures StartsAt(s, v) <==> v == if ReadToken(s).Got? then s else SkipSpace(s)
  {
    hide ReadToken, SkipSpace, Skips;
    SpaceExactly(s, v);
  }

  // ---- every tree is parsed ----

  ghost predicate TagEnding(t: Token) {
    t.TagEnd? || t.EmptyTagEnd?
  }

  lemma {:induction false} PartsParsed(ps: seq<Part>, s: Text, done: seq<Member<Text>>, end: Token, r: Text)
    requires LegalParts(ps) && TagEnding(end) && Reads(s, PartLexemes(ps) + [Tok(end)], r)
    ensures ParseAttributes(s, done) == Opened(Entered(done, ps), end.TagEnd?, r)
    decreases |ps|
  {
    hide ReadToken, Reads, PutMember;
    if ps == [] {
      assert PartLexemes(ps) + [Tok(end)] == [Tok(end)] + [];
      ReadsTok(s, end, [], r);
      ReadsNothing(ReadToken(s).rest, r);
    } else {
      var tail := PartLexemes(ps[1..]) + [Tok(end)];
      match ps[0]
      case Attribute(k, v) => {
        assert PartLexemes(ps) + [Tok(end)] == [Tok(Name(k))] + ([Tok(EqualsSign)] + ([Tok(Quoted(v))] + tail));
        ReadsTok(s, Name(k), [Tok(EqualsSign)] + ([Tok(Quoted(v))] + tail), r);
        var r1 := ReadToken(s).rest;
        ReadsTok(r1, EqualsSign, [Tok(Quoted(v))] + tail, r);
        var r2 := ReadToken(r1).rest;
        ReadsTok(r2, Quoted(v), tail, r);
        PartsParsed(ps[1..], ReadToken(r2).rest, PutMember(done, k, v), end, r);
      }
      case Stray(t) => {
        assert PartLexemes(ps) + [Tok(end)] == [Tok(t)] + tail;
        ReadsTok(s, t, tail, r);
        assert LegalPart(ps[0]);
        PartsParsed(ps[1..], ReadToken(s).rest, done, end, r);
      }
    }
  }

  lemma {:induction false} TreeParsed(t: Tree, s: Text, r: Text)
    requires LegalTree(t) && Reads(s, Lexemes(t), r)
    ensures ParseElement(s) == Done(Means(t), r)
    decreases t
  {
    hide ReadToken, Reads, ParseAttributes, ParseContent, PartLexemes, Entered, ItemLexemes, AllMean, LegalItems, LegalParts;
    var more := PartLexemes(t.parts) + BodyLexemes(t.kind, t.body);
    ReadsTok(s, Name(t.kind), more, r);
    var r1 := ReadToken(s).rest;
    match t.body
    case Closed => {
      PartsParsed(t.parts, r1, [], EmptyTagEnd, r);
    }
    case Open(items) => {
      var close := [Tok(Name(t.kind)), Tok(TagEnd)];
      assert more == (PartLexemes(t.parts) + [Tok(TagEnd)]) + (ItemLexemes(items) + close);
      var r2 := ReadsApart(r1, PartLexemes(t.parts) + [Tok(TagEnd)], ItemLexemes(items) + close, r);
      PartsParsed(t.parts, r1, [], TagEnd, r2);
      var r3 := ReadsApart(r2, ItemLexemes(items), close, r);
      ItemsParsed(items, r2, r3);
      CloseParsed(Element(t.kind, Entered([], t.parts), AllMean(items)), r3, r);
    }
  }

  lemma CloseParsed(e: Element, s: Text, r: Text)
    ensures CloseElement(e, s) == Done(e, r) <==> Reads(s, [Tok(Name(e.kind)), Tok(TagEnd)], r)
  {
    hide ReadToken, Reads;
    assert [Tok(Name(e.kind)), Tok(TagEnd)] == [Tok(Name(e.kind))] + ([Tok(TagEnd)] + []);
    ReadsTok(s, Name(e.kind), [Tok(TagEnd)] + [], r);
    if ReadToken(s).Got? {
      var r1 := ReadToken(s).rest;
      ReadsTok(r1, TagEnd, [], r);
      if ReadToken(r1).Got? { ReadsNothing(ReadToken(r1).rest, r); }
    }
  }

  lemma {:induction false} ItemsParsed(items: seq<Item>, s: Text, r: Text)
    requires LegalItems(items) && Reads(s, ItemLexemes(items), r)
    ensures ParseContent(s) == Done(AllMean(items), r)
    decreases items
  {
    hide ReadToken, Reads, ParseElement, LegalItem, ItemMeans, ItemLexeme, ParseWords, SkipSpace;
    if items == [] {
      assert ItemLexemes(items) == [Tok(EndTagBegin)] + [];
      ReadsTok(s, EndTagBegin, [], r);
      ReadsNothing(ReadToken(s).rest, r);
    } else {
      var m := ReadsApart(s, ItemLexeme(items[0]), ItemLexemes(items[1..]), r);
      ItemsParsed(items[1..], m, r);
      ItemParsed(items[0], s, m);
    }
  }

  lemma {:induction false} ItemParsed(i: Item, s: Text, r: Text)
    requires LegalItem(i) && Reads(s, ItemLexeme(i), r)
    ensures ParseContent(s) == Cons(ItemMeans(i), ParseContent(r))
    decreases i
  {
    hide ReadToken, Reads, ParseElement, ParseContent, LegalTree, Means, Lexemes;
    match i
    case Sub(t) => {
      ReadsTok(s, StartTagBegin, Lexemes(t), r);
      var r1 := ReadToken(s).rest;
      TreeParsed(t, r1, r);
      ChildParsed(s);
    }
    case Text(x) => {
      RunsOnly(s, x, r);
      WordsAt(s, x, r);
    }
  }

  lemma ChildParsed(s: Text)
    requires ReadToken(s).Got? && ReadToken(s).token.StartTagBegin? && ParseElement(ReadToken(s).rest).Done?
    ensures var p := ParseElement(ReadToken(s).rest); ParseContent(s) == Cons(Child(p.value), ParseContent(p.rest))
  {
    hide ReadToken, ParseElement;
  }

  lemma RunsOnly(s: Text, x: Text, r: Text)
    ensures Reads(s, [Run(x)], r) <==> RunRead(s, x, r)
  {
    hide RunRead;
    assert [Run(x)][1..] == [];
    if RunRead(s, x, r) { assert Reads(r, [], r); }
  }

  lemma WordsAt(s: Text, x: Text, r: Text)
    requires RunRead(s, x, r)
    ensures ParseContent(s) == Cons(Words(x), ParseContent(r)) && |r| < |s|
  {
    hide ReadToken, SkipSpace, Unescape, ParseElement, ParseContent, RunRead;
    RunExactly(s, x, r);
    AtWords(s);
    var u := if ReadToken(s).Got? then s else SkipSpace(s);
    assert |u| <= |s|;
    assert ParseWords(u) == Cons(Words(x), ParseContent(r));
  }

  // ---- whatever is parsed is a tree ----

  lemma {:induction false} PartsFound(s: Text, done: seq<Member<Text>>) returns (ps: seq<Part>)
    requires ParseAttributes(s, done).Opened?
    ensures var o := ParseAttributes(s, done);
            && LegalParts(ps) && Entered(done, ps) == o.attributes
            && Reads(s, PartLexemes(ps) + [Tok(if o.open then TagEnd else EmptyTagEnd)], o.rest)
    decreases |s|
  {
    hide ReadToken, Reads, PutMember;
    var o := ParseAttributes(s, done);
    var end := if o.open then TagEnd else EmptyTagEnd;
    var t, r1 := ReadToken(s).token, ReadToken(s).rest;
    if TagEnding(t) {
      ps := [];
      assert PartLexemes(ps) + [Tok(end)] == [Tok(end)] + [];
      ReadsNothing(r1, r1);
      ReadsTok(s, t, [], r1);
    } else if t.Name? {
      var r2 := ReadToken(r1).rest;
      var v, r3 := ReadToken(r2).token.value, ReadToken(r2).rest;
      var more := PartsFound(r3, PutMember(done, t.value, v));
      ps := [Attribute(t.value, v)] + more;
      assert ps[1..] == more;
      var tail := PartLexemes(more) + [Tok(end)];
      assert PartLexemes(ps) + [Tok(end)] == [Tok(t)] + ([Tok(EqualsSign)] + ([Tok(Quoted(v))] + tail));
      ReadsTok(r2, Quoted(v), tail, o.rest);
      ReadsTok(r1, EqualsSign, [Tok(Quoted(v))] + tail, o.rest);
      ReadsTok(s, t, [Tok(EqualsSign)] + ([Tok(Quoted(v))] + tail), o.rest);
    } else {
      var more := PartsFound(r1, done);
      ps := [Stray(t)] + more;
      assert ps[1..] == more;
      var tail := PartLexemes(more) + [Tok(end)];
      assert PartLexemes(ps) + [Tok(end)] == [Tok(t)] + tail;
      ReadsTok(s, t, tail, o.rest);
    }
  }

  lemma {:induction false} TreeFound(s: Text) returns (t: Tree)
    requires ParseElement(s).Done?
    ensures LegalTree(t) && Means(t) == ParseElement(s).value && Reads(s, Lexemes(t), ParseElement(s).rest)
    decreases |s|
  {
    hide ReadToken, Reads, ParseAttributes, ParseContent, PartLexemes, Entered, ItemLexemes, AllMean, LegalItems, LegalParts, CloseElement;
    var kind, r1 := ReadToken(s).token.value, ReadToken(s).rest;
    var ps := PartsFound(r1, []);
    var o := ParseAttributes(r1, []);
    var r := ParseElement(s).rest;
    if o.open {
      var items := ItemsFound(o.rest);
      var p := ParseContent(o.rest);
      t := Tree(kind, ps, Open(items));
      var close := [Tok(Name(kind)), Tok(TagEnd)];
      CloseParsed(Element(kind, o.attributes, p.value), p.rest, r);
      CloseKeeps(Element(kind, o.attributes, p.value), p.rest);
      ReadsOn(o.rest, ItemLexemes(items), p.rest, close, r);
      ReadsOn(r1, PartLexemes(ps) + [Tok(TagEnd)], o.rest, ItemLexemes(items) + close, r);
      assert Lexemes(t) == [Tok(Name(kind))] + ((PartLexemes(ps) + [Tok(TagEnd)]) + (ItemLexemes(items) + close));
      ReadsTok(s, Name(kind), (PartLexemes(ps) + [Tok(TagEnd)]) + (ItemLexemes(items) + close), r);
    } else {
      t := Tree(kind, ps, Closed);
      assert Lexemes(t) == [Tok(Name(kind))] + (PartLexemes(ps) + [Tok(EmptyTagEnd)]);
      ReadsTok(s, Name(kind), PartLexemes(ps) + [Tok(EmptyTagEnd)], r);
    }
  }

  lemma CloseKeeps(e: Element, s: Text)
    ensures CloseElement(e, s).Done? ==> CloseElement(e, s).value == e
  {
  }

  lemma {:induction false} ItemsFound(s: Text) returns (items: seq<Item>)
    requires ParseContent(s).Done?
    ensures LegalItems(items) && AllMean(items) == ParseContent(s).value && Reads(s, ItemLexemes(items), ParseContent(s).rest)
    decreases |s|
  {
    hide ReadToken, Reads, ParseElement, SkipSpace, Lexemes, Means, LegalTree, Span, Unescape;
    var q := ParseContent(s);
    if ReadToken(s).Got? && ReadToken(s).token.EndTagBegin? {
      items := [];
      ReadsNothing(q.rest, q.rest);
      ReadsTok(s, EndTagBegin, [], q.rest);
      assert ItemLexemes(items) == [Tok(EndTagBegin)] + [];
    } else {
      var i, m;
      if ReadToken(s).Got? && ReadToken(s).token.StartTagBegin? {
        var r1 := ReadToken(s).rest;
        var t := TreeFound(r1);
        i, m := Sub(t), ParseElement(r1).rest;
        ReadsTok(s, StartTagBegin, Lexemes(t), m);
      } else {
        var u := if ReadToken(s).Got? then s else SkipSpace(s);
        var n := Span(u, {LT});
        i, m := Text(Unescape(u[..n])), u[n..];
        RunExactly(s, i.text, m);
        RunsOnly(s, i.text, m);
      }
      var more := ItemsFound(m);
      items := [i] + more;
      assert items[1..] == more;
      ReadsOn(s, ItemLexeme(i), m, ItemLexemes(more), q.rest);
    }
  }

  /**
   The parser accepts the text of an element if and only if it starts with the lexemes of a tree; what it
   makes of it is what the tree means, and it reads no further.
   */
  lemma ElementExactly(s: Text, e: Element, r: Text)
    ensures ParseElement(s) == Done(e, r) <==> exists t :: LegalTree(t) && Means(t) == e && Reads(s, Lexemes(t), r)
  {
    hide ParseElement, Reads, Lexemes, Means, LegalTree;
    if ParseElement(s) == Done(e, r) {
      var t := TreeFound(s);
    }
    if t :| LegalTree(t) && Means(t) == e && Reads(s, Lexemes(t), r) {
      TreeParsed(t, s, r);
    }
  }

  // ---- processing instructions and the whole text ----

  ghost predicate Starts(s: Text, r: Text) {
    exists g :: Skips(s, g, r)
  }

  ghost predicate NoStop(x: Text) {
    forall i :: 0 <= i < |x| ==> x[i] !in Ascii("\r\n?")
  }

  /**
   The rest of a processing instruction. Behind a line break, and behind a question mark that does not
   end it, white space and comments are skipped before the end is looked for.
   */
  ghost predicate Instruction(s: Text, r: Text)
    decreases |s|
  {
    || (exists x :: NoStop(x) && s == x + (Ascii("?>") + r))
    || (exists x, c, v, u :: Halt(s, x, c, v) && Starts(v, u) && |u| < |s| && Instruction(u, r))
  }

  ghost predicate Halt(s: Text, x: Text, c: Byte, v: Text) {
    NoStop(x) && c in Ascii("\r\n?") && s == x + ([c] + v) && !(c == Ascii("?")[0] && Ascii(">") <= v)
  }

  ghost predicate Prologue(s: Text, r: Text)
    decreases |s|
  {
    if Ascii("<?") <= s then exists w, u :: Instruction(s[2..], w) && Starts(w, u) && |u| < |s| && Prologue(u, r) else s == r
  }

  lemma StopIs(c: Byte)
    ensures c in Ascii("\r\n?") <==> c in {CR, LF, QUERY}
  {
    assert Ascii("\r\n?") == [CR, LF, QUERY];
  }

  lemma StopAt(s: Text, x: Text, rest: Text)
    requires NoStop(x) && s == x + rest && rest != [] && rest[0] in Ascii("\r\n?")
    ensures Span(s, {CR, LF, QUERY}) == |x| && s[|x|..] == rest
  {
    hide Span;
    forall i | 0 <= i < |x| ensures x[i] !in {CR, LF, QUERY} { StopIs(x[i]); }
    StopIs(rest[0]);
    SpanOver(x, rest, {CR, LF, QUERY});
  }

  lemma EndsHere(s: Text, x: Text, r: Text)
    requires NoStop(x) && s == x + (Ascii("?>") + r)
    ensures SkipInstruction(s) == Some(r)
  {
    hide Span, SkipSpace, NoStop;
    Delimiters();
    StopIs(QUERY);
    var rest := Ascii("?>") + r;
    StopAt(s, x, rest);
    assert rest[0] == QUERY && rest[1] == GT && rest[2..] == r;
    assert s[|x|] == rest[0] && s[|x| + 1] == rest[1] && s[|x| + 2..] == rest[2..];
  }

  lemma GoesOn(s: Text, x: Text, c: Byte, v: Text)
    requires Halt(s, x, c, v)
    ensures SkipInstruction(s) == SkipInstruction(SkipSpace(v))
  {
    hide Span, SkipSpace, NoStop;
    Delimiters();
    var rest := [c] + v;
    StopAt(s, x, rest);
    StopIs(c);
    assert s[|x|] == rest[0] && s[|x| + 1..] == rest[1..] == v;
    if c == QUERY && v != [] { assert s[|x| + 1] == v[0] && v[..1] == [v[0]]; }
  }

  lemma {:induction false} InstructionRead(s: Text, r: Text)
    requires Instruction(s, r)
    ensures SkipInstruction(s) == Some(r)
    decreases |s|
  {
    hide SkipInstruction, SkipSpace, Instruction, NoStop, Halt, Skips;
    InstructionCases(s, r);
    if x :| NoStop(x) && s == x + (Ascii("?>") + r) {
      EndsHere(s, x, r);
    } else {
      var x, c, v, u :| Halt(s, x, c, v) && Starts(v, u) && |u| < |s| && Instruction(u, r);
      GoesOn(s, x, c, v);
      SpaceExactly(v, u);
      InstructionRead(u, r);
    }
  }

  lemma InstructionCases(s: Text, r: Text)
    ensures Instruction(s, r) <==>
              || (exists x :: NoStop(x) && s == x + (Ascii("?>") + r))
              || (exists x, c, v, u :: Halt(s, x, c, v) && Starts(v, u) && |u| < |s| && Instruction(u, r))
  {
    hide NoStop, Halt, Starts;
  }

  lemma {:induction false} InstructionFound(s: Text)
    requires SkipInstruction(s).Some?
    ensures Instruction(s, SkipInstruction(s).value)
    decreases |s|
  {
    hide SkipInstruction, SkipSpace, Instruction, NoStop, Halt, Skips;
    Delimiters();
    var x, c, v := InstructionHead(s);
    var r := SkipInstruction(s).value;
    if c == QUERY && v != [] && v[0] == GT {
      assert [c] + v == Ascii("?>") + r;
    } else {
      var u := SkipSpace(v);
      SpaceExactly(v, u);
      NotEnded(s, x, c, v);
      InstructionFound(u);
    }
    InstructionCases(s, r);
  }

  lemma InstructionHead(s: Text) returns (x: Text, c: Byte, v: Text)
    requires SkipInstruction(s).Some?
    ensures NoStop(x) && c in {CR, LF, QUERY} && s == x + ([c] + v) && |v| < |s|
    ensures SkipInstruction(s) == if c == QUERY && v != [] && v[0] == GT then Some(v[1..]) else SkipInstruction(SkipSpace(v))
  {
    hide SkipSpace, NoStop;
    var n := Span(s, {CR, LF, QUERY});
    Stopped(s);
    x, c, v := s[..n], s[n], s[n + 1..];
    if n + 1 < |s| { assert s[n + 1] == v[0] && s[n + 2..] == v[1..]; }
  }

  lemma Stopped(s: Text)
    ensures NoStop(s[..Span(s, {CR, LF, QUERY})])
  {
    hide Span;
    var n := Span(s, {CR, LF, QUERY});
    forall i | 0 <= i < n ensures s[..n][i] !in Ascii("\r\n?") { StopIs(s[i]); }
  }

  lemma NotEnded(s: Text, x: Text, c: Byte, v: Text)
    requires NoStop(x) && c in {CR, LF, QUERY} && s == x + ([c] + v) && !(c == QUERY && v != [] && v[0] == GT)
    ensures Halt(s, x, c, v)
  {
    hide NoStop;
    Delimiters();
    StopIs(c);
  }

  /** What the parser skips behind `<?` is the rest of an instruction. */
  lemma InstructionExactly(s: Text, r: Text)
    ensures SkipInstruction(s) == Some(r) <==> Instruction(s, r)
  {
    if SkipInstruction(s) == Some(r) { InstructionFound(s); }
    if Instruction(s, r) { InstructionRead(s, r); }
  }

  lemma {:induction false} PrologueExactly(s: Text, r: Text)
    ensures SkipInstructions(s) == Some(r) <==> Prologue(s, r)
    decreases |s|
  {
    hide SkipInstruction, SkipSpace, Instruction, Starts;
    Delimiters();
    if Ascii("<?") <= s {
      var i := SkipInstruction(s[2..]);
      assert s[0] == LT && s[1] == QUERY;
      forall w, u ensures Instruction(s[2..], w) && Starts(w, u) <==> i == Some(w) && SkipSpace(w) == u {
        InstructionExactly(s[2..], w);
        StartsExactly(w, u);
      }
      if i.Some? {
        var u := SkipSpace(i.value);
        assert Instruction(s[2..], i.value) && Starts(i.value, u);
        PrologueExactly(u, r);
      }
    } else if |s| > 1 {
      assert s[..2] == [s[0], s[1]];
    }
  }

  lemma StartsExactly(s: Text, r: Text)
    ensures Starts(s, r) <==> SkipSpace(s) == r
  {
    SpaceExactly(s, r);
  }

  /** The parser accepts a text if and only if, after the instructions, it starts with the lexemes of a tree. */
  lemma DocumentExactly(s: Text, e: Element, r: Text)
    ensures Parse(s) == Done(e, r)
            <==> exists u, v, t :: Starts(s, u) && Prologue(u, v) && LegalTree(t) && Means(t) == e
                                   && Reads(v, [Tok(StartTagBegin)] + Lexemes(t), r)
  {
    hide SkipInstructions, SkipSpace, ReadToken, ParseElement, Reads, Lexemes, Means, LegalTree, Prologue, Starts;
    var u := SkipSpace(s);
    StartsExactly(s, u);
    if Parse(s) == Done(e, r) {
      var v := SkipInstructions(u).value;
      PrologueExactly(u, v);
      ElementExactly(ReadToken(v).rest, e, r);
      var t :| LegalTree(t) && Means(t) == e && Reads(ReadToken(v).rest, Lexemes(t), r);
      ReadsTok(v, StartTagBegin, Lexemes(t), r);
    }
    if u', v, t :| Starts(s, u') && Prologue(u', v) && LegalTree(t) && Means(t) == e && Reads(v, [Tok(StartTagBegin)] + Lexemes(t), r) {
      StartsExactly(s, u');
      PrologueExactly(u, v);
      ReadsTok(v, StartTagBegin, Lexemes(t), r);
      TreeParsed(t, ReadToken(v).rest, r);
    }
  }

  // ---- examples ----

  lemma ThirtyFive()
    ensures AllDigits(Ascii("35")) && Decimal(Ascii("35")) == 35 && Utf8(35) == Ascii("#")
  {
    hide Digit, Decimal;
    var d := Ascii("35");
    DigitIs(d[0]);
    DigitIs(d[1]);
    DecimalOfTwo(d);
  }

  lemma DecimalOfTwo(d: Text)
    requires AllDigits(d) && |d| == 2
    ensures Decimal(d) == (d[0] - Ascii("0")[0]) * 10 + (d[1] - Ascii("0")[0])
  {
    hide Digit;
    var one := d[..1];
    assert one[..0] == [] && Decimal(one[..0]) == 0;
    assert Decimal(one) == d[0] - Ascii("0")[0];
  }

  /** A text of the unit test: a named reference, a number, and an ampersand that starts neither. */
  lemma TestText()
    ensures Unescape(Ascii("test&amp;test&#35;&#")) == Ascii("test&test#&#")
  {
    hide Unescape, Ascii;
    TestPieces();
    Delimiters();
    TestEnd();
    PlainText(Ascii("test"), Ascii("&#35;&#"));
    PredefinedEntities(Ascii("test") + Ascii("&#35;&#"));
    PlainText(Ascii("test"), Ascii("&amp;") + (Ascii("test") + Ascii("&#35;&#")));
  }

  lemma TestEnd()
    ensures Unescape(Ascii("&#35;&#")) == Ascii("#") + Ascii("&#")
  {
    hide Unescape, Ascii;
    TestPieces();
    Delimiters();
    ThirtyFive();
    NoSemicolon(Ascii("&#"));
    DecimalReference(Ascii("35"), Ascii("&#"));
  }

  lemma TestPieces()
    ensures AMP !in Ascii("test") && SEMI !in Ascii("&#")
    ensures Ascii("&#35;&#") == Ascii("&#") + Ascii("35") + Ascii(";") + Ascii("&#")
    ensures Ascii("test&amp;test&#35;&#") == Ascii("test") + (Ascii("&amp;") + (Ascii("test") + Ascii("&#35;&#")))
    ensures Ascii("test&test#&#") == Ascii("test") + (Ascii("&") + (Ascii("test") + (Ascii("#") + Ascii("&#"))))
  {
  }

  lemma {:induction false} PlainText(x: Text, rest: Text)
    requires AMP !in x
    ensures Unescape(x + rest) == x + Unescape(rest)
  {
    hide Unescape;
    if x == [] {
      assert x + rest == rest;
    } else {
      PlainText(x[1..], rest);
      PlainChar(x[0], x[1..] + rest);
      assert x + rest == [x[0]] + (x[1..] + rest);
    }
  }

  /** A printed element: a space before each attribute, double quotes, and no white space anywhere else. */
  lemma Layout()
    ensures Print(Element(Ascii("a"), [Member(Ascii("k"), Ascii("v"))], [Words(Ascii("&")), Child(Element(Ascii("b"), [], []))]))
            == Ascii("<a k=\"v\">&amp;<b/></a>")
  {
    hide Escape, PrintContent;
    LayoutParts(Ascii("v"), Ascii("&"));
    var k, b := Member(Ascii("k"), Ascii("v")), Element(Ascii("b"), [], []);
    assert [k][1..] == [];
    assert PrintAttributes([k]) == PrintAttribute(k) + [];
    LayoutContent(b);
    LayoutPieces();
  }

  lemma LayoutContent(b: Element)
    requires b == Element(Ascii("b"), [], [])
    ensures PrintContent([Words(Ascii("&")), Child(b)]) == Ascii("&amp;") + (Ascii("<b/>") + [])
  {
    hide Escape;
    LayoutParts(Ascii("v"), Ascii("&"));
    var ns := [Words(Ascii("&")), Child(b)];
    assert ns[1..] == [Child(b)] && ns[1..][1..] == [];
    assert PrintAttributes([]) == [];
    assert Tail(b) == Ascii("b") + ([] + [SLASH, GT]);
    assert Print(b) == [LT] + (Ascii("b") + ([] + [SLASH, GT]));
    assert Ascii("<b/>") == [LT] + (Ascii("b") + ([] + [SLASH, GT]));
    assert PrintContent(ns[1..]) == PrintNode(Child(b)) + [] && PrintNode(Child(b)) == Print(b);
    assert PrintContent(ns) == PrintNode(ns[0]) + PrintContent(ns[1..]) && PrintNode(ns[0]) == Escape(Ascii("&"));
  }

  lemma LayoutParts(v: Text, a: Text)
    requires v == Ascii("v") && a == Ascii("&")
    ensures Escape(v) == v && Escape(a) == Ascii("&amp;")
  {
    hide Escape, XmlText.Escape1;
    OneEscaped(0x76);
    OneEscaped(AMP);
    EscapesSpelled();
    LetterKept();
    assert v == [0x76] && a == [AMP];
  }

  lemma LetterKept()
    ensures XmlText.Escape1(0x76) == [0x76]
  {
  }

  lemma OneEscaped(c: Byte)
    ensures Escape([c]) == XmlText.Escape1(c)
  {
    assert [c][..0] == [] && Escape([]) == [];
  }

  lemma LayoutPieces()
    ensures [LT] + (Ascii("a")
                    + (([SPACE] + (Ascii("k") + ([EQUALS] + ([QUOTE] + (Ascii("v") + [QUOTE]))))) + []
                       + ([GT] + ((Ascii("&amp;") + (Ascii("<b/>") + [])) + ([LT, SLASH] + (Ascii("a") + [GT]))))))
            == Ascii("<a k=\"v\">&amp;<b/></a>")
  {
  }
}
