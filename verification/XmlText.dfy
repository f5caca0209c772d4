/**
 XML as text: what the lexer, the parser and the printer compute, as functions, and the proof that
 parsing undoes printing. The methods of `Xml` compute these functions.
 */
module XmlText {
  import opened Basics
  import opened Unicode
  import opened Texts

  datatype Element = Element(kind: Text, attributes: seq<Member<Text>>, content: seq<Node>)

  /** A child, a text, or the null variant, which prints as nothing. */
  datatype Node = Child(element: Element) | Words(text: Text) | Nothing

  const AMP: Byte := 0x26
  const APOS: Byte := 0x27
  const SEMI: Byte := 0x3B
  const HASH: Byte := 0x23
  const LT: Byte := 0x3C
  const GT: Byte := 0x3E
  const EQUALS: Byte := 0x3D
  const SLASH: Byte := 0x2F
  const DASH: Byte := 0x2D
  const SPACE: Byte := 0x20
  const QUERY: Byte := 0x3F

  // ---- escapes ----

  const ESCAPE_CHARS: Text := [APOS, QUOTE, AMP, LT, GT]

  const ESCAPE_NAMES: seq<Text> := [
    [0x61, 0x70, 0x6F, 0x73], [0x71, 0x75, 0x6F, 0x74], [0x61, 0x6D, 0x70], [0x6C, 0x74], [0x67, 0x74]
  ]

  /** The place of a character in the table of those to be escaped, 5 for any other. */
  function CharPlace(c: Byte): (j: nat)
    ensures j <= 5 && (j < 5 ==> ESCAPE_CHARS[j] == c) && (j == 5 ==> c !in ESCAPE_CHARS)
  {
    if c == APOS then 0 else if c == QUOTE then 1 else if c == AMP then 2 else if c == LT then 3 else if c == GT then 4 else 5
  }

  function Escape1(c: Byte): Text {
    if CharPlace(c) < 5 then [AMP] + ESCAPE_NAMES[CharPlace(c)] + [SEMI] else [c]
  }

  function Escape(s: Text): Text {
    if s == [] then [] else Escape(s[..|s| - 1]) + Escape1(s[|s| - 1])
  }

  /** A `%u` of `scanf`: white space, a sign, digits; the value saturates at 64 bits and is cut to 32. */
  function ScanUnsigned(s: Text): Option<nat> {
    var t := TrimStart(s);
    var signed := t != [] && (t[0] == 0x2B || t[0] == DASH);
    var d := if signed then t[1..] else t;
    if d == [] || !IsDigit(d[0]) then None
    else
      var v: int := DigitsValue(d, 0);
      if v >= 0x1_0000_0000_0000_0000 then Some(0xFFFF_FFFF)
      else Some((if signed && t[0] == DASH then -v else v) % 0x1_0000_0000)
  }

  /** The place of a name in the table, 5 for any other. */
  function NamePlace(name: Text): (j: nat)
    ensures j <= 5 && (j < 5 ==> ESCAPE_NAMES[j] == name) && (j == 5 ==> name !in ESCAPE_NAMES)
  {
    if name == ESCAPE_NAMES[0] then 0 else if name == ESCAPE_NAMES[1] then 1 else if name == ESCAPE_NAMES[2] then 2
    else if name == ESCAPE_NAMES[3] then 3 else if name == ESCAPE_NAMES[4] then 4 else 5
  }

  /** The characters that stand for what is between an ampersand and a semicolon. */
  function Entity(e: Text): Option<Text> {
    if e != [] && e[0] == HASH then
      match ScanUnsigned(e[1..])
      case None => None
      case Some(v) => Some(if v < 0x110000 then Utf8(v) else [])
    else if NamePlace(e) < 5 then Some([ESCAPE_CHARS[NamePlace(e)]])
    else None
  }

  function Unescape(s: Text): Text
    decreases |s|
  {
    if s == [] then []
    else if s[0] != AMP then [s[0]] + Unescape(s[1..])
    else
      var t := s[1..];
      var n := Span(t, {SEMI});
      if n == |t| || Entity(t[..n]).None? then [AMP] + Unescape(t)
      else Entity(t[..n]).value + Unescape(t[n + 1..])
  }

  /** What stands for an entity is never longer than the entity with its two delimiters. */
  lemma EntityShrinks(e: Text)
    ensures Entity(e).Some? ==> |Entity(e).value| <= |e| + 2
  {
    if e != [] && e[0] == HASH && Entity(e).Some? {
      hide Utf8, DigitsValue;
      assert |TrimStart(e[1..])| <= |e| - 1;
    }
  }

  lemma {:induction false} EscapeFirst(s: Text)
    requires s != []
    ensures Escape(s) == Escape1(s[0]) + Escape(s[1..])
  {
    hide Escape1;
    var n := |s| - 1;
    if n > 0 {
      EscapeFirst(s[..n]);
      assert s[..n][1..] == s[1..][..n - 1] && s[1..][n - 1] == s[n] && s[..n][0] == s[0];
    } else {
      assert s[..0] == [] && s[1..] == [];
    }
  }

  /** A character to be escaped comes back from its entity. */
  lemma EntityBack(c: Byte, rest: Text)
    requires CharPlace(c) < 5
    ensures Unescape(Escape1(c) + rest) == [c] + Unescape(rest)
  {
    hide Unescape, Span;
    var j := CharPlace(c);
    var name, s := ESCAPE_NAMES[j], Escape1(c) + rest;
    var t := name + ([SEMI] + rest);
    assert s[1..] == t && s[0] == AMP;
    assert name[0] != HASH && NamePlace(name) == j;
    assert SEMI !in name;
    SpanOver(name, [SEMI] + rest, {SEMI});
    assert t[|name| + 1..] == rest;
    AtAmp(s, name, rest);
  }

  lemma AtAmp(s: Text, e: Text, rest: Text)
    requires s != [] && s[0] == AMP && Entity(e).Some?
    requires var t := s[1..]; Span(t, {SEMI}) == |e| && |e| < |t| && t[..|e|] == e && t[|e| + 1..] == rest
    ensures Unescape(s) == Entity(e).value + Unescape(rest)
  {
    hide Entity, Span;
  }

  /** Unescaping undoes escaping. */
  lemma {:induction false} UnescapeBack(s: Text)
    ensures Unescape(Escape(s)) == s
  {
    if s != [] {
      hide Unescape, Escape;
      EscapeFirst(s);
      UnescapeBack(s[1..]);
      if CharPlace(s[0]) < 5 {
        EntityBack(s[0], Escape(s[1..]));
      } else {
        PlainChar(s[0], Escape(s[1..]));
      }
    } else {
      assert Escape(s) == [];
    }
  }

  lemma PlainChar(c: Byte, rest: Text)
    requires c != AMP
    ensures Unescape([c] + rest) == [c] + Unescape(rest)
  {
    assert ([c] + rest)[1..] == rest;
  }

  /** Characters that never come out of an escape. */
  lemma {:induction false} EscapeHides(s: Text)
    ensures forall i :: 0 <= i < |Escape(s)| ==>
              Escape(s)[i] !in {APOS, QUOTE, LT, GT} && (Escape(s)[i] in {0, CR, LF} ==> Escape(s)[i] in s)
  {
    if s != [] {
      var n := |s| - 1;
      EscapeHides(s[..n]);
      Escape1Hides(s[n]);
      hide Escape1;
    }
  }

  lemma Escape1Hides(c: Byte)
    ensures forall i :: 0 <= i < |Escape1(c)| ==>
              Escape1(c)[i] !in {APOS, QUOTE, LT, GT} && (Escape1(c)[i] in {0, CR, LF} ==> Escape1(c)[i] == c)
  {
  }

  // ---- the lexer ----

  datatype Token =
    | StartTagBegin
    | TagEnd
    | EndTagBegin
    | EmptyTagEnd
    | EqualsSign
    | Quoted(value: Text)
    | Name(value: Text)

  datatype Read = Got(token: Token, rest: Text) | Bad

  const COMMENT_BEGIN: Text := [LT, 0x21, DASH, DASH]
  const COMMENT_END: Text := [DASH, DASH, GT]

  function SkipComment(s: Text): (r: Text)
    ensures |r| <= |s|
  {
    if s == [] then s else if COMMENT_END <= s then s[3..] else SkipComment(s[1..])
  }

  /** Past white space and comments; a comment without an end goes to the end of the text. */
  function SkipSpace(s: Text): (r: Text)
    ensures |r| <= |s| && (r != [] ==> !IsSpace(r[0]) && !(COMMENT_BEGIN <= r))
    decreases |s|
  {
    if s == [] then s
    else if IsSpace(s[0]) then SkipSpace(s[1..])
    else if COMMENT_BEGIN <= s then SkipSpace(SkipComment(s[4..]))
    else s
  }

  const NAME_STOPS: set<Byte> := {SLASH, GT, EQUALS, 9, 10, 11, 12, 13, 32}

  /** The next token, after white space and comments. */
  function ReadToken(s: Text): (r: Read)
    ensures r.Got? ==> |r.rest| < |s|
  {
    ReadAt(SkipSpace(s))
  }

  function ReadAt(s: Text): (r: Read)
    ensures r.Got? ==> |r.rest| < |s|
  {
    if s == [] then Bad
    else if s[0] == LT then if |s| > 1 && s[1] == SLASH then Got(EndTagBegin, s[2..]) else Got(StartTagBegin, s[1..])
    else if s[0] == GT then Got(TagEnd, s[1..])
    else if s[0] == EQUALS then Got(EqualsSign, s[1..])
    else if s[0] == QUOTE || s[0] == APOS then ReadQuoted(s[0], s[1..])
    else if s[0] == SLASH && |s| > 1 && s[1] == GT then Got(EmptyTagEnd, s[2..])
    else ReadName(s)
  }

  /** The string up to the closing quote, on one line. */
  function ReadQuoted(quote: Byte, s: Text): (r: Read)
    ensures r.Got? ==> |r.rest| < |s|
  {
    var n := Span(s, {quote, CR, LF});
    if n < |s| && s[n] == quote then Got(Quoted(Unescape(s[..n])), s[n + 1..]) else Bad
  }

  function ReadName(s: Text): (r: Read)
    ensures r.Got? ==> |r.rest| < |s|
  {
    var n := Span(s, NAME_STOPS);
    if n > 0 then Got(Name(s[..n]), s[n..]) else Bad
  }

  // ---- the parser ----

  /** `Endless` is a loop that makes no progress. */
  datatype Parsed<T> = Done(value: T, rest: Text) | Failed | Endless

  datatype Opening = Opened(attributes: seq<Member<Text>>, open: bool, rest: Text) | Unopened

  /** The rest of a start tag; tokens that are neither an attribute nor the end of the tag are skipped. */
  function ParseAttributes(s: Text, attributes: seq<Member<Text>>): (o: Opening)
    ensures o.Opened? ==> |o.rest| < |s|
    decreases |s|
  {
    match ReadToken(s)
    case Bad => Unopened
    case Got(t, r) =>
      if t.EmptyTagEnd? then Opened(attributes, false, r)
      else if t.TagEnd? then Opened(attributes, true, r)
      else if !t.Name? then ParseAttributes(r, attributes)
      else
        match ReadToken(r)
        case Bad => Unopened
        case Got(t1, r1) =>
          if !t1.EqualsSign? then Unopened
          else
            match ReadToken(r1)
            case Bad => Unopened
            case Got(t2, r2) =>
              if !t2.Quoted? then Unopened else ParseAttributes(r2, PutMember(attributes, t.value, t2.value))
  }

  /** An element whose first character, the bracket, is read. */
  function ParseElement(s: Text): (p: Parsed<Element>)
    ensures p.Done? ==> |p.rest| <= |s|
    decreases |s|, 1
  {
    match ReadToken(s)
    case Bad => Failed
    case Got(t, r) =>
      if !t.Name? then Failed
      else
        match ParseAttributes(r, [])
        case Unopened => Failed
        case Opened(attributes, open, r1) =>
          if !open then Done(Element(t.value, attributes, []), r1)
          else
            match ParseContent(r1)
            case Failed => Failed
            case Endless => Endless
            case Done(content, r2) => CloseElement(Element(t.value, attributes, content), r2)
  }

  /** The end tag, behind its bracket and slash. */
  function CloseElement(e: Element, s: Text): (p: Parsed<Element>)
    ensures p.Done? ==> |p.rest| <= |s|
  {
    match ReadToken(s)
    case Bad => Failed
    case Got(t, r) =>
      if t != Name(e.kind) then Failed
      else
        match ReadToken(r)
        case Bad => Failed
        case Got(t1, r1) => if t1.TagEnd? then Done(e, r1) else Failed
  }

  function Cons(n: Node, p: Parsed<seq<Node>>): Parsed<seq<Node>> {
    if p.Done? then Done([n] + p.value, p.rest) else p
  }

  /** Children and texts up to an end tag, whose bracket and slash are read. */
  function ParseContent(s: Text): (p: Parsed<seq<Node>>)
    ensures p.Done? ==> |p.rest| <= |s|
    decreases |s|, 1
  {
    match ReadToken(s)
    case Bad => ParseWords(SkipSpace(s))
    case Got(t, r) =>
      if t.EndTagBegin? then Done([], r)
      else if t.StartTagBegin? then
        match ParseElement(r)
        case Failed => Failed
        case Endless => Endless
        case Done(e, r1) => Cons(Child(e), ParseContent(r1))
      else ParseWords(s)
  }

  /** A text, up to a bracket. */
  function ParseWords(s: Text): (p: Parsed<seq<Node>>)
    ensures p.Done? ==> |p.rest| <= |s|
    decreases |s|, 0
  {
    var n := Span(s, {LT});
    if n == |s| then Failed
    else if n == 0 then Endless
    else Cons(Words(Unescape(s[..n])), ParseContent(s[n..]))
  }

  /** Past one processing instruction; a comment in it counts as its text after a line break or a question mark. */
  function SkipInstruction(s: Text): (r: Option<Text>)
    ensures r.Some? ==> |r.value| <= |s|
    decreases |s|
  {
    var n := Span(s, {CR, LF, QUERY});
    if n == |s| then None
    else if s[n] == QUERY && n + 1 < |s| && s[n + 1] == GT then Some(s[n + 2..])
    else SkipInstruction(SkipSpace(s[n + 1..]))
  }

  function SkipInstructions(s: Text): (r: Option<Text>)
    decreases |s|
  {
    if |s| > 1 && s[0] == LT && s[1] == QUERY then
      match SkipInstruction(s[2..])
      case None => None
      case Some(t) => SkipInstructions(SkipSpace(t))
    else Some(s)
  }

  /** The whole text, into an element that starts empty; whatever follows the element is not read. */
  function Parse(s: Text): Parsed<Element> {
    match SkipInstructions(SkipSpace(s))
    case None => Failed
    case Some(t) =>
      match ReadToken(t)
      case Bad => Failed
      case Got(token, r) => if token.StartTagBegin? then ParseElement(r) else Failed
  }

  // ---- the printer ----

  function Print(e: Element): Text
    decreases e, 1
  {
    [LT] + Tail(e)
  }

  /** An element without its first bracket. */
  function Tail(e: Element): Text
    decreases e, 0
  {
    e.kind + (PrintAttributes(e.attributes)
      + if e.content == [] then [SLASH, GT] else [GT] + (PrintContent(e.content) + ([LT, SLASH] + (e.kind + [GT]))))
  }

  function PrintAttribute(a: Member<Text>): Text {
    [SPACE] + (a.key + ([EQUALS] + ([QUOTE] + (Escape(a.value) + [QUOTE]))))
  }

  function PrintAttributes(ms: seq<Member<Text>>): Text {
    if ms == [] then [] else PrintAttribute(ms[0]) + PrintAttributes(ms[1..])
  }

  function PrintNode(n: Node): Text
    decreases n, 2
  {
    match n
    case Child(e) => Print(e)
    case Words(text) => Escape(text)
    case Nothing => []
  }

  function PrintContent(ns: seq<Node>): Text
    decreases ns
  {
    if ns == [] then [] else PrintNode(ns[0]) + PrintContent(ns[1..])
  }

  /** `<?xml version="1.0" encoding="UTF-8"?>` and a line break, without the first two and the last three characters. */
  const DECLARATION: Text := Ascii("xml version=\"1.0\" encoding=\"UTF-8\"")

  function Document(e: Element): Text {
    [LT, QUERY] + (DECLARATION + ([QUERY, GT, LF] + Print(e)))
  }

  // ---- which trees come back ----

  /** A name that the lexer reads as one. */
  predicate LegalName(s: Text) {
    s != [] && NoNul(s) && s[0] !in {LT, QUOTE, APOS} && forall i :: 0 <= i < |s| ==> s[i] !in NAME_STOPS
  }

  /** A name that does not turn the bracket before it into the start of a comment. */
  predicate LegalTag(s: Text) {
    LegalName(s) && !(COMMENT_BEGIN[1..] <= s)
  }

  predicate LegalAttributes(ms: seq<Member<Text>>) {
    forall i :: 0 <= i < |ms| ==> LegalName(ms[i].key) && OneLine(ms[i].value)
  }

  predicate OneLine(s: Text) {
    forall i :: 0 <= i < |s| ==> s[i] !in {0, CR, LF}
  }

  /** A text that is not all white space, with no slash behind the white space that it may start with. */
  predicate LegalText(s: Text) {
    NoNul(s) && TrimStart(s) != [] && (TrimStart(s) == s || TrimStart(s)[0] != SLASH)
  }

  predicate Legal(e: Element)
    decreases e
  {
    LegalTag(e.kind) && DistinctKeys(e.attributes) && LegalAttributes(e.attributes) && LegalContent(e.content)
  }

  predicate LegalContent(ns: seq<Node>)
    decreases ns
  {
    ns == [] || (LegalNode(ns[0]) && (ns[0].Words? && |ns| > 1 ==> !ns[1].Words?) && LegalContent(ns[1..]))
  }

  predicate LegalNode(n: Node)
    decreases n, 1
  {
    match n
    case Child(e) => Legal(e)
    case Words(text) => LegalText(text)
    case Nothing => false
  }

  // ---- tokens come back ----

  lemma NoSpace(s: Text)
    requires s != [] && !IsSpace(s[0]) && !(COMMENT_BEGIN <= s)
    ensures SkipSpace(s) == s && ReadToken(s) == ReadAt(s)
  {
    hide ReadAt;
  }

  lemma NameRead(k: Text, s: Text)
    requires LegalName(k) && s != [] && s[0] in NAME_STOPS
    ensures ReadToken(k + s) == Got(Name(k), s)
  {
    hide Span;
    var t := k + s;
    assert t[0] == k[0];
    assert k[0] !in NAME_STOPS && k[0] !in {LT, QUOTE, APOS};
    NoSpace(t);
    SpanOver(k, s, NAME_STOPS);
  }

  /** The bracket of a start tag. */
  lemma StartRead(k: Text, s: Text)
    requires LegalTag(k) && s != [] && s[0] in NAME_STOPS
    ensures ReadToken([LT] + (k + s)) == Got(StartTagBegin, k + s)
  {
    var u := [LT] + (k + s);
    assert u[1..] == k + s && u[1] == k[0] && k[0] != SLASH;
    if COMMENT_BEGIN <= u {
      NoComment(k, s);
      assert false;
    }
    NoSpace(u);
  }

  lemma NoComment(k: Text, s: Text)
    requires LegalTag(k) && s != [] && s[0] in NAME_STOPS
    ensures !(COMMENT_BEGIN <= [LT] + (k + s))
  {
    var u, i := [LT] + (k + s), |k|;
    assert u[1 + i] == s[0];
    if i >= 3 {
      assert u[1] == k[0] && u[2] == k[1] && u[3] == k[2];
      var c := COMMENT_BEGIN[1..];
      assert c == [0x21, DASH, DASH];
      assert k[..3] != c ==> k[0] != c[0] || k[1] != c[1] || k[2] != c[2];
      assert !(c <= k);
    }
  }

  lemma EndRead(s: Text)
    ensures ReadToken([LT, SLASH] + s) == Got(EndTagBegin, s)
  {
    var u := [LT, SLASH] + s;
    assert u[1] == SLASH && u[2..] == s;
    NoSpace(u);
  }

  lemma MarkRead(s: Text)
    ensures ReadToken([GT] + s) == Got(TagEnd, s)
    ensures ReadToken([EQUALS] + s) == Got(EqualsSign, s)
    ensures ReadToken([SLASH, GT] + s) == Got(EmptyTagEnd, s)
  {
    var u, v, w := [GT] + s, [EQUALS] + s, [SLASH, GT] + s;
    assert u[1..] == s && v[1..] == s && w[2..] == s;
    NoSpace(u);
    NoSpace(v);
    NoSpace(w);
  }

  lemma QuotedRead(value: Text, s: Text)
    requires OneLine(value)
    ensures ReadToken([QUOTE] + (Escape(value) + ([QUOTE] + s))) == Got(Quoted(value), s)
  {
    hide Span, Escape, Unescape;
    var t := Escape(value) + ([QUOTE] + s);
    var u := [QUOTE] + t;
    assert u[1..] == t;
    NoSpace(u);
    EscapeHides(value);
    SpanOver(Escape(value), [QUOTE] + s, {QUOTE, CR, LF});
    UnescapeBack(value);
    assert t[|Escape(value)| + 1..] == s;
  }

  // ---- attributes come back ----

  lemma AttributeText(a: Member<Text>, s: Text)
    ensures PrintAttribute(a) + s == [SPACE] + (a.key + ([EQUALS] + ([QUOTE] + (Escape(a.value) + ([QUOTE] + s)))))
  {
    hide Escape;
  }

  lemma AfterSpace(s: Text)
    ensures ReadToken([SPACE] + s) == ReadToken(s)
  {
    assert ([SPACE] + s)[1..] == s;
  }

  lemma AttributeBack(a: Member<Text>, done: seq<Member<Text>>, s: Text)
    requires LegalName(a.key) && OneLine(a.value)
    ensures ParseAttributes(PrintAttribute(a) + s, done) == ParseAttributes(s, PutMember(done, a.key, a.value))
  {
    hide ReadToken, Escape, PrintAttribute, PutMember;
    var quoted := [QUOTE] + (Escape(a.value) + ([QUOTE] + s));
    AttributeText(a, s);
    AfterSpace(a.key + ([EQUALS] + quoted));
    NameRead(a.key, [EQUALS] + quoted);
    MarkRead(quoted);
    QuotedRead(a.value, s);
  }

  lemma {:induction false} EscapeKeeps(s: Text, c: Byte)
    requires CharPlace(c) == 5
    ensures c in s ==> c in Escape(s)
  {
    if c in s {
      var n := |s| - 1;
      assert s == s[..n] + [s[n]];
      if c != s[n] { EscapeKeeps(s[..n], c); }
    }
  }

  /** A line break is not escaped, and the lexer refuses a string with one. */
  lemma LineBreakRefused(a: Member<Text>, done: seq<Member<Text>>, s: Text)
    requires LegalName(a.key) && NoNul(a.value) && !OneLine(a.value)
    ensures ParseAttributes(PrintAttribute(a) + s, done) == Unopened
  {
    hide ReadToken, Escape, PrintAttribute, PutMember;
    var quoted := [QUOTE] + (Escape(a.value) + ([QUOTE] + s));
    AttributeText(a, s);
    AfterSpace(a.key + ([EQUALS] + quoted));
    NameRead(a.key, [EQUALS] + quoted);
    MarkRead(quoted);
    BrokenString(a.value, s);
  }

  lemma BrokenString(value: Text, s: Text)
    requires NoNul(value) && !OneLine(value)
    ensures ReadToken([QUOTE] + (Escape(value) + ([QUOTE] + s))) == Bad
  {
    hide Span, Escape, Unescape;
    var e := Escape(value);
    var t := e + ([QUOTE] + s);
    var u := [QUOTE] + t;
    assert u[1..] == t;
    NoSpace(u);
    EscapeKeeps(value, CR);
    EscapeKeeps(value, LF);
    EscapeHides(value);
    assert CR in e || LF in e;
    var i :| 0 <= i < |e| && e[i] in {CR, LF};
    assert t[i] == e[i];
    var n := Span(t, {QUOTE, CR, LF});
    assert n <= i && t[n] == e[n];
  }

  lemma {:induction false} AttributesBack(ms: seq<Member<Text>>, done: seq<Member<Text>>, s: Text)
    requires LegalAttributes(ms) && NewKeys(done, ms)
    ensures ParseAttributes(PrintAttributes(ms) + s, done) == ParseAttributes(s, done + ms)
    decreases |ms|
  {
    hide ParseAttributes, PrintAttribute, PutMember;
    if ms == [] {
      assert PrintAttributes(ms) + s == s && done + ms == done;
    } else {
      var a := ms[0];
      PutNew(done, ms, a.value);
      assert a == Member(a.key, a.value);
      assert PrintAttributes(ms) + s == PrintAttribute(a) + (PrintAttributes(ms[1..]) + s);
      AttributeBack(a, done, PrintAttributes(ms[1..]) + s);
      AttributesBack(ms[1..], done + [a], s);
      assert done + [a] + ms[1..] == done + ms;
    }
  }

  // ---- texts come back ----

  /** White space stays as it is, and the lexer skips no more than it. */
  lemma {:induction false} EscapedSpace(t: Text, rest: Text)
    requires TrimStart(t) != []
    ensures SkipSpace(Escape(t) + rest) == Escape(TrimStart(t)) + rest
    decreases |t|
  {
    hide Escape, SkipSpace;
    var c := t[0];
    EscapeFirst(t);
    var s := Escape(t) + rest;
    var more := Escape(t[1..]) + rest;
    assert s == Escape1(c) + more;
    if IsSpace(c) {
      EscapedSpace(t[1..], rest);
      assert s == [c] + more;
      OneSpace(c, more);
    } else {
      assert s[0] == Escape1(c)[0] && !IsSpace(s[0]) && s[0] != LT;
      NoSpace(s);
    }
  }

  lemma OneSpace(c: Byte, s: Text)
    requires IsSpace(c)
    ensures SkipSpace([c] + s) == SkipSpace(s)
  {
    assert ([c] + s)[1..] == s;
  }

  /** The first character of an escaped text, and the one after it. */
  lemma EscapedStart(u: Text, rest: Text)
    requires u != [] && !IsSpace(u[0]) && rest != [] && rest[0] == LT
    ensures var s := Escape(u) + rest;
            s[0] !in {LT, GT, QUOTE, APOS} && (s[0] == SLASH <==> u[0] == SLASH) && !IsSpace(s[0])
            && (s[0] == SLASH ==> |s| > 1 && s[1] != GT)
  {
    hide Escape;
    EscapeFirst(u);
    EscapeHides(u);
    if u[0] == SLASH { SlashStart(u, rest); }
  }

  lemma SlashStart(u: Text, rest: Text)
    requires u != [] && u[0] == SLASH && rest != [] && rest[0] == LT
    ensures var s := Escape(u) + rest; |s| > 1 && s[0] == SLASH && s[1] != GT
  {
    hide Escape;
    EscapeFirst(u);
    EscapeHides(u[1..]);
    var s := Escape(u) + rest;
    assert s == [SLASH] + (Escape(u[1..]) + rest);
    assert s[1] == (Escape(u[1..]) + rest)[0];
  }

  /** What the attempt to read a token from a text leads to. */
  lemma NoTag(t: Text, rest: Text)
    requires TrimStart(t) != [] && rest != [] && rest[0] == LT
    ensures var s, u := Escape(t) + rest, TrimStart(t);
            match ReadToken(s)
            case Bad => u[0] == SLASH && SkipSpace(s) == Escape(u) + rest
            case Got(token, _) => u[0] != SLASH && !token.EndTagBegin? && !token.StartTagBegin?
  {
    hide Escape, SkipSpace, TrimStart, Span;
    var u := TrimStart(t);
    EscapedSpace(t, rest);
    TrimmedStart(t);
    EscapedStart(u, rest);
    var v := Escape(u) + rest;
    assert ReadToken(Escape(t) + rest) == ReadAt(v);
    if v[0] == SLASH {
      SpanIs(v, NAME_STOPS, 0);
    } else if v[0] != EQUALS {
      assert v[0] !in NAME_STOPS;
    }
  }

  lemma TrimmedStart(t: Text)
    requires TrimStart(t) != []
    ensures !IsSpace(TrimStart(t)[0])
  {
  }

  lemma SpanIs(s: Text, stops: set<Byte>, n: nat)
    requires n <= |s| && (n < |s| ==> s[n] in stops) && forall i :: 0 <= i < n ==> s[i] !in stops
    ensures Span(s, stops) == n
  {
  }

  lemma WordsParsed(t: Text, rest: Text)
    requires t != [] && rest != [] && rest[0] == LT
    ensures ParseWords(Escape(t) + rest) == Cons(Words(t), ParseContent(rest))
  {
    hide Escape, Unescape, Span, ParseContent;
    EscapeHides(t);
    SpanOver(Escape(t), rest, {LT});
    UnescapeBack(t);
    NotEmpty(t);
  }

  lemma NotEmpty(t: Text)
    requires t != []
    ensures Escape(t) != []
  {
    EscapeFirst(t);
  }

  /** A text followed by markup: it comes back whole unless the slash makes the white space go. */
  lemma WordsBack(t: Text, rest: Text)
    requires TrimStart(t) != [] && rest != [] && rest[0] == LT
    ensures var u := TrimStart(t);
            ParseContent(Escape(t) + rest) == Cons(Words(if u[0] == SLASH then u else t), ParseContent(rest))
  {
    hide Escape, SkipSpace, TrimStart, ReadToken, ParseWords;
    NoTag(t, rest);
    WordsParsed(TrimStart(t), rest);
    TrimmedEmpty(t);
    WordsParsed(t, rest);
    AtWords(Escape(t) + rest);
  }

  lemma TrimmedEmpty(t: Text)
    ensures TrimStart(t) != [] ==> t != []
  {
  }

  lemma AtWords(s: Text)
    ensures match ReadToken(s)
            case Bad => ParseContent(s) == ParseWords(SkipSpace(s))
            case Got(t, _) => !t.EndTagBegin? && !t.StartTagBegin? ==> ParseContent(s) == ParseWords(s)
  {
    hide ReadToken, SkipSpace;
  }

  // ---- elements come back ----

  /** What comes after the name of an element. */
  ghost function AfterName(e: Element, rest: Text): Text {
    PrintAttributes(e.attributes)
    + if e.content == [] then [SLASH, GT] + rest else [GT] + (PrintContent(e.content) + ([LT, SLASH] + (e.kind + ([GT] + rest))))
  }

  lemma TailText(e: Element, rest: Text)
    ensures Tail(e) + rest == e.kind + AfterName(e, rest)
    ensures AfterName(e, rest) != [] && AfterName(e, rest)[0] in NAME_STOPS
  {
    hide PrintContent, PrintAttribute;
    if e.attributes != [] { AttributeStart(e.attributes); }
    if e.content == [] {
      assert Tail(e) + rest == e.kind + AfterName(e, rest);
    } else {
      assert Tail(e) + rest == e.kind + AfterName(e, rest);
    }
  }

  lemma AttributeStart(ms: seq<Member<Text>>)
    requires ms != []
    ensures PrintAttributes(ms) != [] && PrintAttributes(ms)[0] == SPACE
  {
  }

  lemma CloseBack(e: Element, rest: Text)
    requires LegalName(e.kind)
    ensures CloseElement(e, e.kind + ([GT] + rest)) == Done(e, rest)
  {
    hide ReadToken;
    NameRead(e.kind, [GT] + rest);
    MarkRead(rest);
  }

  /** The start tag with its attributes. */
  lemma OpeningBack(e: Element, rest: Text)
    requires DistinctKeys(e.attributes) && LegalAttributes(e.attributes)
    ensures ParseAttributes(AfterName(e, rest), [])
            == if e.content == [] then Opened(e.attributes, false, rest)
               else Opened(e.attributes, true, PrintContent(e.content) + ([LT, SLASH] + (e.kind + ([GT] + rest))))
  {
    hide PrintContent, PrintAttributes, ReadToken, LegalAttributes;
    var inner := PrintContent(e.content) + ([LT, SLASH] + (e.kind + ([GT] + rest)));
    var end := if e.content == [] then [SLASH, GT] + rest else [GT] + inner;
    AttributesBack(e.attributes, [], end);
    assert [] + e.attributes == e.attributes;
    MarkRead(rest);
    MarkRead(inner);
  }

  /** A printed element parses back, before any text. */
  lemma {:induction false} ElementBack(e: Element, rest: Text)
    requires Legal(e)
    ensures ParseElement(Tail(e) + rest) == Done(e, rest)
    decreases e
  {
    hide ReadToken, ParseAttributes, ParseContent, Tail, AfterName, PrintContent, LegalAttributes, LegalContent, CloseElement, LegalName;
    var last := e.kind + ([GT] + rest);
    TailText(e, rest);
    NameRead(e.kind, AfterName(e, rest));
    OpeningBack(e, rest);
    if e.content != [] {
      ContentBack(e.content, last);
      CloseBack(e, rest);
    }
  }

  lemma FirstNode(ns: seq<Node>, last: Text)
    requires ns != [] && LegalContent(ns)
    ensures var rest := PrintContent(ns[1..]) + ([LT, SLASH] + last);
            && PrintContent(ns) + ([LT, SLASH] + last) == PrintNode(ns[0]) + rest
            && LegalNode(ns[0]) && LegalContent(ns[1..]) && rest != [] && (ns[0].Words? ==> rest[0] == LT)
  {
    hide LegalNode, Tail, Escape;
    if |ns| > 1 && ns[0].Words? { SecondNode(ns[1..]); }
  }

  lemma SecondNode(ns: seq<Node>)
    requires ns != [] && LegalContent(ns) && !ns[0].Words?
    ensures PrintContent(ns) != [] && PrintContent(ns)[0] == LT
  {
    hide Legal, Tail, Escape;
    assert PrintNode(ns[0]) == Print(ns[0].element);
    assert PrintContent(ns) == PrintNode(ns[0]) + PrintContent(ns[1..]);
  }

  /** A child before anything. */
  lemma ChildRead(e: Element, rest: Text)
    requires Legal(e) && ParseElement(Tail(e) + rest) == Done(e, rest)
    ensures ParseContent(Print(e) + rest) == Cons(Child(e), ParseContent(rest))
  {
    hide ReadToken, ParseElement, Tail, AfterName;
    TailText(e, rest);
    StartRead(e.kind, AfterName(e, rest));
    assert Print(e) + rest == [LT] + (Tail(e) + rest);
  }

  lemma {:induction false} ContentBack(ns: seq<Node>, last: Text)
    requires LegalContent(ns)
    ensures ParseContent(PrintContent(ns) + ([LT, SLASH] + last)) == Done(ns, last)
    decreases ns
  {
    hide ParseContent, LegalContent, LegalNode, PrintContent, PrintNode;
    if ns == [] {
      NoContent(last);
    } else {
      var rest := PrintContent(ns[1..]) + ([LT, SLASH] + last);
      FirstNode(ns, last);
      ContentBack(ns[1..], last);
      NodeBack(ns[0], rest);
      assert [ns[0]] + ns[1..] == ns;
    }
  }

  lemma {:induction false} NodeBack(n: Node, rest: Text)
    requires LegalNode(n) && rest != [] && (n.Words? ==> rest[0] == LT)
    ensures ParseContent(PrintNode(n) + rest) == Cons(n, ParseContent(rest))
    decreases n
  {
    hide ParseContent, Print, Escape, Legal, LegalText;
    match n
    case Child(e) => {
      ElementBack(e, rest);
      ChildRead(e, rest);
    }
    case Words(text) => LegalWords(text, rest);
  }

  lemma NoContent(last: Text)
    ensures ParseContent(PrintContent([]) + ([LT, SLASH] + last)) == Done([], last)
  {
    hide ReadToken;
    EndRead(last);
    assert PrintContent([]) + ([LT, SLASH] + last) == [LT, SLASH] + last;
  }

  lemma LegalWords(t: Text, rest: Text)
    requires LegalText(t) && rest != [] && rest[0] == LT
    ensures ParseContent(Escape(t) + rest) == Cons(Words(t), ParseContent(rest))
  {
    hide ParseContent, Escape, TrimStart;
    WordsBack(t, rest);
  }

  // ---- which texts come back ----

  /** A text between two tags comes back if and only if it is legal. */
  lemma TextComesBack(t: Text, last: Text)
    requires NoNul(t)
    ensures ParseContent(Escape(t) + ([LT, SLASH] + last)) == Done([Words(t)], last) <==> LegalText(t)
  {
    hide ParseContent, Escape, TrimStart;
    var rest := [LT, SLASH] + last;
    NoContent(last);
    assert PrintContent([]) + rest == rest;
    if TrimStart(t) == [] {
      BlankWords(t, rest);
      EndRead(last);
      AtEnd(Escape(t) + rest, last);
    } else {
      WordsBack(t, rest);
      var u := TrimStart(t);
      assert [Words(t)] + [] == [Words(t)] && [Words(u)] + [] == [Words(u)];
      assert [Words(u)][0] == [Words(t)][0] <==> u == t;
    }
  }

  lemma AtEnd(s: Text, last: Text)
    requires ReadToken(s) == Got(EndTagBegin, last)
    ensures ParseContent(s) == Done([], last)
  {
    hide ReadToken;
  }

  lemma {:induction false} BlankWords(t: Text, rest: Text)
    requires TrimStart(t) == []
    ensures SkipSpace(Escape(t) + rest) == SkipSpace(rest)
    decreases |t|
  {
    hide Escape, SkipSpace;
    if t == [] {
      NothingEscaped();
      assert Escape(t) + rest == rest;
    } else {
      EscapeFirst(t);
      BlankWords(t[1..], rest);
      var more := Escape(t[1..]) + rest;
      assert Escape(t) + rest == [t[0]] + more;
      OneSpace(t[0], more);
    }
  }

  lemma NothingEscaped()
    ensures Escape([]) == []
  {
  }

  // ---- comments ----

  /** The inside of a comment: the end of the comment is the first one. */
  ghost predicate CommentBody(b: Text) {
    forall i :: 0 <= i < |b| ==> !(COMMENT_END <= (b + COMMENT_END)[i..])
  }

  lemma NoDashInside(b: Text)
    requires DASH !in b
    ensures CommentBody(b)
  {
    forall i | 0 <= i < |b| ensures !(COMMENT_END <= (b + COMMENT_END)[i..]) {
      var s := (b + COMMENT_END)[i..];
      assert s[0] == b[i] && COMMENT_END[0] == DASH;
    }
  }

  lemma {:induction false} CommentSkipped(b: Text, s: Text)
    requires CommentBody(b)
    ensures SkipComment(b + COMMENT_END + s) == s
  {
    var t := b + COMMENT_END + s;
    if b == [] {
      assert COMMENT_END <= t && t[3..] == s;
    } else {
      var u, c := b + COMMENT_END, b[1..] + COMMENT_END;
      assert u[0..] == u && u <= t && |u| >= 3;
      assert t[..3] == u[..3];
      assert c == u[1..] && t[1..] == c + s;
      forall i | 0 <= i < |b[1..]| ensures !(COMMENT_END <= c[i..]) { assert c[i..] == u[i + 1..]; }
      CommentSkipped(b[1..], s);
    }
  }

  /**
   Exactly what a comment directly before a text does: white space alone goes; a slash behind white
   space makes the white space go; every other text leaves the parser where it is, for ever.
   */
  lemma CommentHangs(b: Text, t: Text, rest: Text)
    requires CommentBody(b) && rest != [] && rest[0] == LT
    ensures var u := TrimStart(t);
            ParseContent(COMMENT_BEGIN + (b + COMMENT_END + (Escape(t) + rest)))
            == if u == [] then ParseContent(rest)
               else if u[0] == SLASH then Cons(Words(u), ParseContent(rest))
               else Endless
  {
    hide Escape, TrimStart, ReadAt, ParseContent, SkipSpace, ParseWords;
    var s := Escape(t) + rest;
    var c := COMMENT_BEGIN + (b + COMMENT_END + s);
    CommentSkipped(b, s);
    AtComment(c, s);
    AtWords(c);
    AtBracket(c);
    if TrimStart(t) == [] {
      BlankWords(t, rest);
      AtBracket(rest);
      SameStart(c, rest);
    } else {
      NoTag(t, rest);
      WordsParsed(TrimStart(t), rest);
    }
  }

  lemma AtComment(c: Text, s: Text)
    requires COMMENT_BEGIN <= c && SkipComment(c[4..]) == s
    ensures SkipSpace(c) == SkipSpace(s) && c != [] && c[0] == LT
  {
    hide SkipComment;
    assert c[0] == COMMENT_BEGIN[0];
  }

  lemma AtBracket(s: Text)
    requires s != [] && s[0] == LT
    ensures ParseWords(s) == Endless
  {
    SpanIs(s, {LT}, 0);
  }

  lemma SameStart(s: Text, t: Text)
    requires SkipSpace(s) == SkipSpace(t) && ParseWords(s) == ParseWords(t)
    ensures ParseContent(s) == ParseContent(t)
  {
    hide SkipSpace, ReadAt, ParseWords, ParseElement;
  }

  ghost predicate HasComment(s: Text) {
    exists i :: 0 <= i <= |s| && COMMENT_BEGIN <= s[i..]
  }

  lemma NoCommentIn(r: Text, s: Text)
    requires Suffix(r, s) && HasComment(r)
    ensures HasComment(s)
  {
    var i :| 0 <= i <= |r| && COMMENT_BEGIN <= r[i..];
    assert s[|s| - |r| + i..] == r[i..];
  }

  lemma {:induction false} CommentSuffix(s: Text)
    ensures Suffix(SkipComment(s), s)
  {
    if s != [] && !(COMMENT_END <= s) {
      CommentSuffix(s[1..]);
      SuffixOf(SkipComment(s), s[1..], s);
    }
  }

  lemma {:induction false} SpaceSuffix(s: Text)
    ensures Suffix(SkipSpace(s), s)
    decreases |s|
  {
    if s != [] && IsSpace(s[0]) {
      SpaceSuffix(s[1..]);
      SuffixOf(SkipSpace(s), s[1..], s);
    } else if s != [] && COMMENT_BEGIN <= s {
      CommentSuffix(s[4..]);
      var t := SkipComment(s[4..]);
      SpaceSuffix(t);
      SuffixOf(t, s[4..], s);
      SuffixOf(SkipSpace(s), t, s);
    }
  }

  lemma TokenSuffix(s: Text)
    ensures ReadToken(s).Got? ==> Suffix(ReadToken(s).rest, s)
  {
    hide SkipSpace, Span, Unescape;
    var t := SkipSpace(s);
    SpaceSuffix(s);
    if ReadToken(s).Got? {
      assert Suffix(ReadToken(s).rest, t);
      SuffixOf(ReadToken(s).rest, t, s);
    }
  }

  lemma {:induction false} AttributesSuffix(s: Text, ms: seq<Member<Text>>)
    ensures ParseAttributes(s, ms).Opened? ==> Suffix(ParseAttributes(s, ms).rest, s)
    decreases |s|, 0
  {
    hide ReadToken, PutMember, Suffix;
    TokenSuffix(s);
    match ReadToken(s)
    case Bad =>
    case Got(t, r) => {
      if t.Name? {
        TokenSuffix(r);
        if ReadToken(r).Got? && ReadToken(r).token.EqualsSign? {
          var r1 := ReadToken(r).rest;
          TokenSuffix(r1);
          SuffixOf(r1, r, s);
          if ReadToken(r1).Got? && ReadToken(r1).token.Quoted? {
            var r2 := ReadToken(r1).rest;
            SuffixOf(r2, r1, s);
            AttributesLater(r2, PutMember(ms, t.value, ReadToken(r1).token.value), s);
          }
        }
      } else if !t.EmptyTagEnd? && !t.TagEnd? {
        AttributesLater(r, ms, s);
      }
    }
  }

  lemma {:induction false} AttributesLater(r: Text, ms: seq<Member<Text>>, s: Text)
    requires Suffix(r, s)
    ensures ParseAttributes(r, ms).Opened? ==> Suffix(ParseAttributes(r, ms).rest, s)
    decreases |r|, 1
  {
    hide ParseAttributes, Suffix;
    AttributesSuffix(r, ms);
    if ParseAttributes(r, ms).Opened? { SuffixOf(ParseAttributes(r, ms).rest, r, s); }
  }

  lemma CloseSuffix(e: Element, s: Text)
    ensures CloseElement(e, s).Done? ==> Suffix(CloseElement(e, s).rest, s)
    ensures CloseElement(e, s) != Endless
  {
    hide ReadToken, Suffix;
    TokenSuffix(s);
    match ReadToken(s)
    case Bad =>
    case Got(t, r) => {
      TokenSuffix(r);
      if ReadToken(r).Got? { SuffixOf(ReadToken(r).rest, r, s); }
    }
  }

  /** What a parse leaves is at the end of the text, and without a comment in the text it comes to an end. */
  ghost predicate Ends<T>(p: Parsed<T>, s: Text) {
    (p.Done? ==> Suffix(p.rest, s)) && (p.Endless? ==> HasComment(s))
  }

  lemma EndsLater<T>(p: Parsed<T>, r: Text, s: Text)
    requires Ends(p, r) && Suffix(r, s)
    ensures Ends(p, s)
  {
    hide Suffix, HasComment;
    if p.Done? { SuffixOf(p.rest, r, s); }
    if p.Endless? { NoCommentIn(r, s); }
  }

  lemma {:induction false} ElementEnds(s: Text)
    ensures Ends(ParseElement(s), s)
    decreases |s|, 3
  {
    hide ReadToken, ParseAttributes, ParseContent, CloseElement, Suffix, HasComment;
    TokenSuffix(s);
    if ReadToken(s).Got? && ReadToken(s).token.Name? {
      var r := ReadToken(s).rest;
      AttributesLater(r, [], s);
      var o := ParseAttributes(r, []);
      if o.Opened? && o.open {
        ContentEnds(o.rest);
        EndsLater(ParseContent(o.rest), o.rest, s);
        if ParseContent(o.rest).Done? {
          var e := Element(ReadToken(s).token.value, o.attributes, ParseContent(o.rest).value);
          CloseSuffix(e, ParseContent(o.rest).rest);
          EndsLater(CloseElement(e, ParseContent(o.rest).rest), ParseContent(o.rest).rest, s);
        }
      }
    }
  }

  lemma {:induction false} ContentEnds(s: Text)
    ensures Ends(ParseContent(s), s)
    decreases |s|, 2
  {
    hide ReadToken, ParseElement, ParseContent, ParseWords, SkipSpace, Suffix, HasComment;
    TokenSuffix(s);
    SpaceSuffix(s);
    AtContent(s);
    match ReadToken(s)
    case Bad => {
      NotAtBracket(s);
      WordsEnds(SkipSpace(s));
      EndsLater(ParseWords(SkipSpace(s)), SkipSpace(s), s);
    }
    case Got(t, r) => {
      if t.StartTagBegin? {
        ElementEnds(r);
        EndsLater(ParseElement(r), r, s);
        if ParseElement(r).Done? {
          var r1 := ParseElement(r).rest;
          ContentEnds(r1);
          EndsLater(ParseContent(r1), r1, s);
        }
      } else if !t.EndTagBegin? {
        AtMarkup(s);
        WordsEnds(s);
      }
    }
  }

  lemma AtContent(s: Text)
    ensures match ReadToken(s)
            case Bad => ParseContent(s) == ParseWords(SkipSpace(s))
            case Got(t, r) =>
              if t.EndTagBegin? then ParseContent(s) == Done([], r)
              else if t.StartTagBegin? then
                (match ParseElement(r)
                 case Failed => ParseContent(s) == Failed
                 case Endless => ParseContent(s) == Endless
                 case Done(e, r1) => ParseContent(s) == Cons(Child(e), ParseContent(r1)))
              else ParseContent(s) == ParseWords(s)
  {
    hide ReadToken, SkipSpace, ParseWords, ParseElement;
  }

  lemma NotAtBracket(s: Text)
    requires ReadToken(s).Bad?
    ensures SkipSpace(s) == [] || SkipSpace(s)[0] != LT
  {
    hide SkipSpace, ReadQuoted, ReadName;
  }

  /** A bracket at which no tag begins starts a comment. */
  lemma AtMarkup(s: Text)
    requires ReadToken(s).Got? && !ReadToken(s).token.EndTagBegin? && !ReadToken(s).token.StartTagBegin?
    ensures s != [] && s[0] == LT ==> HasComment(s)
  {
    hide SkipSpace, ReadQuoted, ReadName;
    if s != [] && s[0] == LT {
      if COMMENT_BEGIN <= s { assert s[0..] == s; } else { NoSpace(s); }
    }
  }

  lemma {:induction false} WordsEnds(s: Text)
    requires s != [] && s[0] == LT ==> HasComment(s)
    ensures Ends(ParseWords(s), s)
    decreases |s|, 1
  {
    hide Span, ParseContent, Unescape, HasComment;
    var n := Span(s, {LT});
    if 0 < n < |s| {
      ContentEnds(s[n..]);
      EndsLater(ParseContent(s[n..]), s[n..], s);
    }
  }

  // ---- the whole text ----

  lemma NoInstruction(e: Element, rest: Text)
    requires Legal(e) && e.kind[0] != QUERY
    ensures var s := Print(e) + rest; SkipSpace(s) == s && SkipInstructions(s) == Some(s) && ReadToken(s) == Got(StartTagBegin, Tail(e) + rest)
  {
    hide ReadToken, Tail, AfterName;
    var s, after := Print(e) + rest, AfterName(e, rest);
    TailText(e, rest);
    StartRead(e.kind, after);
    NoComment(e.kind, after);
    assert s == [LT] + (e.kind + after) && s[1] == e.kind[0];
    assert [LT] + (e.kind + after) == [LT] + (Tail(e) + rest);
    NoSpace(s);
  }

  /** Parsing a printed element gives the element back. */
  lemma RoundTrip(e: Element, rest: Text)
    requires Legal(e) && e.kind[0] != QUERY
    ensures Parse(Print(e) + rest) == Done(e, rest)
  {
    hide ReadToken, SkipSpace, SkipInstructions, Print, Tail, ParseElement;
    NoInstruction(e, rest);
    ElementBack(e, rest);
  }

  lemma DeclarationSkipped(s: Text)
    ensures SkipInstruction(DECLARATION + ([QUERY, GT, LF] + s)) == Some([LF] + s)
  {
    hide Span;
    var end := [QUERY, GT, LF] + s;
    SpanOver(DECLARATION, end, {CR, LF, QUERY});
    var t := DECLARATION + end;
    assert end[2..] == [LF] + s && end[1] == GT;
    assert t[|DECLARATION| + 2..] == end[2..];
  }

  /** So does parsing a whole document. */
  lemma DocumentBack(e: Element)
    requires Legal(e) && e.kind[0] != QUERY
    ensures Parse(Document(e)) == Done(e, [])
  {
    hide ReadToken, Print, Tail, ParseElement, SkipInstruction;
    var p := Print(e);
    var d := DECLARATION + ([QUERY, GT, LF] + p);
    assert Document(e) == [LT, QUERY] + d && Document(e)[2..] == d;
    DeclarationSkipped(p);
    assert Document(e)[1] == QUERY && COMMENT_BEGIN[1] == 0x21;
    NoSpace(Document(e));
    OneSpace(LF, p);
    NoInstruction(e, []);
    assert p + [] == p && Tail(e) + [] == Tail(e);
    ElementBack(e, []);
  }

  lemma {:induction false} InstructionSuffix(s: Text)
    ensures SkipInstruction(s).Some? ==> Suffix(SkipInstruction(s).value, s)
    decreases |s|
  {
    hide Span, SkipSpace;
    var n := Span(s, {CR, LF, QUERY});
    if n < |s| && !(s[n] == QUERY && n + 1 < |s| && s[n + 1] == GT) {
      SpaceSuffix(s[n + 1..]);
      InstructionSuffix(SkipSpace(s[n + 1..]));
      SuffixOf(SkipSpace(s[n + 1..]), s[n + 1..], s);
      if SkipInstruction(s).Some? { SuffixOf(SkipInstruction(s).value, SkipSpace(s[n + 1..]), s); }
    }
  }

  lemma {:induction false} InstructionsSuffix(s: Text)
    ensures SkipInstructions(s).Some? ==> Suffix(SkipInstructions(s).value, s)
    decreases |s|
  {
    hide SkipInstruction, SkipSpace;
    if |s| > 1 && s[0] == LT && s[1] == QUERY {
      InstructionSuffix(s[2..]);
      if SkipInstruction(s[2..]).Some? {
        var t := SkipInstruction(s[2..]).value;
        SpaceSuffix(t);
        InstructionsSuffix(SkipSpace(t));
        SuffixOf(t, s[2..], s);
        SuffixOf(SkipSpace(t), t, s);
        if SkipInstructions(s).Some? { SuffixOf(SkipInstructions(s).value, SkipSpace(t), s); }
      }
    }
  }

  /** Parsing a text in which no comment begins comes to an end, well-formed or not. */
  lemma ParseEnds(s: Text)
    requires !HasComment(s)
    ensures Parse(s) != Endless
  {
    hide SkipInstructions, SkipSpace, ReadToken, ParseElement, Suffix, HasComment;
    SpaceSuffix(s);
    InstructionsSuffix(SkipSpace(s));
    if SkipInstructions(SkipSpace(s)).Some? {
      var t := SkipInstructions(SkipSpace(s)).value;
      SuffixOf(t, SkipSpace(s), s);
      TokenSuffix(t);
      if ReadToken(t).Got? {
        var r := ReadToken(t).rest;
        SuffixOf(r, t, s);
        ElementEnds(r);
        EndsLater(ParseElement(r), r, s);
      }
    }
  }
}
