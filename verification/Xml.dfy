/** The XML parser and printer. */
module Xml {
  import opened Basics
  import opened Unicode
  import opened Texts
  import opened XmlText

  /** A string's own storage: the characters before `len` count. */
  class Storage {
    var data: array<Byte>
    var len: nat

    constructor (capacity: nat)
      ensures fresh(data) && data.Length == capacity && len == 0
    {
      data := new Byte[capacity];
      len := 0;
    }

    ghost predicate Valid()
      reads this
    {
      len <= data.Length
    }

    /** `detach`: what lies behind the old length is lost when the storage moves. */
    method Detach(copyLength: nat, minCapacity: nat)
      requires Valid() && copyLength <= minCapacity
      modifies this
      ensures Valid() && len == copyLength && minCapacity <= data.Length
      ensures minCapacity <= old(data.Length) ==> data == old(data)
      ensures minCapacity > old(data.Length) ==> fresh(data)
      ensures minCapacity > old(data.Length) && copyLength <= old(len) ==> data[..copyLength] == old(data[..copyLength])
    {
      if minCapacity <= data.Length {
        len := copyLength;
        return;
      }
      var larger := new Byte[minCapacity];
      var n := if len < copyLength then len else copyLength;
      for i := 0 to n
        invariant unchanged(this)
        invariant larger[..i] == data[..i]
      {
        larger[i] := data[i];
      }
      data := larger;
      len := copyLength;
    }

    method Reserve(size: nat)
      requires Valid()
      modifies this
      ensures Valid() && len == old(len) && size <= data.Length
      ensures data == old(data) || fresh(data)
      ensures data[..len] == old(data[..len])
    {
      Detach(len, if size < len then len else size);
    }
  }

  /** Copies the characters of `s` to place `at`. */
  method CopyTo(dest: array<Byte>, at: nat, s: Text)
    requires at + |s| <= dest.Length
    modifies dest
    ensures dest[..at + |s|] == old(dest[..at]) + s
  {
    for i := 0 to |s|
      invariant dest[..at + i] == old(dest[..at]) + s[..i]
    {
      dest[at + i] := s[i];
      assert dest[..at + i + 1] == dest[..at + i] + [s[i]];
    }
    assert s[..|s|] == s;
  }

  /** `escapeString`: it never writes past the storage that it has reserved. */
  method EscapeString(str: Text) returns (r: Text)
    ensures r == Escape(str)
  {
    hide Escape, Escape1;
    var result := new Storage(|str| + 200);
    var dest: nat := 0;
    EscapedTo(str, 0);
    for i := 0 to |str|
      invariant fresh(result) && fresh(result.data) && result.Valid()
      invariant dest + (|str| - i) <= result.data.Length
      invariant result.data[..dest] == Escape(str[..i])
    {
      EscapedTo(str, i);
      var c := str[i];
      if c >= 64 || c < 32 {
        result.data[dest] := c;
        dest := dest + 1;
      } else {
        var j := CharPlace(c);
        if j < 5 {
          dest := WriteEntity(result, dest, ESCAPE_NAMES[j], |str| - i);
        } else {
          result.data[dest] := c;
          dest := dest + 1;
        }
      }
    }
    assert str[..|str|] == str;
    result.Detach(dest, dest);
    r := result.data[..result.len];
  }

  /** Writes an escape, with room made for it and for the `rest` characters of the source that are not copied yet. */
  method WriteEntity(result: Storage, dest0: nat, name: Text, rest: nat) returns (dest: nat)
    requires result.Valid() && dest0 <= result.data.Length && rest > 0
    modifies result, result.data
    ensures result.Valid() && (result.data == old(result.data) || fresh(result.data))
    ensures dest + (rest - 1) <= result.data.Length
    ensures result.data[..dest] == old(result.data[..dest0]) + ([AMP] + name + [SEMI])
  {
    result.Detach(dest0, dest0);
    result.Reserve(result.len + |name| + 1 + rest);
    dest := result.len;
    CopyTo(result.data, dest, [AMP]);
    dest := dest + 1;
    CopyTo(result.data, dest, name);
    dest := dest + |name|;
    CopyTo(result.data, dest, [SEMI]);
    dest := dest + 1;
  }

  lemma EscapedTo(str: Text, i: nat)
    requires i <= |str|
    ensures str[..0] == [] && Escape([]) == []
    ensures i < |str| ==> Escape(str[..i + 1]) == Escape(str[..i]) + Escape1(str[i])
    ensures i < |str| && (str[i] >= 64 || str[i] < 32) ==> Escape1(str[i]) == [str[i]]
    ensures i < |str| && CharPlace(str[i]) < 5 ==> Escape1(str[i]) == [AMP] + ESCAPE_NAMES[CharPlace(str[i])] + [SEMI]
    ensures i < |str| && CharPlace(str[i]) == 5 ==> Escape1(str[i]) == [str[i]]
  {
    if i < |str| { assert str[..i + 1][..i] == str[..i]; }
  }

  /** `unescapeString`, into storage of the length of the string. */
  method UnescapeString(str: Text) returns (r: Text)
    requires NoNul(str)
    ensures r == Unescape(str)
  {
    hide Unescape, Span, Entity;
    var src: nat := Span(str, {AMP});
    NoEntity(str, src);
    if src == |str| {
      return str;
    }
    var result := new Byte[|str|];
    CopyTo(result, 0, str[..src]);
    var dest: nat := src;
    assert result[..dest] == str[..src];
    while src < |str|
      invariant dest <= src <= |str| == result.Length
      invariant result[..dest] + Unescape(str[src..]) == Unescape(str)
    {
      src, dest := UnescapeAt(str, src, result, dest);
    }
    EndUnescaped(str);
    r := result[..dest];
  }

  /** One character or one entity. */
  method UnescapeAt(str: Text, src0: nat, result: array<Byte>, dest0: nat) returns (src: nat, dest: nat)
    requires NoNul(str) && dest0 <= src0 < |str| == result.Length
    modifies result
    ensures src0 < src <= |str| && dest <= src
    ensures result[..dest] + Unescape(str[src..]) == old(result[..dest0]) + Unescape(str[src0..])
  {
    hide Unescape, Span, Entity;
    src, dest := src0, dest0;
    UnescapedFrom(str, src);
    if str[src] != AMP {
      CopyTo(result, dest, [str[src]]);
      return src + 1, dest + 1;
    }
    src := src + 1;
    var sequenceLength := Span(str[src..], {SEMI});
    var value := if src + sequenceLength == |str| then None else Entity(str[src..][..sequenceLength]);
    if value.None? {
      CopyTo(result, dest, [AMP]);
      return src, dest + 1;
    }
    EntityShrinks(str[src..][..sequenceLength]);
    CopyTo(result, dest, value.value);
    dest := dest + |value.value|;
    src := src + sequenceLength + 1;
  }

  lemma EndUnescaped(str: Text)
    ensures Unescape(str[|str|..]) == []
  {
  }

  lemma {:induction false} NoEntity(str: Text, n: nat)
    requires n <= |str| && forall i :: 0 <= i < n ==> str[i] != AMP
    ensures Unescape(str) == str[..n] + Unescape(str[n..])
    ensures n == |str| ==> Unescape(str) == str
  {
    hide Unescape;
    if n == 0 {
      assert str[0..] == str && str[..0] == [];
      if str == [] { EndUnescaped(str); }
    } else {
      var t := str[1..];
      NoEntity(t, n - 1);
      assert str == [str[0]] + t;
      PlainChar(str[0], t);
      assert str[..n] == [str[0]] + t[..n - 1] && t[n - 1..] == str[n..];
    }
  }

  lemma UnescapedFrom(str: Text, i: nat)
    requires i < |str|
    ensures var t := str[i + 1..];
            var n := Span(t, {SEMI});
            Unescape(str[i..]) ==
              if str[i] != AMP then [str[i]] + Unescape(t)
              else if i + 1 + n == |str| || Entity(t[..n]).None? then [AMP] + Unescape(t)
              else Entity(t[..n]).value + Unescape(str[i + 1 + n + 1..])
  {
    hide Span, Entity;
    assert str[i..][1..] == str[i + 1..];
    var t := str[i + 1..];
    assert Span(t, {SEMI}) < |t| ==> t[Span(t, {SEMI}) + 1..] == str[i + 1 + Span(t, {SEMI}) + 1..];
  }

  datatype Status = Good | Wrong | Hanging

  class Parser {
    const data: Text   // the characters before the NUL that ends the text
    var pos: nat
    var token: Token

    constructor (data: Text)
      ensures this.data == data && pos == 0
    {
      this.data := data;
      pos := 0;
      token := StartTagBegin;
    }

    ghost predicate Valid()
      reads this
    {
      pos <= |data| && NoNul(data)
    }

    /** The character at an offset from the position, NUL at the end. */
    function Char(offset: nat): Byte
      reads this
    {
      if pos + offset < |data| then data[pos + offset] else 0
    }

    ghost function Ahead(): Text
      reads this
      requires pos <= |data|
    {
      data[pos..]
    }

    /** The character at an offset is the one ahead. */
    lemma AheadChar(offset: nat)
      requires Valid()
      ensures Char(offset) == 0 <==> |Ahead()| <= offset
      ensures |Ahead()| > offset ==> Ahead()[offset] == Char(offset) && data[pos + offset + 1..] == Ahead()[offset + 1..]
    {
    }

    lemma AheadComment()
      requires Valid()
      ensures COMMENT_BEGIN <= Ahead() <==> Char(0) == LT && Char(1) == 0x21 && Char(2) == DASH && Char(3) == DASH
      ensures COMMENT_END <= Ahead() <==> Char(0) == DASH && Char(1) == DASH && Char(2) == GT
      ensures COMMENT_BEGIN <= Ahead() ==> pos + 4 <= |data| && data[pos + 4..] == Ahead()[4..]
      ensures COMMENT_END <= Ahead() ==> pos + 3 <= |data| && data[pos + 3..] == Ahead()[3..]
    {
      AheadChar(0);
      AheadChar(1);
      AheadChar(2);
      AheadChar(3);
      var s := Ahead();
      assert COMMENT_BEGIN <= s <==> |s| >= 4 && s[0] == LT && s[1] == 0x21 && s[2] == DASH && s[3] == DASH;
      assert COMMENT_END <= s <==> |s| >= 3 && s[0] == DASH && s[1] == DASH && s[2] == GT;
    }

    /** Behind the end of a comment, or at the end of the text. */
    method SkipCommentText()
      requires Valid()
      modifies this`pos
      ensures Valid() && pos >= old(pos) && Ahead() == SkipComment(old(Ahead()))
    {
      hide Span, SkipComment;
      while pos < |data|
        invariant Valid() && pos >= old(pos) && SkipComment(Ahead()) == SkipComment(old(Ahead()))
      {
        ToDash();
        CommentAt(Ahead());
        if pos == |data| {
          return;
        }
        AheadComment();
        AheadChar(0);
        if Char(0) == DASH && Char(1) == DASH && Char(2) == GT {
          pos := pos + 3;
          return;
        }
        pos := pos + 1;
      }
      CommentAt(Ahead());
    }

    /** On to the next dash or line break in a comment. */
    method ToDash()
      requires Valid()
      modifies this`pos
      ensures Valid() && pos >= old(pos) && SkipComment(Ahead()) == SkipComment(old(Ahead()))
    {
      hide Span, SkipComment;
      var n := Span(data[pos..], {DASH, CR, LF});
      CommentRun(Ahead(), n);
      assert data[pos + n..] == Ahead()[n..];
      pos := pos + n;
    }

    /** Past white space and comments. */
    method SkipSpace()
      requires Valid()
      modifies this`pos
      ensures Valid() && pos >= old(pos) && Ahead() == XmlText.SkipSpace(old(Ahead()))
    {
      hide SkipComment;
      while true
        invariant Valid() && pos >= old(pos) && XmlText.SkipSpace(Ahead()) == XmlText.SkipSpace(old(Ahead()))
        decreases |data| - pos
      {
        AheadChar(0);
        AheadComment();
        var c := Char(0);
        if c == CR {
          pos := pos + 1;
          if Char(0) == LF {
            AheadChar(0);
            pos := pos + 1;
          }
        } else if c == LF {
          pos := pos + 1;
        } else if c == LT && Char(1) == 0x21 && Char(2) == DASH && Char(3) == DASH {
          pos := pos + 4;
          SkipCommentText();
        } else if IsSpace(c) {
          pos := pos + 1;
        } else {
          return;
        }
      }
    }

    ghost predicate Reads(ok: bool, r: Read)
      requires pos <= |data|
      reads this
    {
      match r
      case Got(t, rest) => ok && token == t && Ahead() == rest
      case Bad => !ok
    }

    method ReadToken() returns (ok: bool)
      requires Valid()
      modifies this`pos, this`token
      ensures Valid() && Reads(ok, XmlText.ReadToken(old(Ahead())))
      ensures !ok ==> Ahead() == XmlText.SkipSpace(old(Ahead()))
    {
      hide XmlText.SkipSpace, ReadQuoted, ReadName;
      SkipSpace();
      AheadChar(0);
      AheadChar(1);
      ghost var s := Ahead();
      var c := Char(0);
      if c == LT {
        if Char(1) == SLASH {
          token := EndTagBegin;
          pos := pos + 2;
          return true;
        }
        token := StartTagBegin;
        pos := pos + 1;
        return true;
      }
      if c == GT {
        token := TagEnd;
        pos := pos + 1;
        return true;
      }
      if c == 0 {
        return false;
      }
      if c == EQUALS {
        token := EqualsSign;
        pos := pos + 1;
        return true;
      }
      if c == QUOTE || c == APOS {
        ok := ReadString();
        return;
      }
      if c == SLASH && Char(1) == GT {
        token := EmptyTagEnd;
        pos := pos + 2;
        return true;
      }
      ok := ReadNameToken();
    }

    method ReadString() returns (ok: bool)
      requires Valid() && pos < |data|
      modifies this`pos, this`token
      ensures Valid() && Reads(ok, ReadQuoted(old(Ahead())[0], old(Ahead())[1..])) && (!ok ==> pos == old(pos))
    {
      hide Span, Unescape;
      ghost var s := Ahead();
      var c := data[pos];
      var n := Span(data[pos + 1..], {c, CR, LF});
      var end := pos + 1 + n;
      assert s[1..] == data[pos + 1..];
      if end == |data| || data[end] != c {
        return false;
      }
      assert s[1..][..n] == data[pos + 1..end] && s[1..][n + 1..] == data[end + 1..];
      var value := UnescapeString(data[pos + 1..end]);
      token := Quoted(value);
      pos := end + 1;
      ok := true;
    }

    method ReadNameToken() returns (ok: bool)
      requires Valid()
      modifies this`pos, this`token
      ensures Valid() && Reads(ok, ReadName(old(Ahead()))) && (!ok ==> pos == old(pos))
    {
      hide Span;
      ghost var s := Ahead();
      var end: nat := pos;
      while end < |data| && data[end] !in NAME_STOPS
        invariant pos <= end <= |data| && forall i :: pos <= i < end ==> data[i] !in NAME_STOPS
      {
        end := end + 1;
      }
      SpanIs(s, NAME_STOPS, end - pos);
      if end == pos {
        return false;
      }
      assert s[..end - pos] == data[pos..end] && s[end - pos..] == data[end..];
      token := Name(data[pos..end]);
      pos := end;
      ok := true;
    }

    // ---- parsing ----

    ghost predicate Parses<T>(st: Status, value: T, p: Parsed<T>)
      requires pos <= |data|
      reads this
    {
      match p
      case Done(v, rest) => st == Good && value == v && Ahead() == rest
      case Failed => st == Wrong
      case Endless => st == Hanging
    }

    method ParseElement() returns (st: Status, element: Element)
      requires Valid()
      modifies this`pos, this`token
      ensures Valid() && Parses(st, element, XmlText.ParseElement(old(Ahead())))
      decreases |Ahead()|, 2
    {
      hide XmlText.ReadToken, XmlText.ParseAttributes, XmlText.ParseContent;
      element := Element([], [], []);
      var ok := ReadToken();
      if !ok || !token.Name? {
        return Wrong, element;
      }
      element := element.(kind := token.value);
      var open;
      var attributes;
      ok, open, attributes := ParseAttributes();
      if !ok {
        return Wrong, element;
      }
      element := element.(attributes := attributes);
      if !open {
        return Good, element;
      }
      var content;
      st, content := ParseContent();
      if st != Good {
        return;
      }
      element := element.(content := content);
      ok := ReadToken();
      if !ok || !token.Name? || token.value != element.kind {
        return Wrong, element;
      }
      ok := ReadToken();
      if !ok || !token.TagEnd? {
        return Wrong, element;
      }
    }

    ghost predicate Opens(ok: bool, open: bool, attributes: seq<Member<Text>>, o: Opening)
      requires pos <= |data|
      reads this
    {
      match o
      case Opened(ms, op, rest) => ok && open == op && attributes == ms && Ahead() == rest
      case Unopened => !ok
    }

    method ParseAttributes() returns (ok: bool, open: bool, attributes: seq<Member<Text>>)
      requires Valid()
      modifies this`pos, this`token
      ensures Valid() && Opens(ok, open, attributes, XmlText.ParseAttributes(old(Ahead()), []))
    {
      hide XmlText.ReadToken, PutMember;
      open := false;
      attributes := [];
      while true
        invariant Valid() && XmlText.ParseAttributes(Ahead(), attributes) == XmlText.ParseAttributes(old(Ahead()), [])
        decreases |Ahead()|
      {
        ok := ReadToken();
        if !ok {
          return;
        }
        if token.EmptyTagEnd? {
          return;
        }
        if token.TagEnd? {
          open := true;
          return;
        }
        if token.Name? {
          var name := token.value;
          ok := ReadToken();
          if !ok || !token.EqualsSign? {
            ok := false;
            return;
          }
          ok := ReadToken();
          if !ok || !token.Quoted? {
            ok := false;
            return;
          }
          attributes := PutMember(attributes, name, token.value);
        }
      }
    }

    /** The children and texts, and the bracket and slash of the end tag. */
    method ParseContent() returns (st: Status, content: seq<Node>)
      requires Valid()
      modifies this`pos, this`token
      ensures Valid() && Parses(st, content, XmlText.ParseContent(old(Ahead())))
      decreases |Ahead()|, 1
    {
      hide XmlText.ReadToken, XmlText.ParseContent, XmlText.ParseElement, ParseWords, XmlText.SkipSpace, Follow, Span, Unescape, Cons;
      ghost var all := XmlText.ParseContent(Ahead());
      content := [];
      NothingYet(all);
      while true
        invariant Valid() && Follow(content, XmlText.ParseContent(Ahead())) == all && pos >= old(pos)
        decreases |data| - pos
      {
        ghost var s := Ahead();
        ContentStep(content, s);
        var start := pos;
        var ok := ReadToken();
        if ok {
          if token.EndTagBegin? {
            return Good, content;
          }
          if token.StartTagBegin? {
            var element;
            st, element := ParseElement();
            if st != Good {
              return;
            }
            content := content + [Child(element)];
            continue;
          }
          pos := start;
          assert Ahead() == s;
        }
        start := pos;
        WordsStep(content, Ahead());
        var text;
        ok, text := ParseText();
        if !ok {
          return Wrong, content;
        }
        if pos == start {
          return Hanging, content;
        }
        content := content + [Words(text)];
      }
    }

    /** A text up to the next bracket. */
    method ParseText() returns (ok: bool, text: Text)
      requires Valid()
      modifies this`pos
      ensures Valid() && var n := Span(old(Ahead()), {LT});
              if n < |old(Ahead())| then ok && pos == old(pos) + n && text == Unescape(old(Ahead())[..n]) else !ok
    {
      hide Span, Unescape;
      var start := pos;
      ghost var s := Ahead();
      text := [];
      while true
        invariant Valid() && start <= pos && forall i :: start <= i < pos ==> data[i] != LT
        decreases |data| - pos
      {
        var n := Span(data[pos..], {LT, CR, LF});
        ghost var t := data[pos..];
        assert forall i :: 0 <= i < n ==> t[i] != LT && data[pos + i] == t[i];
        pos := pos + n;
        if pos == |data| {
          SpanIs(s, {LT}, pos - start);
          return false, text;
        }
        assert data[pos - n..][n] == data[pos];
        if data[pos] == LT {
          SpanIs(s, {LT}, pos - start);
          assert s[..pos - start] == data[start..pos];
          text := UnescapeString(data[start..pos]);
          return true, text;
        }
        pos := pos + 1;
      }
    }

    /** Past the processing instructions at the start. */
    method SkipHeader() returns (ok: bool)
      requires Valid()
      modifies this`pos
      ensures Valid() && match SkipInstructions(XmlText.SkipSpace(old(Ahead()))) case None => !ok case Some(t) => ok && Ahead() == t
    {
      hide XmlText.SkipSpace, SkipInstruction;
      SkipSpace();
      AheadChar(0);
      AheadChar(1);
      while Char(0) == LT && Char(1) == QUERY
        invariant Valid() && SkipInstructions(Ahead()) == SkipInstructions(XmlText.SkipSpace(old(Ahead())))
        decreases |data| - pos
      {
        AheadChar(0);
        AheadChar(1);
        pos := pos + 2;
        ok := SkipHeaderInstruction();
        if !ok {
          return;
        }
        SkipSpace();
      }
      AheadChar(0);
      AheadChar(1);
      ok := true;
    }

    method SkipHeaderInstruction() returns (ok: bool)
      requires Valid()
      modifies this`pos
      ensures Valid() && pos >= old(pos)
      ensures match SkipInstruction(old(Ahead())) case None => !ok case Some(t) => ok && Ahead() == t
    {
      hide XmlText.SkipSpace, Span;
      while true
        invariant Valid() && pos >= old(pos) && SkipInstruction(Ahead()) == SkipInstruction(old(Ahead()))
        decreases |data| - pos
      {
        ghost var s := Ahead();
        var end := pos + Span(data[pos..], {CR, LF, QUERY});
        if end == |data| {
          return false;
        }
        assert s[end - pos] == data[end];
        assert s[end - pos + 1..] == data[end + 1..];
        if data[end] == QUERY && end + 1 < |data| && data[end + 1] == GT {
          assert s[end - pos + 2..] == data[end + 2..];
          pos := end + 2;
          return true;
        }
        pos := end + 1;
        SkipSpace();
      }
    }

    /** `parse`, into an element that starts empty. */
    method Parse() returns (st: Status, element: Element)
      requires Valid() && pos == 0
      modifies this`pos, this`token
      ensures Valid() && Parses(st, element, XmlText.Parse(data))
    {
      hide XmlText.ReadToken, XmlText.SkipSpace, SkipInstructions, XmlText.ParseElement;
      element := Element([], [], []);
      assert Ahead() == data;
      var ok := SkipHeader();
      if !ok {
        return Wrong, element;
      }
      ok := ReadToken();
      if !ok || !token.StartTagBegin? {
        return Wrong, element;
      }
      st, element := ParseElement();
    }
  }

  lemma {:induction false} CommentRun(s: Text, n: nat)
    requires n <= |s| && forall i :: 0 <= i < n ==> s[i] != DASH
    ensures SkipComment(s) == SkipComment(s[n..])
  {
    if n == 0 {
      assert s[0..] == s;
    } else {
      NoDash(s);
      CommentRun(s[1..], n - 1);
      assert s[1..][n - 1..] == s[n..];
    }
  }

  lemma CommentAt(s: Text)
    ensures SkipComment(s) == if s == [] then s else if COMMENT_END <= s then s[3..] else SkipComment(s[1..])
  {
  }

  lemma NoDash(s: Text)
    ensures COMMENT_END <= s ==> s[0] == DASH
  {
  }

  // ---- content piece by piece ----

  function Follow(done: seq<Node>, p: Parsed<seq<Node>>): Parsed<seq<Node>> {
    if p.Done? then Done(done + p.value, p.rest) else p
  }

  lemma NothingYet(p: Parsed<seq<Node>>)
    ensures Follow([], p) == p
  {
    if p.Done? { assert [] + p.value == p.value; }
  }

  lemma FollowCons(done: seq<Node>, n: Node, p: Parsed<seq<Node>>)
    ensures Follow(done, Cons(n, p)) == Follow(done + [n], p)
  {
    if p.Done? { assert done + ([n] + p.value) == done + [n] + p.value; }
  }

  lemma ContentStep(done: seq<Node>, s: Text)
    ensures var p := Follow(done, XmlText.ParseContent(s));
            match XmlText.ReadToken(s)
            case Bad => p == Follow(done, ParseWords(XmlText.SkipSpace(s)))
            case Got(t, r) =>
              if t.EndTagBegin? then p == Done(done, r)
              else if t.StartTagBegin? then
                (match XmlText.ParseElement(r)
                 case Failed => p == Failed
                 case Endless => p == Endless
                 case Done(e, r1) => p == Follow(done + [Child(e)], XmlText.ParseContent(r1)))
              else p == Follow(done, ParseWords(s))
  {
    hide XmlText.ReadToken, XmlText.ParseElement, ParseWords, XmlText.SkipSpace;
    match XmlText.ReadToken(s)
    case Bad =>
    case Got(t, r) =>
      assert done + [] == done;
      if t.StartTagBegin? && XmlText.ParseElement(r).Done? {
        FollowCons(done, Child(XmlText.ParseElement(r).value), XmlText.ParseContent(XmlText.ParseElement(r).rest));
      }
  }

  lemma WordsStep(done: seq<Node>, s: Text)
    ensures var n := Span(s, {LT});
            Follow(done, ParseWords(s)) ==
              if n == |s| then Failed
              else if n == 0 then Endless
              else Follow(done + [Words(Unescape(s[..n]))], XmlText.ParseContent(s[n..]))
  {
    hide Span, XmlText.ParseContent, Unescape;
    var n := Span(s, {LT});
    if 0 < n < |s| { FollowCons(done, Words(Unescape(s[..n])), XmlText.ParseContent(s[n..])); }
  }

  // ---- printing ----

  method ElementToString(e: Element) returns (result: Text)
    ensures result == Print(e)
    decreases e
  {
    hide Escape, PrintAttribute, Print;
    result := [LT];
    result := result + e.kind;
    ghost var before := result;
    var i := 0;
    assert e.attributes[0..] == e.attributes;
    while i < |e.attributes|
      invariant i <= |e.attributes| && result + PrintAttributes(e.attributes[i..]) == before + PrintAttributes(e.attributes)
    {
      AttributesFrom(e.attributes, i, result);
      result := result + [SPACE];
      result := result + e.attributes[i].key;
      result := result + [EQUALS, QUOTE];
      var value := EscapeString(e.attributes[i].value);
      result := result + value;
      result := result + [QUOTE];
      i := i + 1;
    }
    if e.content == [] {
      result := result + [SLASH, GT];
    } else {
      result := result + [GT];
      result := AppendContent(result, e.content);
      result := result + [LT, SLASH];
      result := result + e.kind;
      result := result + [GT];
    }
    ElementText(e, PrintAttributes(e.attributes), PrintContent(e.content));
  }

  method AppendContent(before: Text, ns: seq<Node>) returns (result: Text)
    ensures result == before + PrintContent(ns)
    decreases ns
  {
    hide Print, Escape;
    result := before;
    var i := 0;
    assert ns[0..] == ns;
    while i < |ns|
      invariant i <= |ns| && result + PrintContent(ns[i..]) == before + PrintContent(ns)
    {
      ContentFrom(ns, i, result);
      var text := NodeToString(ns[i]);
      result := result + text;
      i := i + 1;
    }
  }

  method NodeToString(n: Node) returns (text: Text)
    ensures text == PrintNode(n)
    decreases n
  {
    match n
    case Child(e) => text := ElementToString(e);
    case Words(t) => text := EscapeString(t);
    case Nothing => text := [];
  }

  lemma ElementText(e: Element, attributes: Text, content: Text)
    requires attributes == PrintAttributes(e.attributes) && content == PrintContent(e.content)
    ensures Print(e) == [LT] + e.kind + attributes
                        + if e.content == [] then [SLASH, GT] else [GT] + content + [LT, SLASH] + e.kind + [GT]
  {
    hide PrintAttributes, PrintContent;
  }

  lemma AttributesFrom(ms: seq<Member<Text>>, i: nat, was: Text)
    requires i < |ms|
    ensures was + PrintAttributes(ms[i..])
            == was + [SPACE] + ms[i].key + [EQUALS, QUOTE] + Escape(ms[i].value) + [QUOTE] + PrintAttributes(ms[i + 1..])
  {
    hide Escape;
    assert ms[i..][1..] == ms[i + 1..];
  }

  lemma ContentFrom(ns: seq<Node>, i: nat, was: Text)
    requires i < |ns|
    ensures was + PrintContent(ns[i..]) == was + PrintNode(ns[i]) + PrintContent(ns[i + 1..])
  {
    hide PrintNode;
    assert ns[i..][1..] == ns[i + 1..];
  }

  method ToString(e: Element) returns (result: Text)
    ensures result == Document(e)
  {
    hide Print;
    result := [LT, QUERY] + (DECLARATION + [QUERY, GT, LF]);
    var text := ElementToString(e);
    result := result + text;
    assert result == Document(e);
  }

  /** The two together: a legal tree survives printing and parsing. */
  method PrintAndParse(e: Element) returns (ok: bool, result: Element)
    requires Legal(e) && e.kind[0] != QUERY
    ensures ok && result == e
  {
    hide XmlText.Parse, Document, Legal;
    var text := ToString(e);
    DocumentIsText(e);
    DocumentBack(e);
    var parser := new Parser(text);
    var st;
    st, result := parser.Parse();
    ok := st == Good;
  }

  // ---- what is printed is text ----

  lemma DocumentIsText(e: Element)
    requires Legal(e)
    ensures NoNul(Document(e))
  {
    hide Tail, Legal;
    assert NoNul(DECLARATION);
    ElementIsText(e);
  }

  lemma EscapedIsText(s: Text)
    requires NoNul(s)
    ensures NoNul(Escape(s))
  {
    EscapeHides(s);
  }

  lemma {:induction false} AttributesAreText(ms: seq<Member<Text>>)
    requires LegalAttributes(ms)
    ensures NoNul(PrintAttributes(ms))
  {
    hide Escape;
    if ms != [] {
      EscapedIsText(ms[0].value);
      AttributesAreText(ms[1..]);
    }
  }

  lemma {:induction false} ElementIsText(e: Element)
    requires Legal(e)
    ensures NoNul(Tail(e))
    decreases e
  {
    hide PrintAttributes, PrintContent, LegalAttributes, LegalContent;
    AttributesAreText(e.attributes);
    ContentIsText(e.content);
  }

  lemma {:induction false} ContentIsText(ns: seq<Node>)
    requires LegalContent(ns)
    ensures NoNul(PrintContent(ns))
    decreases ns
  {
    hide LegalNode, PrintNode;
    if ns != [] {
      NodeIsText(ns[0]);
      ContentIsText(ns[1..]);
    }
  }

  lemma {:induction false} NodeIsText(n: Node)
    requires LegalNode(n)
    ensures NoNul(PrintNode(n))
    decreases n
  {
    hide Legal, Tail, Escape;
    match n
    case Child(e) => ElementIsText(e);
    case Words(text) => EscapedIsText(text);
  }
}
