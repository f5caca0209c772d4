/** The JSON parser and printer. */
module Json {
  import opened Unicode
  import opened Texts
  import opened JsonText

  /** `Astray` is a read past the end of the text. */
  datatype Status = Good | Wrong | Astray

  class Parser {
    const data: Text   // the characters before the NUL that ends the text
    var pos: nat
    var line: nat
    var token: Token

    constructor (data: Text)
      ensures this.data == data && pos == 0
    {
      this.data := data;
      pos, line := 0, 1;
      token := Token(END, Null);
    }

    ghost predicate Valid()
      reads this
    {
      pos <= |data| && NoNul(data)
    }

    /** The character at an offset from the position, NUL at the end. */
    function Char(offset: nat): Byte
      reads this
    {
      if pos + offset < |data| then data[pos + offset] else 0
    }

    ghost function Ahead(): Text
      reads this
      requires pos <= |data|
    {
      data[pos..]
    }

    lemma AheadChar()
      requires Valid()
      ensures Char(0) == 0 <==> Ahead() == []
      ensures Ahead() != [] ==> Ahead()[0] == Char(0) && pos < |data| && data[pos + 1..] == Ahead()[1..]
      ensures |Ahead()| > 1 ==> Ahead()[1] == Char(1) && data[pos + 2..] == Ahead()[2..]
      ensures |Ahead()| <= 1 ==> Char(1) == 0
      ensures |Ahead()| > 1 ==> Char(1) != 0
    {
    }

    method SkipSpace()
      requires Valid()
      modifies this`pos, this`line
      ensures Valid() && Ahead() == TrimStart(old(Ahead()))
    {
      var c: Byte;
      while true
        invariant Valid() && TrimStart(Ahead()) == TrimStart(old(Ahead()))
        decreases |data| - pos
      {
        AheadChar();
        c := Char(0);
        if c == CR {
          pos := pos + 1;
          if Char(0) == LF {
            pos := pos + 1;
          }
          line := line + 1;
        } else if c == LF {
          line := line + 1;
          pos := pos + 1;
        } else if IsSpace(c) {
          pos := pos + 1;
        } else {
          break;
        }
      }
    }

    /** Four hexadecimal digits. */
    method ReadHex() returns (st: Status, w: nat)
      requires Valid()
      modifies this`pos
      ensures Valid() && pos >= old(pos) && st == if HexAhead(old(Ahead())) then Good else Wrong
      ensures st == Good ==> Ahead() == old(Ahead())[4..] && w == Hex4(old(Ahead()))
    {
      ghost var s := Ahead();
      w := 0;
      for i := 0 to 4
        invariant Valid() && pos == old(pos) + i && i <= |s| && Ahead() == s[i..]
        invariant forall j :: 0 <= j < i ==> IsHexDigit(s[j])
        invariant w == HexPrefix(s, i)
      {
        hide HexValue, IsHexDigit;
        AheadChar();
        if !IsHexDigit(Char(0)) {
          return Wrong, w;
        }
        w := w * 16 + HexValue(Char(0));
        pos := pos + 1;
      }
      HexWhole(s);
      st := Good;
    }

    // ---- tokens ----

    ghost predicate ReadText(st: Status, text: Text, r: Read<Text>)
      requires pos <= |data|
      reads this
    {
      match r
      case Got(value, rest) => st == Good && text == value && Ahead() == rest
      case Bad => st == Wrong
      case Wild => st == Astray
    }

    /** The escape with a `u`, or two of them. */
    method ReadUnicodeEscape() returns (st: Status, text: Text)
      requires Valid()
      modifies this`pos
      ensures Valid() && pos >= old(pos) && ReadText(st, text, ReadUnicode(old(Ahead())))
    {
      hide Hex4, HexAhead, Utf8;
      ghost var s := Ahead();
      text := [];
      var w1, w2;
      st, w1 := ReadHex();
      if st != Good {
        return;
      }
      var ok;
      if HighSurrogate(w1) {
        AheadChar();
        if Char(0) != BACKSLASH || Char(1) != 0x75 {
          return Wrong, [];
        }
        assert Ahead() == s[4..] && |s[4..]| > 1;
        pos := pos + 2;
        assert Ahead() == s[4..][2..];
        st, w2 := ReadHex();
        if st != Good {
          return;
        }
        if !LowSurrogate(w2) {
          return Wrong, [];
        }
        assert s[4..][2..][4..] == s[4..][6..];
        ok, text := Append(w2 % 0x400 + w1 % 0x400 * 0x400 + 0x10000, []);
      } else {
        ok, text := Append(w1, []);
      }
      assert [] + Utf8(if HighSurrogate(w1) then Paired(w1, w2) else w1) == Utf8(if HighSurrogate(w1) then Paired(w1, w2) else w1);
    }

    /** The string up to the closing quote, which is skipped. */
    method ReadStringToken() returns (st: Status, value: Text)
      requires Valid()
      modifies this`pos, this`line
      ensures Valid() && ReadText(st, value, ReadString(old(Ahead())))
    {
      hide ReadUnicode, Escaped;
      ghost var s := Ahead();
      value := [];
      PrependNothing(ReadString(s));
      while true
        invariant Valid() && Prepend(value, ReadString(Ahead())) == ReadString(s)
        decreases |data| - pos
      {
        AheadChar();
        var c := Char(0);
        if c == END {
          return Wrong, value;
        } else if c == CR {
          pos := pos + 1;
          if Char(0) == LF {
            pos := pos + 1;
          }
          line := line + 1;
        } else if c == LF {
          line := line + 1;
          pos := pos + 1;
        } else if c == BACKSLASH {
          st, value := ReadEscape(value, s);
          if st != Good {
            return;
          }
        } else if c == QUOTE {
          pos := pos + 1;
          return Good, value;
        } else {
          PrependMore(value, [c], ReadString(Ahead()[1..]));
          value := value + [c];
          pos := pos + 1;
        }
      }
    }

    /** What a backslash starts. */
    method ReadEscape(value0: Text, ghost s: Text) returns (st: Status, value: Text)
      requires Valid() && Char(0) == BACKSLASH && Prepend(value0, ReadString(Ahead())) == ReadString(s)
      modifies this`pos
      ensures Valid() && pos > old(pos)
      ensures if st == Good then Prepend(value, ReadString(Ahead())) == ReadString(s) else ReadText(st, value, ReadString(s))
    {
      hide ReadUnicode;
      AheadChar();
      ghost var a := Ahead();
      value := value0;
      pos := pos + 1;
      AheadChar();
      var c := Char(0);
      if c == END {
        return Astray, value;
      }
      assert Ahead() == a[1..] && a[1] == c;
      if c == 0x75 {
        pos := pos + 1;
        assert Ahead() == a[2..];
        var text;
        st, text := ReadUnicodeEscape();
        if st == Good {
          PrependMore(value, text, ReadString(Ahead()));
          value := value + text;
        }
        return;
      }
      PrependMore(value, Escaped(c), ReadString(a[2..]));
      if c == QUOTE || c == BACKSLASH || c == 0x2F {
        value := value + [c];
      } else if c == 0x62 {
        value := value + [0x08];
      } else if c == 0x66 {
        value := value + [0x0C];
      } else if c == 0x6E {
        value := value + [0x0A];
      } else if c == 0x72 {
        value := value + [0x0D];
      } else if c == 0x74 {
        value := value + [0x09];
      } else {
        value := value + [BACKSLASH] + [c];
        assert value == value0 + Escaped(c);
      }
      pos := pos + 1;
      assert Ahead() == a[2..];
      st := Good;
    }

    /** The current token stands for `t`: its value counts only when the kind has one. */
    ghost predicate Reads(t: Token)
      reads this
    {
      token.kind == t.kind && (HoldsValue(t.kind) ==> token.value == t.value)
    }

    ghost predicate ReadsToken(st: Status, r: Read<Token>)
      requires pos <= |data|
      reads this
    {
      match r
      case Got(t, rest) => st == Good && Reads(t) && Ahead() == rest
      case Bad => st == Wrong
      case Wild => st == Astray
    }

    method ReadNumber() returns (value: Value)
      requires Valid() && pos < |data|
      modifies this`pos
      ensures Valid() && var n := NumberLength(old(Ahead()));
              value == NumberValue(old(Ahead())[..n]) && Ahead() == old(Ahead())[n..]
    {
      hide ToInt64;
      ghost var s := Ahead();
      var n: Text := [];
      var isDouble := false;
      while true
        invariant Valid() && |n| <= |s| && n == s[..|n|] && Ahead() == s[|n|..]
        invariant (forall i :: 0 <= i < |n| ==> InNumber(n[i])) && (isDouble <==> 0x2E in n)
        decreases |data| - pos
      {
        AheadChar();
        var c := Char(0);
        if c == 0x45 || c == 0x65 || c == 0x2D || c == 0x2B || IsDigit(c) {
          n := n + [c];
          pos := pos + 1;
        } else if c == 0x2E {
          isDouble := true;
          n := n + [c];
          pos := pos + 1;
        } else {
          break;
        }
      }
      NumberStops(s, |n|);
      value := if isDouble then Double(n) else Int(ToInt64(n));
    }

    /** A literal word at the position. */
    method ReadWord(word: Text, value: Value) returns (st: Status)
      requires Valid()
      modifies this`pos, this`token
      ensures Valid() && st == if word <= old(Ahead()) then Good else Wrong
      ensures st == Good ==> token == old(token).(value := value) && |word| <= |old(Ahead())| && Ahead() == old(Ahead())[|word|..]
    {
      ghost var s := Ahead();
      for i := 0 to |word|
        invariant i <= |s| && word[..i] == s[..i]
      {
        if pos + i >= |data| || data[pos + i] != word[i] {
          assert !(word <= s);
          return Wrong;
        }
        assert s[i] == data[pos + i];
      }
      assert word == word[..|word|];
      pos := pos + |word|;
      token := token.(value := value);
      st := Good;
    }

    method ReadToken() returns (st: Status)
      requires Valid()
      modifies this`pos, this`line, this`token
      ensures Valid() && ReadsToken(st, JsonText.ReadToken(old(Ahead())))
    {
      hide TrimStart, ReadString, NumberLength, NumberValue;
      SkipSpace();
      AheadChar();
      ghost var s := Ahead();
      token := token.(kind := Char(0));
      if token.kind == END {
        return Good;
      }
      if IsMark(token.kind) {
        pos := pos + 1;
        return Good;
      }
      if token.kind == QUOTE {
        pos := pos + 1;
        var value;
        st, value := ReadStringToken();
        if st == Good {
          token := token.(value := Str(value));
        }
        return;
      }
      if token.kind == 0x74 {
        st := ReadWord(TRUE, Bool(true));
        return;
      }
      if token.kind == 0x66 {
        st := ReadWord(FALSE, Bool(false));
        return;
      }
      if token.kind == 0x6E {
        st := ReadWord(NULL, Null);
        return;
      }
      token := token.(kind := NUMBER);
      if Char(0) == 0x2D || IsDigit(Char(0)) {
        var value := ReadNumber();
        token := token.(value := value);
        return Good;
      }
      st := Wrong;
    }

    // ---- parsing ----

    ghost predicate Parses<T>(st: Status, value: T, p: Parsed<T>)
      requires pos <= |data|
      reads this
    {
      match p
      case Done(v, t, rest) => st == Good && value == v && Reads(t) && Ahead() == rest
      case Failed => st == Wrong
      case Strayed => st == Astray
    }

    method ParseValue() returns (st: Status, result: Value)
      requires Valid()
      modifies this`pos, this`line, this`token
      ensures Valid() && Parses(st, result, JsonText.ParseValue(old(token), old(Ahead())))
      decreases Weight(token, Ahead()), 0
    {
      hide JsonText.ReadToken;
      ghost var t, s := token, Ahead();
      result := Null;
      if HoldsValue(token.kind) {
        result := token.value;
        st := ReadToken();
      } else if token.kind == OPEN_LIST {
        st, result := ParseArray();
      } else if token.kind == OPEN_MAP {
        st, result := ParseObject();
      } else {
        st := Wrong;
      }
    }

    method ParseArray() returns (st: Status, result: Value)
      requires Valid() && token.kind == OPEN_LIST
      modifies this`pos, this`line, this`token
      ensures Valid() && Parses(st, result, JsonText.ParseValue(old(token), old(Ahead())))
      decreases |Ahead()|, 2
    {
      hide JsonText.ReadToken, JsonText.ParseItems;
      ghost var t0, s0 := token, Ahead();
      result := List([]);
      st := ReadToken();
      if st != Good {
        return;
      }
      ghost var r := JsonText.ReadToken(s0);
      AlikeValues(token, r.value, r.rest);
      var list: seq<Value>;
      st, list := ParseElements();
      result := List(list);
    }

    /** The values between the brackets, and the closing bracket. */
    method ParseElements() returns (st: Status, list: seq<Value>)
      requires Valid()
      modifies this`pos, this`line, this`token
      ensures Valid() && Parses(st, list, JsonText.ParseItems(old(token), old(Ahead())))
      decreases Weight(token, Ahead()), 1
    {
      hide JsonText.ReadToken, JsonText.ParseValue, JsonText.ParseItems, PrependItems;
      ghost var all := JsonText.ParseItems(token, Ahead());
      list := [];
      NoItemsYet(all);
      while token.kind != CLOSE_LIST
        invariant Valid() && PrependItems(list, JsonText.ParseItems(token, Ahead())) == all
        invariant Weight(token, Ahead()) <= old(Weight(token, Ahead()))
        decreases Weight(token, Ahead())
      {
        ItemsValue(list, token, Ahead(), all);
        var value;
        st, value := ParseValue();
        if st != Good {
          return;
        }
        list := list + [value];
        if token.kind == CLOSE_LIST {
          break;
        }
        if token.kind != COMMA {
          st := Wrong;
          return;
        }
        ghost var s := Ahead();
        st := ReadToken();
        if st != Good {
          return;
        }
        AlikeValues(token, JsonText.ReadToken(s).value, Ahead());
      }
      ItemsClosed(list, token, Ahead(), all);
      ItemsFinished(list, JsonText.ReadToken(Ahead()));
      st := ReadToken();
    }

    method ParseObject() returns (st: Status, result: Value)
      requires Valid() && token.kind == OPEN_MAP
      modifies this`pos, this`line, this`token
      ensures Valid() && Parses(st, result, JsonText.ParseValue(old(token), old(Ahead())))
      decreases |Ahead()|, 2
    {
      hide JsonText.ReadToken, JsonText.ParseMembers;
      ghost var r := JsonText.ReadToken(Ahead());
      result := Map([]);
      st := ReadToken();
      if st != Good {
        return;
      }
      AlikeMembers(token, r.value, r.rest, []);
      var members: seq<Member<Value>>;
      st, members := ParsePairs();
      result := Map(members);
    }

    /** The members between the braces, and the closing brace. */
    method ParsePairs() returns (st: Status, members: seq<Member<Value>>)
      requires Valid()
      modifies this`pos, this`line, this`token
      ensures Valid() && Parses(st, members, JsonText.ParseMembers(old(token), old(Ahead()), []))
      decreases Weight(token, Ahead()), 1
    {
      hide JsonText.ReadToken, JsonText.ParseValue, JsonText.ParseMembers, PutMember;
      ghost var all := JsonText.ParseMembers(token, Ahead(), []);
      members := [];
      while token.kind != CLOSE_MAP
        invariant Valid() && JsonText.ParseMembers(token, Ahead(), members) == all
        invariant Weight(token, Ahead()) <= old(Weight(token, Ahead()))
        decreases Weight(token, Ahead())
      {
        MembersKey(members, token, Ahead(), all);
        if token.kind != QUOTE || !token.value.Str? {
          st := Wrong;
          return;
        }
        var key := token.value.s;
        st := ReadToken();
        if st != Good {
          return;
        }
        if token.kind != COLON {
          st := Wrong;
          return;
        }
        ghost var s := Ahead();
        st := ReadToken();
        if st != Good {
          return;
        }
        AlikeValues(token, JsonText.ReadToken(s).value, Ahead());
        var value;
        st, value := ParseValue();
        if st != Good {
          return;
        }
        members := PutMember(members, key, value);
        if token.kind == CLOSE_MAP {
          break;
        }
        if token.kind != COMMA {
          st := Wrong;
          return;
        }
        s := Ahead();
        st := ReadToken();
        if st != Good {
          return;
        }
        AlikeMembers(token, JsonText.ReadToken(s).value, Ahead(), members);
      }
      MembersClosed(members, token, Ahead(), all);
      st := ReadToken();
    }

    /** `parse`, into a result that starts as null. */
    method Parse() returns (st: Status, result: Value)
      requires Valid() && pos == 0
      modifies this`pos, this`line, this`token
      ensures Valid() && Parses(st, result, JsonText.Parse(data))
    {
      hide JsonText.ReadToken, JsonText.ParseValue;
      result := Null;
      line := 1;
      assert Ahead() == data;
      ghost var r := JsonText.ReadToken(data);
      st := ReadToken();
      if st != Good {
        return;
      }
      AlikeValues(token, r.value, r.rest);
      st, result := ParseValue();
    }
  }

  lemma PrependNothing(r: Read<Text>)
    ensures Prepend([], r) == r
  {
    if r.Got? { assert [] + r.value == r.value; }
  }

  lemma PrependMore(a: Text, b: Text, r: Read<Text>)
    ensures Prepend(a, Prepend(b, r)) == Prepend(a + b, r)
  {
    if r.Got? { assert a + (b + r.value) == a + b + r.value; }
  }

  lemma HexWhole(s: Text)
    requires HexAhead(s)
    ensures HexPrefix(s, 4) == Hex4(s)
  {
    assert HexPrefix(s, 1) == HexValue(s[0]);
    assert HexPrefix(s, 2) == HexValue(s[0]) * 16 + HexValue(s[1]);
    assert HexPrefix(s, 3) == (HexValue(s[0]) * 16 + HexValue(s[1])) * 16 + HexValue(s[2]);
  }

  /** The value of the first `i` of four digits. */
  ghost function HexPrefix(s: Text, i: int): nat
    requires 0 <= i <= 4 && i <= |s| && forall j :: 0 <= j < i ==> IsHexDigit(s[j])
  {
    if i == 0 then 0 else HexPrefix(s, i - 1) * 16 + HexValue(s[i - 1])
  }

  lemma NumberStops(s: Text, n: nat)
    requires n <= |s| && (forall i :: 0 <= i < n ==> InNumber(s[..n][i])) && (n < |s| ==> !InNumber(s[n..][0]))
    ensures NumberLength(s) == n
  {
    NumberEnds(s[..n], s[n..]);
    assert s == s[..n] + s[n..];
  }

  // ---- parsing ----

  /** A token counts for the parser by its kind, and by its value only when the kind has one. */
  predicate Alike(t: Token, u: Token) {
    t.kind == u.kind && (HoldsValue(t.kind) ==> t.value == u.value)
  }

  lemma AlikeValues(t: Token, u: Token, rest: Text)
    requires Alike(t, u)
    ensures ParseValue(t, rest) == ParseValue(u, rest)
    ensures ParseItems(t, rest) == ParseItems(u, rest)
  {
    hide JsonText.ReadToken, ParseMembers;
    assert ParseValue(t, rest) == ParseValue(u, rest);
  }

  lemma AlikeMembers(t: Token, u: Token, rest: Text, ms: seq<Member<Value>>)
    requires Alike(t, u)
    ensures ParseMembers(t, rest, ms) == ParseMembers(u, rest, ms)
  {
    hide JsonText.ReadToken, ParseValue, PutMember;
  }

  function PrependItems(acc: seq<Value>, p: Parsed<seq<Value>>): Parsed<seq<Value>> {
    if p.Done? then Done(acc + p.value, p.token, p.rest) else p
  }

  lemma NoItemsYet(p: Parsed<seq<Value>>)
    ensures PrependItems([], p) == p
  {
    if p.Done? { assert [] + p.value == p.value; }
  }

  lemma ItemsFinished(list: seq<Value>, r: Read<Token>)
    ensures PrependItems(list, Finish([], r)) == Finish(list, r)
  {
    assert list + [] == list;
  }

  /** The closing bracket ends the list, whether it stands first in a turn or behind a value. */
  lemma ItemsClosed(list: seq<Value>, t: Token, rest: Text, all: Parsed<seq<Value>>)
    requires t.kind == CLOSE_LIST
    requires all == PrependItems(list, ParseItems(t, rest)) || all == PrependItems(list, Finish([], JsonText.ReadToken(rest)))
    ensures all == PrependItems(list, Finish([], JsonText.ReadToken(rest)))
  {
    hide JsonText.ReadToken;
  }

  /** What a value in the list leads to. */
  lemma ItemsValue(list: seq<Value>, t: Token, rest: Text, all: Parsed<seq<Value>>)
    requires t.kind != CLOSE_LIST && all == PrependItems(list, ParseItems(t, rest))
    ensures var p := ParseValue(t, rest);
            if !p.Done? then all == NoMatch(p)
            else if p.token.kind == CLOSE_LIST then all == PrependItems(list + [p.value], Finish([], JsonText.ReadToken(p.rest)))
            else if p.token.kind != COMMA then all == Failed
            else match JsonText.ReadToken(p.rest)
                 case Got(t2, r2) => all == PrependItems(list + [p.value], ParseItems(t2, r2))
                 case Bad => all == Failed
                 case Wild => all == Strayed
  {
    hide JsonText.ReadToken, ParseValue;
    var p := ParseValue(t, rest);
    if p.Done? { assert list + [p.value] + [] == list + [p.value]; }
    if p.Done? && p.token.kind == COMMA {
      match JsonText.ReadToken(p.rest)
      case Got(t2, r2) =>
        var q := ParseItems(t2, r2);
        if q.Done? { assert list + ([p.value] + q.value) == list + [p.value] + q.value; }
      case _ =>
    }
  }

  lemma MembersClosed(ms: seq<Member<Value>>, t: Token, rest: Text, all: Parsed<seq<Member<Value>>>)
    requires t.kind == CLOSE_MAP
    requires all == ParseMembers(t, rest, ms) || all == Finish(ms, JsonText.ReadToken(rest))
    ensures all == Finish(ms, JsonText.ReadToken(rest))
  {
    hide JsonText.ReadToken;
  }

  /** What a member leads to. */
  lemma MembersKey(ms: seq<Member<Value>>, t: Token, rest: Text, all: Parsed<seq<Member<Value>>>)
    requires t.kind != CLOSE_MAP && all == ParseMembers(t, rest, ms)
    ensures if t.kind != QUOTE || !t.value.Str? then all == Failed
            else match JsonText.ReadToken(rest)
                 case Bad => all == Failed
                 case Wild => all == Strayed
                 case Got(t1, r1) => MembersColon(ms, t1, r1, t.value.s, all)
  {
    hide JsonText.ReadToken, ParseValue, PutMember;
  }

  ghost predicate MembersColon(ms: seq<Member<Value>>, t: Token, rest: Text, key: Text, all: Parsed<seq<Member<Value>>>) {
    if t.kind != COLON then all == Failed
    else match JsonText.ReadToken(rest)
         case Bad => all == Failed
         case Wild => all == Strayed
         case Got(t2, r2) => MembersRest(ms, key, ParseValue(t2, r2), all)
  }

  ghost predicate MembersRest(ms: seq<Member<Value>>, key: Text, p: Parsed<Value>, all: Parsed<seq<Member<Value>>>) {
    if !p.Done? then all == NoMatch(p)
    else
      var ms' := PutMember(ms, key, p.value);
      if p.token.kind == CLOSE_MAP then all == Finish(ms', JsonText.ReadToken(p.rest))
      else if p.token.kind != COMMA then all == Failed
      else match JsonText.ReadToken(p.rest)
           case Got(t3, r3) => all == ParseMembers(t3, r3, ms')
           case Bad => all == Failed
           case Wild => all == Strayed
  }

  // ---- printing ----

  predicate Special(c: Byte) {
    c == QUOTE || c == BACKSLASH
  }

  /** `findOneOf`: the place of the first quote or backslash from `p` on, unless a NUL or the end comes first. */
  function FindOneOf(s: Text, p: nat): (e: int)
    requires p <= |s|
    ensures e == -1 || (p <= e < |s| && Special(s[e]))
    decreases |s| - p
  {
    if p == |s| || s[p] == 0 then -1 else if Special(s[p]) then p else FindOneOf(s, p + 1)
  }

  /** What escaping does up to the next special character. */
  lemma {:induction false} EscapeRun(s: Text, p: nat)
    requires p <= |s|
    ensures var e := FindOneOf(s, p);
            if e == -1 then Escape(s[p..]) == s[p..]
            else Escape(s[p..]) == s[p..e] + [BACKSLASH, s[e]] + Escape(s[e + 1..])
    decreases |s| - p
  {
    hide Escape;
    EscapeStep(s[p..]);
    if p < |s| && s[p] != 0 {
      assert s[p..] == [s[p]] + s[p + 1..];
      if Special(s[p]) {
        assert s[p..p] == [];
      } else {
        EscapeRun(s, p + 1);
        var e := FindOneOf(s, p + 1);
        if e != -1 { Regroup(s, p, e, [BACKSLASH, s[e]], Escape(s[e + 1..])); }
      }
    }
  }

  lemma Regroup(s: Text, p: nat, e: nat, x: Text, y: Text)
    requires p < e <= |s|
    ensures [s[p]] + (s[p + 1..e] + x + y) == s[p..e] + x + y
  {
    assert s[p..e] == [s[p]] + s[p + 1..e];
  }

  lemma EscapeStep(t: Text)
    ensures t == [] || t[0] == 0 ==> Escape(t) == t
    ensures t != [] && t[0] != 0 ==> Escape(t) == (if Special(t[0]) then [BACKSLASH, t[0]] else [t[0]]) + Escape(t[1..])
  {
  }

  class Printer {
    var result: Text

    constructor ()
      ensures result == []
    {
      result := [];
    }

    method AppendEscapedString(str: Text)
      modifies this
      ensures result == old(result) + Quoted(str)
    {
      hide Escape;
      ghost var before := result + [QUOTE];
      result := result + [QUOTE];
      var p := 0;
      assert str[0..] == str;
      while true
        invariant p <= |str| && result + Escape(str[p..]) == before + Escape(str)
        decreases |str| - p
      {
        EscapeRun(str, p);
        var e := FindOneOf(str, p);
        if e == -1 {
          result := result + str[p..];
          break;
        }
        ghost var was := result;
        if e > p {
          result := result + str[p..e];
        }
        assert result == was + str[p..e];
        if str[e] == QUOTE {
          result := result + [BACKSLASH, QUOTE];
        } else {
          result := result + [BACKSLASH, BACKSLASH];
        }
        assert result + Escape(str[e + 1..]) == was + Escape(str[p..]);
        p := e + 1;
      }
      result := result + [QUOTE];
      assert before + Escape(str) + [QUOTE] == old(result) + Quoted(str);
    }

    method AppendVariant(v: Value, indentation: Text)
      modifies this
      ensures result == old(result) + Print(v, indentation)
      decreases v, 0
    {
      match v
      case Null => result := result + NULL;
      case Bool(b) => result := result + (if b then TRUE else FALSE);
      case Int(i) => result := result + IntText(i);
      case Double(text) => result := result + text;
      case Str(s) => AppendEscapedString(s);
      case List(vs) => AppendList(vs, indentation);
      case Array(vs) => AppendList(vs, indentation);
      case Map(ms) => AppendMap(ms, indentation);
    }

    method AppendList(vs: seq<Value>, indentation: Text)
      modifies this
      ensures result == old(result) + Print(List(vs), indentation)
      decreases vs, 1
    {
      hide PrintItems, Print;
      ListText(vs, indentation);
      if vs == [] {
        result := result + [OPEN_LIST, CLOSE_LIST];
        return;
      }
      result := result + [OPEN_LIST, LF];
      ghost var before := result;
      var newIndentation := indentation + [TAB];
      var i := 0;
      assert vs[0..] == vs;
      while true
        invariant i < |vs| && result + PrintItems(vs[i..], newIndentation) == before + PrintItems(vs, newIndentation)
        decreases |vs| - i
      {
        ghost var was := result;
        ItemsFrom(vs, i, newIndentation, was);
        result := result + newIndentation;
        AppendVariant(vs[i], newIndentation);
        i := i + 1;
        if i == |vs| {
          break;
        }
        result := result + [COMMA, LF];
      }
      assert result == before + PrintItems(vs, newIndentation);
      result := result + [LF];
      result := result + indentation;
      result := result + [CLOSE_LIST];
      assert result == old(result) + Print(List(vs), indentation);
    }

    method AppendMap(ms: seq<Member<Value>>, indentation: Text)
      modifies this
      ensures result == old(result) + Print(Map(ms), indentation)
      decreases ms, 1
    {
      hide PrintMembers, Quoted, Print;
      MapText(ms, indentation);
      if ms == [] {
        result := result + [OPEN_MAP, CLOSE_MAP];
        return;
      }
      result := result + [OPEN_MAP, LF];
      AppendMembers(ms, indentation + [TAB]);
      result := result + [LF];
      result := result + indentation;
      result := result + [CLOSE_MAP];
      assert result == old(result) + Print(Map(ms), indentation);
    }

    /** The members, each on a line of its own. */
    method AppendMembers(ms: seq<Member<Value>>, newIndentation: Text)
      requires ms != []
      modifies this
      ensures result == old(result) + PrintMembers(ms, newIndentation)
      decreases ms, 0
    {
      hide PrintMembers, Quoted, Print;
      ghost var before := result;
      var i := 0;
      assert ms[0..] == ms;
      while true
        invariant i < |ms| && result + PrintMembers(ms[i..], newIndentation) == before + PrintMembers(ms, newIndentation)
        decreases |ms| - i
      {
        ghost var was := result;
        MembersFrom(ms, i, newIndentation, was);
        result := result + newIndentation;
        AppendEscapedString(ms[i].key);
        result := result + [COLON, 0x20];
        AppendVariant(ms[i].value, newIndentation);
        i := i + 1;
        if i == |ms| {
          break;
        }
        result := result + [COMMA, LF];
      }
    }
  }

  lemma ListText(vs: seq<Value>, ind: Text)
    ensures Print(List(vs), ind) == if vs == [] then [OPEN_LIST, CLOSE_LIST] else [OPEN_LIST, LF] + PrintItems(vs, ind + [TAB]) + [LF] + ind + [CLOSE_LIST]
    ensures Print(Array(vs), ind) == Print(List(vs), ind)
  {
  }

  lemma MapText(ms: seq<Member<Value>>, ind: Text)
    ensures Print(Map(ms), ind) == if ms == [] then [OPEN_MAP, CLOSE_MAP] else [OPEN_MAP, LF] + PrintMembers(ms, ind + [TAB]) + [LF] + ind + [CLOSE_MAP]
  {
  }

  lemma ItemsFrom(vs: seq<Value>, i: nat, ind: Text, was: Text)
    requires i < |vs|
    ensures var done := was + ind + Print(vs[i], ind);
            was + PrintItems(vs[i..], ind) == if i + 1 == |vs| then done else done + [COMMA, LF] + PrintItems(vs[i + 1..], ind)
  {
    hide Print;
    assert vs[i..][1..] == vs[i + 1..];
  }

  lemma MembersFrom(ms: seq<Member<Value>>, i: nat, ind: Text, was: Text)
    requires i < |ms|
    ensures var done := was + ind + Quoted(ms[i].key) + [COLON, 0x20] + Print(ms[i].value, ind);
            was + PrintMembers(ms[i..], ind) == if i + 1 == |ms| then done else done + [COMMA, LF] + PrintMembers(ms[i + 1..], ind)
  {
    hide Print, Quoted;
    assert ms[i..][1..] == ms[i + 1..];
  }

  method ToString(data: Value) returns (r: Text)
    ensures r == Print(data, []) + [LF]
  {
    var printer := new Printer();
    printer.AppendVariant(data, []);
    r := printer.result + [LF];
  }

  /** The two together: a printable value survives printing and parsing. */
  method PrintAndParse(v: Value) returns (ok: bool, result: Value)
    requires Printable(v)
    ensures ok && result == Returned(v) && (result == AsLists(v) <==> Tidy(v))
  {
    var text := ToString(v);
    PrintedIsText(v);
    JsonText.RoundTrip(v);
    var parser := new Parser(text);
    var st;
    st, result := parser.Parse();
    ok := st == Good;
  }

  lemma PrintedIsText(v: Value)
    requires Printable(v)
    ensures NoNul(Print(v, []) + [LF])
  {
    ValueIsText(v, []);
  }
}
