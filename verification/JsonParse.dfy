/** The parser (`cJSON.c`): recursive methods that advance the offset and depth of a buffer. */
module JsonParse {
  import opened Wrappers
  import opened JsonStrings
  import opened JsonScan
  import opened Json
  import JsonText
  import opened JsonPrint

  /** Elements read so far, in front of the rest. */
  function Listed(kids: seq<Value>, rest: Elems): Elems
    decreases |kids|
  {
    if kids == [] then rest else Listed(kids[..|kids| - 1], Elem(kids[|kids| - 1], rest))
  }

  function ListedAll(kids: seq<Value>, r: Option<(Elems, nat)>): Option<(Elems, nat)> {
    match r
    case None => None
    case Some(q) => Some((Listed(kids, q.0), q.1))
  }

  lemma ListedNone(r: Option<(Elems, nat)>)
    ensures ListedAll([], r) == r
  {
  }

  lemma ListedMore(kids: seq<Value>, v: Value, r: Option<(Elems, nat)>)
    ensures ListedAll(kids + [v], r) == ListedAll(kids, if r.None? then None else Some((Elem(v, r.value.0), r.value.1)))
  {
    assert (kids + [v])[..|kids|] == kids;
  }

  lemma ListedEnd(kids: seq<Value>, o: nat)
    ensures ListedAll(kids, Some((NoElem, o))) == Some((Listed(kids, NoElem), o)) && ListedAll(kids, None) == None
  {
  }

  function Named(kids: seq<(Text, Value)>, rest: Members): Members
    decreases |kids|
  {
    if kids == [] then rest
    else Named(kids[..|kids| - 1], Member(kids[|kids| - 1].0, kids[|kids| - 1].1, rest))
  }

  function NamedAll(kids: seq<(Text, Value)>, r: Option<(Members, nat)>): Option<(Members, nat)> {
    match r
    case None => None
    case Some(q) => Some((Named(kids, q.0), q.1))
  }

  lemma NamedNone(r: Option<(Members, nat)>)
    ensures NamedAll([], r) == r
  {
  }

  lemma NamedMore(kids: seq<(Text, Value)>, m: (Text, Value), r: Option<(Members, nat)>)
    ensures NamedAll(kids + [m], r) ==
            NamedAll(kids, if r.None? then None else Some((Member(m.0, m.1, r.value.0), r.value.1)))
  {
    assert (kids + [m])[..|kids|] == kids;
  }

  lemma NamedEnd(kids: seq<(Text, Value)>, o: nat)
    ensures NamedAll(kids, Some((NoMember, o))) == Some((Named(kids, NoMember), o)) && NamedAll(kids, None) == None
  {
  }

  /** The member at `o`: its name, its value and the offset after that. */
  function MemberAt(scan: Strtod, c: Text, o: nat, d: nat): (r: Option<(Text, Value, nat)>)
    requires Terminated(c) && o < |c|
    ensures r.Some? ==> o < r.value.2 < |c|
  {
    match ParseHead(c, o)
    case None => None
    case Some(h) =>
      match ParseVal(scan, c, h.1, d)
      case None => None
      case Some(q) => Some((h.0, q.0, q.1))
  }

  lemma MemberStep(scan: Strtod, c: Text, o: nat, d: nat)
    requires Terminated(c) && o < |c|
    ensures var r := MemberAt(scan, c, o, d);
            && (r.None? ==> ParseMembers(scan, c, o, d) == None)
            && (r.Some? ==>
                  var o2 := Skip(c, r.value.2);
                  && (c[o2] == CLOSE_OBJECT ==>
                        ParseMembers(scan, c, o, d) == Some((Member(r.value.0, r.value.1, NoMember), o2 + 1)))
                  && (c[o2] == COMMA ==>
                        var q := ParseMembers(scan, c, o2 + 1, d);
                        ParseMembers(scan, c, o, d) ==
                        if q.None? then None else Some((Member(r.value.0, r.value.1, q.value.0), q.value.1)))
                  && (c[o2] != COMMA && c[o2] != CLOSE_OBJECT ==> ParseMembers(scan, c, o, d) == None))
  {
    hide ParseVal, ParseHead, ParseMembers, Skip;
    if ParseHead(c, o).None? { NoHead(scan, c, o, d); } else { MembersStep(scan, c, o, d); }
  }

  lemma NumberOf(scan: Strtod, c: Text, o: nat, i: nat)
    requires Terminated(c) && o + i <= |c| && i == Run(c, o, NUMBER_SIZE) && o < |c|
    ensures var t := c[o..o + i];
            var n := Taken(scan, t);
            && ParseNum(scan, c, o) == (if n == 0 then None else Some((Number(t[..n]), o + n)))
            && (n > 0 ==> o + n < |c|)
  {
  }

  class ParseBuffer {
    const content: Text
    var offset: nat
    var depth: nat

    ghost predicate Valid() reads this { Terminated(content) && offset < |content| }

    constructor (text: Text)
      ensures Valid() && content == text + [0] && offset == 0 && depth == 0
    {
      content, offset, depth := text + [0], 0, 0;
    }

    /** `buffer_skip_whitespace`. */
    method SkipWhitespace()
      requires Valid()
      modifies this`offset
      ensures Valid() && offset == Skip(content, old(offset))
    {
      while offset < |content| && content[offset] <= SPACE
        invariant offset <= |content|
        invariant offset < |content| ==> Skip(content, offset) == Skip(content, old(offset))
        invariant offset == |content| ==> Skip(content, old(offset)) == |content| - 1
        decreases |content| - offset
      {
        offset := offset + 1;
      }
      if offset == |content| {
        offset := offset - 1;
      }
    }

    method ParseStringHere() returns (ok: bool, s: Text)
      requires Valid()
      modifies this`offset
      ensures ok <==> ParseStr(content, old(offset)).Some?
      ensures ok ==> Valid() && ParseStr(content, old(offset)) == Some((s, offset))
    {
      var next;
      ok, s, next := ParseString(content, offset);
      offset := next;
    }

    /** `parse_number`, with `strtod` as a parameter. */
    method ParseNumber(scan: Strtod) returns (ok: bool, v: Value)
      requires Valid()
      modifies this`offset
      ensures ok <==> ParseNum(scan, content, old(offset)).Some?
      ensures ok ==> Valid() && ParseNum(scan, content, old(offset)) == Some((v, offset))
    {
      hide Run, NumberChar;
      var i := 0;
      while i < NUMBER_SIZE && offset + i < |content| && NumberChar(content[offset + i])
        invariant i <= NUMBER_SIZE && offset == old(offset) && offset + i <= |content|
        invariant i + Run(content, offset + i, NUMBER_SIZE - i) == Run(content, offset, NUMBER_SIZE)
      {
        RunStep(content, offset + i, NUMBER_SIZE - i);
        i := i + 1;
      }
      RunStep(content, offset + i, NUMBER_SIZE - i);
      NumberOf(scan, content, offset, i);
      var t := content[offset..offset + i];
      var n := Taken(scan, t);
      v := Null;
      if n == 0 {
        return false, v;
      }
      v := Number(t[..n]);
      offset := offset + n;
      return true, v;
    }

    /** `parse_value`. */
    method ParseValue(scan: Strtod) returns (ok: bool, v: Value)
      requires Valid()
      modifies this
      ensures ok <==> ParseVal(scan, content, old(offset), old(depth)).Some?
      ensures ok ==>
        Valid() && depth == old(depth) && ParseVal(scan, content, old(offset), old(depth)) == Some((v, offset))
      decreases |content| - offset, 2
    {
      hide At, ParseStr, ParseNum, ParseElems, ParseMembers, Skip;
      v := Null;
      ok := true;
      if At(content, offset, NULL_TEXT) {
        AtEnd(content, offset, NULL_TEXT);
        offset := offset + 4;
      } else if At(content, offset, FALSE_TEXT) {
        v := False;
        offset := offset + 5;
      } else if At(content, offset, TRUE_TEXT) {
        v := True;
        offset := offset + 4;
      } else if content[offset] == QUOTE {
        var s;
        ok, s := ParseStringHere();
        v := String(s);
      } else if NumberStart(content[offset]) {
        ok, v := ParseNumber(scan);
      } else if content[offset] == OPEN_LIST {
        ok, v := ParseArray(scan);
      } else if content[offset] == OPEN_OBJECT {
        ok, v := ParseObject(scan);
      } else {
        ok := false;
      }
    }

    /** One round of the loop of `parse_array`: an element and the blanks around it. */
    method ParseElement(scan: Strtod) returns (ok: bool, value: Value)
      requires Terminated(content) && offset + 1 < |content|
      modifies this
      ensures ok <==> ParseVal(scan, content, Skip(content, old(offset) + 1), old(depth)).Some?
      ensures ok ==>
        var r := ParseVal(scan, content, Skip(content, old(offset) + 1), old(depth)).value;
        Valid() && depth == old(depth) && old(offset) < offset == Skip(content, r.1) && value == r.0
      decreases |content| - offset, 0
    {
      hide ParseVal, Skip;
      offset := offset + 1;
      SkipWhitespace();
      ok, value := ParseValue(scan);
      if ok { SkipWhitespace(); }
    }

    /** One round of the loop of `parse_object`. */
    method ParseMember(scan: Strtod) returns (ok: bool, name: Text, value: Value)
      requires Terminated(content) && offset + 1 < |content|
      modifies this
      ensures ok <==> MemberAt(scan, content, old(offset) + 1, old(depth)).Some?
      ensures ok ==>
        var r := MemberAt(scan, content, old(offset) + 1, old(depth)).value;
        Valid() && depth == old(depth) && old(offset) < offset == Skip(content, r.2) && name == r.0 && value == r.1
      decreases |content| - offset, 0
    {
      hide ParseVal, ParseHead, Skip;
      value := Null;
      offset := offset + 1;
      ok, name := ParseName();
      if !ok {
        return;
      }
      ok, value := ParseValue(scan);
      if ok { SkipWhitespace(); }
    }

    /** `parse_array`. */
    method ParseArray(scan: Strtod) returns (ok: bool, v: Value)
      requires Valid() && content[offset] == OPEN_LIST
      modifies this
      ensures ok <==> ParseVal(scan, content, old(offset), old(depth)).Some?
      ensures ok ==>
        Valid() && depth == old(depth) && ParseVal(scan, content, old(offset), old(depth)) == Some((v, offset))
      decreases |content| - offset, 1
    {
      hide ParseVal, ParseElems, Skip, Listed, ListedAll;
      v := Null;
      ListStep(scan, content, offset, depth);
      if depth >= NESTING_LIMIT {
        return false, v;
      }
      depth := depth + 1;
      offset := offset + 1;
      SkipWhitespace();
      if content[offset] == CLOSE_LIST {
        depth := depth - 1;
        offset := offset + 1;
        return true, List(NoElem);
      }
      ghost var start, d := offset, depth;
      offset := offset - 1;
      var kids: seq<Value> := [];
      ListedNone(ParseElems(scan, content, start, d));
      while true
        invariant old(offset) <= offset && offset + 1 < |content| && depth == d
        invariant ParseElems(scan, content, start, d) == ListedAll(kids, ParseElems(scan, content, offset + 1, d))
        decreases |content| - offset
      {
        ElemsStep(scan, content, offset + 1, d);
        ListedEnd(kids, 0);
        var value;
        ok, value := ParseElement(scan);
        if !ok {
          return false, v;
        }
        if content[offset] != COMMA {
          ListedMore(kids, value, Some((NoElem, offset + 1)));
          kids := kids + [value];
          break;
        }
        ListedMore(kids, value, ParseElems(scan, content, offset + 1, d));
        kids := kids + [value];
      }
      if content[offset] != CLOSE_LIST {
        return false, v;
      }
      ListedEnd(kids, offset + 1);
      depth := depth - 1;
      offset := offset + 1;
      return true, List(Listed(kids, NoElem));
    }

    /** The name, the colon and the blanks around them. */
    method ParseName() returns (ok: bool, name: Text)
      requires Valid()
      modifies this`offset
      ensures ok <==> ParseHead(content, old(offset)).Some?
      ensures ok ==> Valid() && ParseHead(content, old(offset)) == Some((name, offset))
    {
      hide Skip, ParseStr;
      SkipWhitespace();
      ok, name := ParseStringHere();
      if !ok {
        return;
      }
      SkipWhitespace();
      if content[offset] != COLON {
        return false, name;
      }
      offset := offset + 1;
      SkipWhitespace();
    }

    /** `parse_object`. */
    method ParseObject(scan: Strtod) returns (ok: bool, v: Value)
      requires Valid() && content[offset] == OPEN_OBJECT
      modifies this
      ensures ok <==> ParseVal(scan, content, old(offset), old(depth)).Some?
      ensures ok ==>
        Valid() && depth == old(depth) && ParseVal(scan, content, old(offset), old(depth)) == Some((v, offset))
      decreases |content| - offset, 1
    {
      hide ParseVal, ParseMembers, MemberAt, Skip, Named, NamedAll;
      v := Null;
      ObjectStep(scan, content, offset, depth);
      if depth >= NESTING_LIMIT {
        return false, v;
      }
      depth := depth + 1;
      offset := offset + 1;
      SkipWhitespace();
      if content[offset] == CLOSE_OBJECT {
        depth := depth - 1;
        offset := offset + 1;
        return true, Object(NoMember);
      }
      ghost var start, d := offset, depth;
      offset := offset - 1;
      var kids: seq<(Text, Value)> := [];
      NamedNone(ParseMembers(scan, content, start, d));
      while true
        invariant old(offset) <= offset && offset + 1 < |content| && depth == d
        invariant ParseMembers(scan, content, start, d) == NamedAll(kids, ParseMembers(scan, content, offset + 1, d))
        decreases |content| - offset
      {
        MemberStep(scan, content, offset + 1, d);
        NamedEnd(kids, 0);
        var name, value;
        ok, name, value := ParseMember(scan);
        if !ok {
          return false, v;
        }
        if content[offset] != COMMA {
          NamedMore(kids, (name, value), Some((NoMember, offset + 1)));
          kids := kids + [(name, value)];
          break;
        }
        NamedMore(kids, (name, value), ParseMembers(scan, content, offset + 1, d));
        kids := kids + [(name, value)];
      }
      if content[offset] != CLOSE_OBJECT {
        return false, v;
      }
      NamedEnd(kids, offset + 1);
      depth := depth - 1;
      offset := offset + 1;
      return true, Object(Named(kids, NoMember));
    }
  }

  lemma CStringUnfold(t: Text)
    ensures CString(t) == if t == [] || t[0] == 0 then [] else [t[0]] + CString(t[1..])
  {
  }

  lemma CStringStep(t: Text, n: nat)
    requires n <= |t|
    ensures n < |t| && t[n] != 0 ==> t[..n] + CString(t[n..]) == t[..n + 1] + CString(t[n + 1..])
    ensures n == |t| || t[n] == 0 ==> t[..n] + CString(t[n..]) == t[..n]
  {
    hide CString;
    CStringUnfold(t[n..]);
    if n < |t| {
      assert t[n..][0] == t[n] && t[n..][1..] == t[n + 1..];
      assert t[..n + 1] == t[..n] + [t[n]];
    }
  }

  /** `cJSON_Parse`: the text up to the NUL that `strlen` finds. */
  method ParseText(scan: Strtod, text: Text) returns (r: Option<Value>)
    ensures r == Parse(scan, text)
  {
    hide ParseVal, Skip, CString;
    var n := 0;
    assert text[..0] + CString(text[0..]) == CString(text) by { assert text[0..] == text; }
    while n < |text| && text[n] != 0
      invariant n <= |text| && CString(text) == text[..n] + CString(text[n..])
    {
      CStringStep(text, n);
      n := n + 1;
    }
    CStringStep(text, n);
    var b := new ParseBuffer(text[..n]);
    if |b.content| > 4 && b.content[..3] == [0xEF, 0xBB, 0xBF] {
      b.offset := b.offset + 3;
    }
    b.SkipWhitespace();
    var ok, v := b.ParseValue(scan);
    r := if ok then Some(v) else None;
  }

  /** What is printed, formatted or not, is parsed back exactly when it nests at most 1000 deep. */
  method PrintThenParse(scan: Strtod, v: Value, fmt: bool) returns (r: Option<Value>)
    requires Proper(scan, v) && |Render(v, fmt, 0)| + 2 <= INT_MAX
    ensures r == if Height(v) <= 1000 then Some(v) else None
  {
    hide Render, Proper, Height, Parse;
    ProperIsClean(scan, v);
    var text := Print(v, fmt);
    r := ParseText(scan, text.value);
    JsonText.RoundTrip(scan, v, fmt);
  }
}
