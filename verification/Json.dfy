/** JSON values: what printing a tree writes, what parsing reads, and that the two are inverse. */
module Json {
  import opened Wrappers
  import opened Octets
  import opened JsonStrings

  const NESTING_LIMIT: nat := 1000
  const NUMBER_SIZE: nat := 63

  const COMMA: Byte := 44
  const COLON: Byte := 58
  const OPEN_LIST: Byte := 91
  const CLOSE_LIST: Byte := 93
  const OPEN_OBJECT: Byte := 123
  const CLOSE_OBJECT: Byte := 125
  const SPACE: Byte := 32
  const TAB: Byte := 9
  const NEWLINE: Byte := 10

  const NULL_TEXT: Text := [110, 117, 108, 108]
  const FALSE_TEXT: Text := [102, 97, 108, 115, 101]
  const TRUE_TEXT: Text := [116, 114, 117, 101]

  /** An item and its children, in the order of the `next` pointers. Numbers are opaque tokens. */
  datatype Value =
    | Null
    | False
    | True
    | Number(token: Text)
    | String(s: Text)
    | List(elems: Elems)
    | Object(members: Members)

  datatype Elems = NoElem | Elem(value: Value, next: Elems)

  datatype Members = NoMember | Member(name: Text, value: Value, next: Members)

  /** How much of a run of number characters `strtod` takes. */
  type Strtod = Text -> nat

  predicate NumberChar(b: Byte) { 48 <= b <= 57 || b == 43 || b == 45 || b == 101 || b == 69 || b == 46 }

  predicate NumberStart(b: Byte) { b == 45 || 48 <= b <= 57 }

  /** The length of the run of number characters at `o`, at most `limit`. */
  function Run(c: Text, o: nat, limit: nat): (r: nat)
    ensures r <= limit && (o <= |c| ==> o + r <= |c|)
    ensures forall j :: o <= j < o + r && j < |c| ==> NumberChar(c[j])
    decreases limit
  {
    if limit == 0 || o >= |c| || !NumberChar(c[o]) then 0 else 1 + Run(c, o + 1, limit - 1)
  }

  lemma RunStep(c: Text, o: nat, limit: nat)
    ensures limit > 0 && o < |c| && NumberChar(c[o]) ==> Run(c, o, limit) == 1 + Run(c, o + 1, limit - 1)
    ensures !(limit > 0 && o < |c| && NumberChar(c[o])) ==> Run(c, o, limit) == 0
  {
  }

  function Taken(scan: Strtod, t: Text): nat { if scan(t) <= |t| then scan(t) else |t| }

  /** A token that a number can be printed as: `strtod` takes all of it. */
  predicate Token(scan: Strtod, t: Text) {
    && 1 <= |t| <= NUMBER_SIZE && NumberStart(t[0]) && (forall i :: 0 <= i < |t| ==> NumberChar(t[i]))
    && Taken(scan, t) == |t|
  }

  /** Strings end at a NUL, so those of a tree hold none; numbers are tokens. */
  predicate Proper(scan: Strtod, v: Value) {
    match v
    case Number(t) => Token(scan, t)
    case String(s) => NulFree(s)
    case List(es) => ProperElems(scan, es)
    case Object(ms) => ProperMembers(scan, ms)
    case _ => true
  }

  predicate ProperElems(scan: Strtod, es: Elems) {
    es.Elem? ==> Proper(scan, es.value) && ProperElems(scan, es.next)
  }

  predicate ProperMembers(scan: Strtod, ms: Members) {
    ms.Member? ==> NulFree(ms.name) && Proper(scan, ms.value) && ProperMembers(scan, ms.next)
  }

  function Max(a: nat, b: nat): nat { if a < b then b else a }

  /** How many lists and objects are nested. */
  function Height(v: Value): nat {
    match v
    case List(es) => 1 + HeightElems(es)
    case Object(ms) => 1 + HeightMembers(ms)
    case _ => 0
  }

  function HeightElems(es: Elems): nat {
    if es.NoElem? then 0 else Max(Height(es.value), HeightElems(es.next))
  }

  function HeightMembers(ms: Members): nat {
    if ms.NoMember? then 0 else Max(Height(ms.value), HeightMembers(ms.next))
  }

  function Tabs(n: nat): Text { seq(n, _ => TAB) }

  function If(b: bool, t: Text): Text { if b then t else [] }

  /** The text of a value inside `d` lists and objects, formatted or not. */
  function Render(v: Value, fmt: bool, d: nat): Text {
    match v
    case Null => NULL_TEXT
    case False => FALSE_TEXT
    case True => TRUE_TEXT
    case Number(t) => t
    case String(s) => Quoted(s)
    case List(es) => [OPEN_LIST] + RenderElems(es, fmt, d + 1) + [CLOSE_LIST]
    case Object(ms) =>
      [OPEN_OBJECT] + If(fmt, [NEWLINE]) + RenderMembers(ms, fmt, d + 1) + If(fmt, Tabs(d)) + [CLOSE_OBJECT]
  }

  function RenderElems(es: Elems, fmt: bool, d: nat): Text {
    match es
    case NoElem => []
    case Elem(v, next) =>
      Render(v, fmt, d) + if next.NoElem? then [] else [COMMA] + If(fmt, [SPACE]) + RenderElems(next, fmt, d)
  }

  function RenderMembers(ms: Members, fmt: bool, d: nat): Text {
    match ms
    case NoMember => []
    case Member(name, v, next) =>
      MemberHead(name, fmt, d) + Render(v, fmt, d) + If(next.Member?, [COMMA]) +
        If(fmt, [NEWLINE]) + RenderMembers(next, fmt, d)
  }

  function MemberHead(name: Text, fmt: bool, d: nat): Text {
    If(fmt, Tabs(d)) + Quoted(name) + [COLON] + If(fmt, [TAB])
  }

  /** A C string: the terminator is part of the buffer, so the last byte is always there to look at. */
  predicate Terminated(c: Text) { c != [] && c[|c| - 1] == 0 }

  /** `buffer_skip_whitespace`: never leaves the offset past the end. */
  function Skip(c: Text, o: nat): (r: nat)
    requires o < |c|
    ensures o <= r < |c|
    decreases |c| - o
  {
    if c[o] > SPACE || o + 1 == |c| then o else Skip(c, o + 1)
  }

  /** `parse_value` at offset `o`, inside `d` lists and objects: the value and the offset after it. */
  function ParseVal(scan: Strtod, c: Text, o: nat, d: nat): (r: Option<(Value, nat)>)
    requires Terminated(c) && o < |c|
    ensures r.Some? ==> o < r.value.1 < |c|
    decreases |c| - o, 0
  {
    if At(c, o, NULL_TEXT) then Some((Null, o + 4))
    else if At(c, o, FALSE_TEXT) then Some((False, o + 5))
    else if At(c, o, TRUE_TEXT) then Some((True, o + 4))
    else if c[o] == QUOTE then
      match ParseStr(c, o)
      case None => None
      case Some(r) => Some((String(r.0), r.1))
    else if NumberStart(c[o]) then ParseNum(scan, c, o)
    else if c[o] == OPEN_LIST && d < NESTING_LIMIT then
      var o1 := Skip(c, o + 1);
      if c[o1] == CLOSE_LIST then Some((List(NoElem), o1 + 1))
      else
        match ParseElems(scan, c, o1, d + 1)
        case None => None
        case Some(r) => Some((List(r.0), r.1))
    else if c[o] == OPEN_OBJECT && d < NESTING_LIMIT then
      var o1 := Skip(c, o + 1);
      if c[o1] == CLOSE_OBJECT then Some((Object(NoMember), o1 + 1))
      else
        match ParseMembers(scan, c, o1, d + 1)
        case None => None
        case Some(r) => Some((Object(r.0), r.1))
    else None
  }

  function ParseNum(scan: Strtod, c: Text, o: nat): (r: Option<(Value, nat)>)
    requires Terminated(c) && o < |c|
    ensures r.Some? ==> o < r.value.1 < |c|
  {
    var t := c[o..o + Run(c, o, NUMBER_SIZE)];
    var n := Taken(scan, t);
    if n == 0 then None else Some((Number(t[..n]), o + n))
  }

  /** The elements from `o` on, up to and including the closing bracket. */
  function ParseElems(scan: Strtod, c: Text, o: nat, d: nat): (r: Option<(Elems, nat)>)
    requires Terminated(c) && o < |c|
    ensures r.Some? ==> o < r.value.1 < |c|
    decreases |c| - o, 1
  {
    match ParseVal(scan, c, Skip(c, o), d)
    case None => None
    case Some(r) =>
      var o2 := Skip(c, r.1);
      if c[o2] == COMMA then
        match ParseElems(scan, c, o2 + 1, d)
        case None => None
        case Some(q) => Some((Elem(r.0, q.0), q.1))
      else if c[o2] == CLOSE_LIST then Some((Elem(r.0, NoElem), o2 + 1))
      else None
  }

  /** The name and the colon of a member. */
  function ParseHead(c: Text, o: nat): (r: Option<(Text, nat)>)
    requires Terminated(c) && o < |c|
    ensures r.Some? ==> o < r.value.1 < |c|
  {
    match ParseStr(c, Skip(c, o))
    case None => None
    case Some(r) =>
      var o2 := Skip(c, r.1);
      if c[o2] != COLON then None else Some((r.0, Skip(c, o2 + 1)))
  }

  function ParseMembers(scan: Strtod, c: Text, o: nat, d: nat): (r: Option<(Members, nat)>)
    requires Terminated(c) && o < |c|
    ensures r.Some? ==> o < r.value.1 < |c|
    decreases |c| - o, 1
  {
    match ParseHead(c, o)
    case None => None
    case Some(h) =>
      match ParseVal(scan, c, h.1, d)
      case None => None
      case Some(r) =>
        var o2 := Skip(c, r.1);
        if c[o2] == COMMA then
          match ParseMembers(scan, c, o2 + 1, d)
          case None => None
          case Some(q) => Some((Member(h.0, r.0, q.0), q.1))
        else if c[o2] == CLOSE_OBJECT then Some((Member(h.0, r.0, NoMember), o2 + 1))
        else None
  }

  lemma {:induction false} SkipBlank(c: Text, o: nat, t: Text)
    requires At(c, o, t) && o + |t| < |c| && forall i :: 0 <= i < |t| ==> t[i] <= SPACE
    ensures Skip(c, o) == Skip(c, o + |t|)
    decreases |t|
  {
    if t != [] {
      AtConcat(c, o, [t[0]], t[1..]);
      assert t == [t[0]] + t[1..];
      AtIndex(c, o, t, 0);
      SkipBlank(c, o + 1, t[1..]);
    }
  }

  /** A printed value starts with a character that is no blank and closes nothing. */
  lemma FirstChar(scan: Strtod, v: Value, fmt: bool, d: nat)
    requires Proper(scan, v)
    ensures var t := Render(v, fmt, d); t != [] && SPACE < t[0] < 128 && t[0] != CLOSE_LIST && t[0] != CLOSE_OBJECT
  {
  }

  lemma {:induction false} RunToken(c: Text, o: nat, t: Text, limit: nat)
    requires At(c, o, t) && |t| <= limit && o + |t| < |c| && !NumberChar(c[o + |t|])
    requires forall i :: 0 <= i < |t| ==> NumberChar(t[i])
    ensures Run(c, o, limit) == |t|
    decreases |t|
  {
    if t != [] {
      AtConcat(c, o, [t[0]], t[1..]);
      assert t == [t[0]] + t[1..];
      AtIndex(c, o, t, 0);
      RunToken(c, o + 1, t[1..], limit - 1);
    }
  }

  lemma NumberRoundTrip(scan: Strtod, c: Text, o: nat, t: Text)
    requires Terminated(c) && At(c, o, t) && Token(scan, t) && o + |t| < |c| && !NumberChar(c[o + |t|])
    ensures ParseNum(scan, c, o) == Some((Number(t), o + |t|))
  {
    RunToken(c, o, t, NUMBER_SIZE);
    assert c[o..o + |t|] == t && t[..|t|] == t;
  }

  /** What parsing a value of the given height inside `d` lists and objects should give. */
  function Expected<T>(v: T, end: nat, height: nat, d: nat): Option<(T, nat)> {
    if d + height <= NESTING_LIMIT then Some((v, end)) else None
  }

  lemma RoundScalar(scan: Strtod, c: Text, o: nat, v: Value, fmt: bool, pd: nat, d: nat)
    requires Terminated(c) && Proper(scan, v) && At(c, o, Render(v, fmt, pd)) && !v.List? && !v.Object?
    requires var e := o + |Render(v, fmt, pd)|; e < |c| && !NumberChar(c[e])
    ensures ParseVal(scan, c, o, d) == Some((v, o + |Render(v, fmt, pd)|))
  {
    hide At, ParseStr, ParseNum, Token, Quoted, ParseElems, ParseMembers;
    var t := Render(v, fmt, pd);
    FirstChar(scan, v, fmt, pd);
    AtIndex(c, o, t, 0);
    match v
    case Null =>
    case False => NotAt(c, o, NULL_TEXT);
    case True => NotAt(c, o, NULL_TEXT); NotAt(c, o, FALSE_TEXT);
    case Number(n) => FirstDigit(scan, n); NotWord(c, o); NumberRoundTrip(scan, c, o, n);
    case String(s) => FirstQuote(s); NotWord(c, o); StringRoundTrip(c, o, s);
  }

  lemma NotWord(c: Text, o: nat)
    requires o < |c| && (c[o] < 97 || c[o] > 122)
    ensures !At(c, o, NULL_TEXT) && !At(c, o, FALSE_TEXT) && !At(c, o, TRUE_TEXT)
  {
    NotAt(c, o, NULL_TEXT);
    NotAt(c, o, FALSE_TEXT);
    NotAt(c, o, TRUE_TEXT);
  }

  lemma FirstDigit(scan: Strtod, t: Text)
    requires Token(scan, t)
    ensures t != [] && NumberStart(t[0])
  {
  }

  lemma FirstQuote(s: Text)
    ensures Quoted(s) != [] && Quoted(s)[0] == QUOTE
  {
  }

  lemma ListStep(scan: Strtod, c: Text, o: nat, d: nat)
    requires Terminated(c) && o + 1 < |c| && c[o] == OPEN_LIST
    ensures d >= NESTING_LIMIT ==> ParseVal(scan, c, o, d) == None
    ensures d < NESTING_LIMIT && c[Skip(c, o + 1)] == CLOSE_LIST ==>
      ParseVal(scan, c, o, d) == Some((List(NoElem), Skip(c, o + 1) + 1))
    ensures d < NESTING_LIMIT && c[Skip(c, o + 1)] != CLOSE_LIST ==>
      var r := ParseElems(scan, c, Skip(c, o + 1), d + 1);
      ParseVal(scan, c, o, d) == if r.None? then None else Some((List(r.value.0), r.value.1))
  {
    hide ParseElems, ParseMembers, ParseStr, ParseNum, Skip, At;
    NotWord(c, o);
  }

  lemma ObjectStep(scan: Strtod, c: Text, o: nat, d: nat)
    requires Terminated(c) && o + 1 < |c| && c[o] == OPEN_OBJECT
    ensures d >= NESTING_LIMIT ==> ParseVal(scan, c, o, d) == None
    ensures d < NESTING_LIMIT && c[Skip(c, o + 1)] == CLOSE_OBJECT ==>
      ParseVal(scan, c, o, d) == Some((Object(NoMember), Skip(c, o + 1) + 1))
    ensures d < NESTING_LIMIT && c[Skip(c, o + 1)] != CLOSE_OBJECT ==>
      var r := ParseMembers(scan, c, Skip(c, o + 1), d + 1);
      ParseVal(scan, c, o, d) == if r.None? then None else Some((Object(r.value.0), r.value.1))
  {
    hide ParseElems, ParseMembers, ParseStr, ParseNum, Skip, At;
    NotWord(c, o);
  }

  lemma NotBlank(c: Text, o: nat)
    requires o < |c| && c[o] > SPACE
    ensures Skip(c, o) == o
  {
  }

  /** Parsing looks past blanks in front of the first element or member. */
  lemma SkipFirst(scan: Strtod, c: Text, o: nat, d: nat)
    requires Terminated(c) && o < |c|
    ensures ParseElems(scan, c, Skip(c, o), d) == ParseElems(scan, c, o, d)
    ensures ParseMembers(scan, c, Skip(c, o), d) == ParseMembers(scan, c, o, d)
  {
    hide ParseVal, ParseStr, Skip;
    SkipTwice(c, o);
  }

  lemma {:induction false} SkipTwice(c: Text, o: nat)
    requires o < |c|
    ensures Skip(c, Skip(c, o)) == Skip(c, o)
    decreases |c| - o
  {
    if !(c[o] > SPACE || o + 1 == |c|) { SkipTwice(c, o + 1); }
  }

  lemma ListMeet(scan: Strtod, c: Text, o: nat, es: Elems, d: nat, end: nat)
    requires Terminated(c) && o + 1 < |c| && c[o] == OPEN_LIST && d <= NESTING_LIMIT
    requires es.NoElem? ==> c[Skip(c, o + 1)] == CLOSE_LIST && Skip(c, o + 1) + 1 == end
    requires es.Elem? ==> c[Skip(c, o + 1)] != CLOSE_LIST
    requires es.Elem? && d < NESTING_LIMIT ==>
      ParseElems(scan, c, Skip(c, o + 1), d + 1) == Expected(es, end, HeightElems(es), d + 1)
    ensures ParseVal(scan, c, o, d) == Expected(List(es), end, Height(List(es)), d)
  {
    hide ParseVal, ParseElems, Skip;
    ListStep(scan, c, o, d);
  }

  lemma ElemsStep(scan: Strtod, c: Text, o: nat, d: nat)
    requires Terminated(c) && o < |c|
    ensures var r := ParseVal(scan, c, Skip(c, o), d);
            && (r.None? ==> ParseElems(scan, c, o, d) == None)
            && (r.Some? ==>
                  var o2 := Skip(c, r.value.1);
                  && (c[o2] == CLOSE_LIST ==> ParseElems(scan, c, o, d) == Some((Elem(r.value.0, NoElem), o2 + 1)))
                  && (c[o2] == COMMA ==>
                        var q := ParseElems(scan, c, o2 + 1, d);
                        ParseElems(scan, c, o, d) ==
                        if q.None? then None else Some((Elem(r.value.0, q.value.0), q.value.1)))
                  && (c[o2] != COMMA && c[o2] != CLOSE_LIST ==> ParseElems(scan, c, o, d) == None))
  {
    hide ParseVal, Skip;
  }

  lemma ElemsMeet(scan: Strtod, c: Text, o: nat, es: Elems, d: nat, i: nat, end: nat)
    requires Terminated(c) && o < |c| && i < |c| && es.Elem?
    requires ParseVal(scan, c, Skip(c, o), d) == Expected(es.value, i, Height(es.value), d)
    requires es.next.NoElem? ==> c[Skip(c, i)] == CLOSE_LIST && Skip(c, i) + 1 == end
    requires es.next.Elem? ==>
      && c[Skip(c, i)] == COMMA && Skip(c, i) + 1 < |c|
      && ParseElems(scan, c, Skip(c, i) + 1, d) == Expected(es.next, end, HeightElems(es.next), d)
    ensures ParseElems(scan, c, o, d) == Expected(es, end, HeightElems(es), d)
  {
    hide ParseVal, ParseElems, Skip, Height;
    ElemsStep(scan, c, o, d);
  }

  lemma ObjectMeet(scan: Strtod, c: Text, o: nat, ms: Members, d: nat, end: nat)
    requires Terminated(c) && o + 1 < |c| && c[o] == OPEN_OBJECT && d <= NESTING_LIMIT
    requires ms.NoMember? ==> c[Skip(c, o + 1)] == CLOSE_OBJECT && Skip(c, o + 1) + 1 == end
    requires ms.Member? ==> c[Skip(c, o + 1)] != CLOSE_OBJECT
    requires ms.Member? && d < NESTING_LIMIT ==>
      ParseMembers(scan, c, Skip(c, o + 1), d + 1) == Expected(ms, end, HeightMembers(ms), d + 1)
    ensures ParseVal(scan, c, o, d) == Expected(Object(ms), end, Height(Object(ms)), d)
  {
    hide ParseVal, ParseMembers, Skip;
    ObjectStep(scan, c, o, d);
  }

  lemma NoMembers(fmt: bool, d: nat)
    ensures RenderMembers(NoMember, fmt, d) == []
  {
  }

  /** Blanks, and then something that is none. */
  lemma Closes(c: Text, o: nat, blank: Text, t: Text)
    requires At(c, o, blank + t) && t != [] && t[0] > SPACE && forall i :: 0 <= i < |blank| ==> blank[i] <= SPACE
    ensures o + |blank| + |t| <= |c| && Skip(c, o) == o + |blank| && c[o + |blank|] == t[0]
  {
    hide At, Skip;
    AtConcat(c, o, blank, t);
    AtEnd(c, o + |blank|, t);
    AtIndex(c, o + |blank|, t, 0);
    SkipBlank(c, o, blank);
    NotBlank(c, o + |blank|);
  }

  lemma NoHead(scan: Strtod, c: Text, o: nat, d: nat)
    requires Terminated(c) && o < |c| && ParseHead(c, o).None?
    ensures ParseMembers(scan, c, o, d) == None
  {
  }

  lemma MembersStep(scan: Strtod, c: Text, o: nat, d: nat)
    requires Terminated(c) && o < |c| && ParseHead(c, o).Some?
    ensures var h := ParseHead(c, o).value;
            var r := ParseVal(scan, c, h.1, d);
            && (r.None? ==> ParseMembers(scan, c, o, d) == None)
            && (r.Some? ==>
                  var o2 := Skip(c, r.value.1);
                  && (c[o2] == CLOSE_OBJECT ==>
                    ParseMembers(scan, c, o, d) == Some((Member(h.0, r.value.0, NoMember), o2 + 1)))
                  && (c[o2] == COMMA ==>
                        var q := ParseMembers(scan, c, o2 + 1, d);
                        ParseMembers(scan, c, o, d) ==
                        if q.None? then None else Some((Member(h.0, r.value.0, q.value.0), q.value.1)))
                  && (c[o2] != COMMA && c[o2] != CLOSE_OBJECT ==> ParseMembers(scan, c, o, d) == None))
  {
    hide ParseVal, Skip, ParseHead;
  }

  /** The member read first and the members after it make up the whole. */
  lemma MembersMeet(scan: Strtod, c: Text, o: nat, ms: Members, d: nat, i: nat, end: nat)
    requires Terminated(c) && o < |c| && i < |c| && ms.Member? && ParseHead(c, o).Some? &&
      ParseHead(c, o).value.0 == ms.name
    requires ParseVal(scan, c, ParseHead(c, o).value.1, d) == Expected(ms.value, i, Height(ms.value), d)
    requires ms.next.NoMember? ==> c[Skip(c, i)] == CLOSE_OBJECT && Skip(c, i) + 1 == end
    requires ms.next.Member? ==>
      && c[Skip(c, i)] == COMMA && Skip(c, i) + 1 < |c|
      && ParseMembers(scan, c, Skip(c, i) + 1, d) == Expected(ms.next, end, HeightMembers(ms.next), d)
    ensures ParseMembers(scan, c, o, d) == Expected(ms, end, HeightMembers(ms), d)
  {
    hide ParseVal, ParseMembers, ParseHead, Skip, Height;
    MembersStep(scan, c, o, d);
  }

  /** No string or token of the value holds a NUL. */
  predicate Clean(v: Value) {
    match v
    case Number(t) => NulFree(t)
    case String(s) => NulFree(s)
    case List(es) => CleanElems(es)
    case Object(ms) => CleanMembers(ms)
    case _ => true
  }

  predicate CleanElems(es: Elems) { es.Elem? ==> Clean(es.value) && CleanElems(es.next) }

  predicate CleanMembers(ms: Members) {
    ms.Member? ==> NulFree(ms.name) && Clean(ms.value) && CleanMembers(ms.next)
  }

  lemma QuotedClean(s: Text)
    requires NulFree(s)
    ensures NulFree(Quoted(s))
  {
    EscapedLength(s);
  }

  lemma CleanConcat(a: Text, b: Text)
    requires NulFree(a) && NulFree(b)
    ensures NulFree(a + b)
  {
  }

  /** Printed text holds no terminator of its own. */
  lemma {:induction false} RenderClean(v: Value, fmt: bool, d: nat)
    requires Clean(v)
    ensures NulFree(Render(v, fmt, d))
    decreases v, 1
  {
    hide RenderElems, RenderMembers, Quoted;
    match v
    case String(s) => QuotedClean(s);
    case List(es) => ElemsClean(es, fmt, d + 1);
    case Object(ms) => MembersClean(ms, fmt, d + 1);
    case _ =>
  }

  lemma {:induction false} ElemsClean(es: Elems, fmt: bool, d: nat)
    requires CleanElems(es)
    ensures NulFree(RenderElems(es, fmt, d))
    decreases es, 2
  {
    hide Render;
    if es.Elem? {
      RenderClean(es.value, fmt, d);
      ElemsClean(es.next, fmt, d);
    }
  }

  lemma {:induction false} MembersClean(ms: Members, fmt: bool, d: nat)
    requires CleanMembers(ms)
    ensures NulFree(RenderMembers(ms, fmt, d))
    decreases ms, 2
  {
    hide Render, Quoted;
    if ms.Member? {
      var h, t, m, n, x := MemberHead(ms.name, fmt, d), Render(ms.value, fmt, d), If(ms.next.Member?, [COMMA]),
        If(fmt, [NEWLINE]), RenderMembers(ms.next, fmt, d);
      QuotedClean(ms.name);
      RenderClean(ms.value, fmt, d);
      MembersClean(ms.next, fmt, d);
      CleanConcat(h, t);
      CleanConcat(h + t, m);
      CleanConcat(h + t + m, n);
      CleanConcat(h + t + m + n, x);
    }
  }

  lemma {:induction false} ProperIsClean(scan: Strtod, v: Value)
    requires Proper(scan, v)
    ensures Clean(v)
    decreases v, 1
  {
    match v
    case List(es) => ProperElemsClean(scan, es);
    case Object(ms) => ProperMembersClean(scan, ms);
    case _ =>
  }

  lemma {:induction false} ProperElemsClean(scan: Strtod, es: Elems)
    requires ProperElems(scan, es)
    ensures CleanElems(es)
    decreases es, 2
  {
    if es.Elem? {
      ProperIsClean(scan, es.value);
      ProperElemsClean(scan, es.next);
    }
  }

  lemma {:induction false} ProperMembersClean(scan: Strtod, ms: Members)
    requires ProperMembers(scan, ms)
    ensures CleanMembers(ms)
    decreases ms, 2
  {
    if ms.Member? {
      ProperIsClean(scan, ms.value);
      ProperMembersClean(scan, ms.next);
    }
  }

  /** `skip_utf8_bom`. */
  function Start(c: Text): nat { if |c| > 4 && c[..3] == [0xEF, 0xBB, 0xBF] then 3 else 0 }

  /**
   * What `cJSON_Parse` makes of a text: it ends at its first NUL, blanks before the value are skipped, and
   * what follows it is ignored.
   */
  function Parse(scan: Strtod, text: Text): Option<Value> {
    var c := CString(text) + [0];
    match ParseVal(scan, c, Skip(c, Start(c)), 0)
    case None => None
    case Some(r) => Some(r.0)
  }
}
