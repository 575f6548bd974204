/** Texts that were not printed: what any accepted text comes to when its value is printed and parsed again. */
module JsonReparse {
  import opened Wrappers
  import opened JsonStrings
  import opened Json
  import JsonText

  /** The value as C code reads it: every string ends at its first NUL. */
  function Seen(v: Value): Value {
    match v
    case String(s) => String(CString(s))
    case List(es) => List(SeenElems(es))
    case Object(ms) => Object(SeenMembers(ms))
    case _ => v
  }

  function SeenElems(es: Elems): Elems {
    match es
    case NoElem => NoElem
    case Elem(v, next) => Elem(Seen(v), SeenElems(next))
  }

  function SeenMembers(ms: Members): Members {
    match ms
    case NoMember => NoMember
    case Member(name, v, next) => Member(CString(name), Seen(v), SeenMembers(next))
  }

  /** `strtod` takes all of what it has taken. */
  ghost predicate Stable(scan: Strtod) { forall t: Text :: Taken(scan, t[..Taken(scan, t)]) == Taken(scan, t) }

  /** What holds of every parsed value: its numbers are tokens, and it nests as deep as the limit allows. */
  ghost predicate Parsed(scan: Strtod, v: Value, d: nat) { Proper(scan, Seen(v)) && d + Height(v) <= NESTING_LIMIT }

  ghost predicate ParsedElems(scan: Strtod, es: Elems, d: nat) {
    ProperElems(scan, SeenElems(es)) && d + HeightElems(es) <= NESTING_LIMIT
  }

  ghost predicate ParsedMembers(scan: Strtod, ms: Members, d: nat) {
    ProperMembers(scan, SeenMembers(ms)) && d + HeightMembers(ms) <= NESTING_LIMIT
  }

  lemma NumberIsToken(scan: Strtod, c: Text, o: nat)
    requires Stable(scan) && Terminated(c) && o < |c| && NumberStart(c[o])
    ensures ParseNum(scan, c, o).Some? ==>
      ParseNum(scan, c, o).value.0.Number? && Token(scan, ParseNum(scan, c, o).value.0.token)
  {
    var t := c[o..o + Run(c, o, NUMBER_SIZE)];
    var n := Taken(scan, t);
    if n > 0 {
      assert t[0] == c[o];
      assert forall i :: 0 <= i < |t| ==> t[i] == c[o + i];
      assert Taken(scan, t[..n]) == n;
    }
  }

  lemma {:induction false} ParsedValue(scan: Strtod, c: Text, o: nat, d: nat)
    requires Stable(scan) && Terminated(c) && o < |c| && d <= NESTING_LIMIT
    ensures ParseVal(scan, c, o, d).Some? ==> Parsed(scan, ParseVal(scan, c, o, d).value.0, d)
    decreases |c| - o, 0
  {
    hide At, ParseStr, ParseNum, ParseElems, ParseMembers, Skip, CString, Stable, Token;
    if c[o] == QUOTE {
      if ParseStr(c, o).Some? { CStringOf(ParseStr(c, o).value.0); }
    } else if NumberStart(c[o]) {
      NumberIsToken(scan, c, o);
    } else if c[o] == OPEN_LIST && d < NESTING_LIMIT {
      if c[Skip(c, o + 1)] != CLOSE_LIST { ParsedList(scan, c, Skip(c, o + 1), d + 1); }
    } else if c[o] == OPEN_OBJECT && d < NESTING_LIMIT {
      if c[Skip(c, o + 1)] != CLOSE_OBJECT { ParsedObject(scan, c, Skip(c, o + 1), d + 1); }
    }
  }

  lemma {:induction false} ParsedList(scan: Strtod, c: Text, o: nat, d: nat)
    requires Stable(scan) && Terminated(c) && o < |c| && d <= NESTING_LIMIT
    ensures ParseElems(scan, c, o, d).Some? ==> ParsedElems(scan, ParseElems(scan, c, o, d).value.0, d)
    decreases |c| - o, 1
  {
    hide ParseVal, ParseElems, Skip, Stable, Parsed, ParsedElems;
    ParsedValue(scan, c, Skip(c, o), d);
    ElemsStep(scan, c, o, d);
    var r := ParseVal(scan, c, Skip(c, o), d);
    if r.Some? {
      if c[Skip(c, r.value.1)] == COMMA {
        var q := ParseElems(scan, c, Skip(c, r.value.1) + 1, d);
        ParsedList(scan, c, Skip(c, r.value.1) + 1, d);
        if q.Some? { ParsedElem(scan, r.value.0, q.value.0, d); }
      } else {
        ParsedElem(scan, r.value.0, NoElem, d);
      }
    }
  }

  lemma ParsedElem(scan: Strtod, v: Value, next: Elems, d: nat)
    requires Parsed(scan, v, d)
    ensures next.NoElem? || ParsedElems(scan, next, d) ==> ParsedElems(scan, Elem(v, next), d)
  {
    hide Proper, Seen, Height;
    assert SeenElems(Elem(v, next)) == Elem(Seen(v), SeenElems(next));
    assert ProperElems(scan, NoElem) && SeenElems(NoElem) == NoElem && HeightElems(NoElem) == 0;
    assert HeightElems(Elem(v, next)) == Max(Height(v), HeightElems(next));
  }

  lemma ParsedMember(scan: Strtod, name: Text, v: Value, next: Members, d: nat)
    requires Parsed(scan, v, d)
    ensures next.NoMember? || ParsedMembers(scan, next, d) ==> ParsedMembers(scan, Member(name, v, next), d)
  {
    hide Proper, Seen, Height, CString;
    CStringOf(name);
    assert SeenMembers(Member(name, v, next)) == Member(CString(name), Seen(v), SeenMembers(next));
    assert ProperMembers(scan, NoMember) && SeenMembers(NoMember) == NoMember && HeightMembers(NoMember) == 0;
    assert HeightMembers(Member(name, v, next)) == Max(Height(v), HeightMembers(next));
  }

  lemma {:induction false} ParsedObject(scan: Strtod, c: Text, o: nat, d: nat)
    requires Stable(scan) && Terminated(c) && o < |c| && d <= NESTING_LIMIT
    ensures ParseMembers(scan, c, o, d).Some? ==> ParsedMembers(scan, ParseMembers(scan, c, o, d).value.0, d)
    decreases |c| - o, 1
  {
    hide ParseVal, ParseHead, ParseMembers, Skip, Stable, Parsed, ParsedMembers;
    var h := ParseHead(c, o);
    if h.None? {
      NoHead(scan, c, o, d);
    } else {
      ParsedValue(scan, c, h.value.1, d);
      MembersStep(scan, c, o, d);
      var r := ParseVal(scan, c, h.value.1, d);
      if r.Some? {
        if c[Skip(c, r.value.1)] == COMMA {
          var q := ParseMembers(scan, c, Skip(c, r.value.1) + 1, d);
          ParsedObject(scan, c, Skip(c, r.value.1) + 1, d);
          if q.Some? { ParsedMember(scan, h.value.0, r.value.0, q.value.0, d); }
        } else {
          ParsedMember(scan, h.value.0, r.value.0, NoMember, d);
        }
      }
    }
  }

  /** Cutting strings keeps the nesting, and changes nothing if and only if no string holds a NUL. */
  lemma {:induction false} SeenValue(scan: Strtod, v: Value)
    requires Proper(scan, Seen(v))
    ensures Height(Seen(v)) == Height(v) && (Seen(v) == v <==> Clean(v))
    decreases v, 1
  {
    hide CString;
    match v
    case Number(t) => ProperIsClean(scan, v);
    case String(s) => CStringOf(s);
    case List(es) => SeenList(scan, es);
    case Object(ms) => SeenObject(scan, ms);
    case _ =>
  }

  lemma {:induction false} SeenList(scan: Strtod, es: Elems)
    requires ProperElems(scan, SeenElems(es))
    ensures HeightElems(SeenElems(es)) == HeightElems(es) && (SeenElems(es) == es <==> CleanElems(es))
    decreases es, 2
  {
    if es.Elem? {
      SeenValue(scan, es.value);
      SeenList(scan, es.next);
    }
  }

  lemma {:induction false} SeenObject(scan: Strtod, ms: Members)
    requires ProperMembers(scan, SeenMembers(ms))
    ensures HeightMembers(SeenMembers(ms)) == HeightMembers(ms) && (SeenMembers(ms) == ms <==> CleanMembers(ms))
    decreases ms, 2
  {
    hide CString;
    if ms.Member? {
      CStringOf(ms.name);
      SeenValue(scan, ms.value);
      SeenObject(scan, ms.next);
    }
  }

  /**
   * The value of any accepted text, printed as C reads it and parsed again, is the value as C reads it; so
   * it is the very same value if and only if none of its strings holds a NUL.
   */
  lemma Reparse(scan: Strtod, text: Text, fmt: bool)
    requires Stable(scan) && Parse(scan, text).Some?
    ensures
      var v := Parse(scan, text).value;
      && Parse(scan, Render(Seen(v), fmt, 0)) == Some(Seen(v))
      && (Parse(scan, Render(Seen(v), fmt, 0)) == Some(v) <==> Clean(v))
  {
    hide ParseVal, Skip, Render, CString, Stable, Proper, Height, Clean;
    var v := Parse(scan, text).value;
    var c := CString(text) + [0];
    ParsedValue(scan, c, Skip(c, Start(c)), 0);
    SeenValue(scan, v);
    JsonText.RoundTrip(scan, Seen(v), fmt);
  }

  const WITH_NUL: Text := [QUOTE, BACKSLASH, LOWER_U, 48, 48, 48, 48, QUOTE]

  lemma WithNulIs()
    ensures Quoted([0]) == WITH_NUL && NulFree(WITH_NUL)
  {
    assert Escape(0) == [BACKSLASH, LOWER_U, 48, 48, 48, 48];
    assert Escaped([0]) == Escape(0) by {
      hide Escape, Escaped;
      EscapedSnoc([], 0);
      assert [] + [0] == [0] && [] + Escape(0) == Escape(0);
    }
  }

  /** A string of one `\u0000` is accepted, and C takes it for an empty one. */
  lemma CutAtNul(scan: Strtod)
    ensures Parse(scan, WITH_NUL) == Some(String([0])) && Seen(String([0])) == String([])
  {
    hide Quoted, ParseStr, At;
    WithNulIs();
    CStringOf(WITH_NUL);
    var c := WITH_NUL + [0];
    assert At(c, 0, WITH_NUL) by { AtFront(WITH_NUL); }
    StringRoundTrip(c, 0, [0]);
    NotBlank(c, 0);
    NotWord(c, 0);
  }

  lemma AtFront(t: Text)
    ensures At(t + [0], 0, t)
  {
  }
}
