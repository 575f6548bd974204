/** The printer (`cJSON.c`): text written behind a NUL-terminated prefix in a buffer that may grow. */
module JsonPrint {
  import opened Wrappers
  import opened Octets
  import opened JsonStrings
  import opened Json

  const INT_MAX: nat := 0x7FFF_FFFF

  /** Writes `t` at `at`, like `strcpy` without the terminator. */
  method Put(buf: array<Byte>, at: nat, t: Text)
    requires at + |t| <= buf.Length
    modifies buf
    ensures buf[..at + |t|] == old(buf[..at]) + t
  {
    for i := 0 to |t|
      invariant buf[..at + i] == old(buf[..at]) + t[..i]
    {
      buf[at + i] := t[i];
      assert buf[..at + i + 1] == buf[..at + i] + [t[i]];
    }
    assert t[..|t|] == t;
  }

  /** Writes `t` and a terminator. */
  method PutZ(buf: array<Byte>, at: nat, t: Text)
    requires at + |t| < buf.Length
    modifies buf
    ensures buf[..at + |t|] == old(buf[..at]) + t && buf[at + |t|] == 0
  {
    Put(buf, at, t + [0]);
    var n := at + |t|;
    assert buf[..n + 1][..n] == buf[..n] && buf[..n + 1][n] == buf[n];
    assert old(buf[..at]) + (t + [0]) == (old(buf[..at]) + t) + [0];
  }

  /** The escape of one character; `sprintf` puts a terminator after its digits, soon overwritten. */
  method PutEscape(buf: array<Byte>, at: nat, c: Byte) returns (next: nat)
    requires at + |Escape(c)| < buf.Length
    modifies buf
    ensures next == at + |Escape(c)| && buf[..next] == old(buf[..at]) + Escape(c)
  {
    next := at + |Escape(c)|;
    if c > 31 && c != QUOTE && c != BACKSLASH {
      Put(buf, at, [c]);
    } else {
      match Short(c)
      case Some(x) => Put(buf, at, [BACKSLASH, x]);
      case None => PutZ(buf, at, [BACKSLASH, LOWER_U] + Hex(c));
    }
  }

  /** The loops of `print_string_ptr`: the second writes exactly what the first has counted. */
  method CountExtras(s: Text) returns (n: nat)
    ensures n == Extras(s)
  {
    n := 0;
    for i := 0 to |s|
      invariant n == Extras(s[..i])
    {
      assert s[..i + 1][..i] == s[..i];
      n := n + Extra(s[i]);
    }
    assert s[..|s|] == s;
  }

  method PutEscaped(buf: array<Byte>, at: nat, s: Text) returns (next: nat)
    requires at + |Escaped(s)| < buf.Length
    modifies buf
    ensures next == at + |Escaped(s)| && buf[..next] == old(buf[..at]) + Escaped(s)
  {
    hide Escape, Escaped;
    next := at;
    ghost var before := buf[..at];
    NoEscapes();
    for i := 0 to |s|
      invariant next == at + |Escaped(s[..i])| && next < buf.Length && buf[..next] == before + Escaped(s[..i])
    {
      EscapedPrefix(s, i);
      next := PutEscape(buf, next, s[i]);
    }
    assert s[..|s|] == s;
  }

  method PutQuoted(buf: array<Byte>, at: nat, s: Text, escapes: nat)
    requires escapes == Extras(s) && at + |s| + escapes + 2 < buf.Length
    modifies buf
    ensures |Quoted(s)| == |s| + escapes + 2
    ensures buf[..at + |Quoted(s)|] == old(buf[..at]) + Quoted(s) && buf[at + |Quoted(s)|] == 0
  {
    hide Escaped;
    EscapedLength(s);
    ghost var before := buf[..at];
    Put(buf, at, [QUOTE]);
    if escapes == 0 {
      Put(buf, at + 1, s);
    } else {
      var end := PutEscaped(buf, at + 1, s);
    }
    PutZ(buf, at + 1 + |s| + escapes, [QUOTE]);
    QuotedIs(before, s);
  }

  lemma EmptyQuoted()
    ensures Quoted([]) == [QUOTE, QUOTE]
  {
  }

  lemma QuotedLength(s: Text)
    ensures |Quoted(s)| == |s| + Extras(s) + 2
  {
    EscapedLength(s);
  }

  lemma QuotedIs(before: Text, s: Text)
    ensures before + [QUOTE] + Escaped(s) + [QUOTE] == before + Quoted(s) && |Quoted(s)| == |Escaped(s)| + 2
  {
    hide Escaped;
  }

  lemma NoEscapes()
    ensures Escaped([]) == []
  {
  }

  lemma EscapedPrefix(s: Text, i: nat)
    requires i < |s|
    ensures Escaped(s[..i + 1]) == Escaped(s[..i]) + Escape(s[i]) && |Escaped(s[..i + 1])| <= |Escaped(s)|
  {
    hide Escape, Escaped;
    assert s[..i + 1] == s[..i] + [s[i]] && s == s[..i + 1] + s[i + 1..];
    EscapedSnoc(s[..i], s[i]);
    EscapedConcat(s[..i + 1], s[i + 1..]);
  }

  class PrintBuffer {
    var buffer: array<Byte>
    var offset: nat
    var depth: nat
    const format: bool
    const noalloc: bool

    ghost predicate Valid() reads this`buffer, this`offset { offset < buffer.Length <= INT_MAX }

    /** How long a buffer can get. */
    ghost function Limit(): nat reads this`buffer { if noalloc then buffer.Length else INT_MAX }

    /** The text in front of the offset. */
    ghost function Committed(): Text reads this`buffer, this`offset, buffer
      requires Valid()
    {
      buffer[..offset]
    }

    constructor (buffer: array<Byte>, format: bool, noalloc: bool)
      requires 0 < buffer.Length <= INT_MAX
      ensures Valid() && this.buffer == buffer && offset == 0 && depth == 0 &&
        this.format == format && this.noalloc == noalloc
    {
      this.buffer, offset, depth, this.format, this.noalloc := buffer, 0, 0, format, noalloc;
    }

    /** `ensure`: room for `needed` bytes and one more behind the offset. */
    method Ensure(needed: nat) returns (ok: bool)
      requires Valid()
      modifies this`buffer
      ensures Valid() && Limit() == old(Limit()) && (buffer == old(buffer) || fresh(buffer))
      ensures Committed() == old(Committed())
      ensures ok <==> offset + needed + 1 <= Limit()
      ensures ok ==> offset + needed + 1 <= buffer.Length
    {
      if offset >= buffer.Length {
        return false;
      }
      if needed > INT_MAX {
        return false;
      }
      var total := needed + offset + 1;
      if total <= buffer.Length {
        return true;
      }
      if noalloc {
        return false;
      }
      var newsize := total * 2;
      if total > INT_MAX / 2 {
        if total <= INT_MAX {
          newsize := INT_MAX;
        } else {
          return false;
        }
      }
      var newbuffer := new Byte[newsize];
      for i := 0 to offset + 1
        invariant offset < buffer.Length && unchanged(this) && newbuffer[..i] == buffer[..i]
      {
        newbuffer[i] := buffer[i];
        assert newbuffer[..i + 1] == newbuffer[..i] + [buffer[i]];
        assert buffer[..i + 1] == buffer[..i] + [buffer[i]];
      }
      assert newbuffer[..offset] == newbuffer[..offset + 1][..offset];
      buffer := newbuffer;
      return true;
    }

    /** `update_offset`: a `strlen` from the offset on. */
    method UpdateOffset(ghost end: nat)
      requires offset <= end < buffer.Length && buffer[end] == 0 && forall i :: offset <= i < end ==> buffer[i] != 0
      modifies this`offset
      ensures offset == end
    {
      ghost var start := offset;
      var n := offset;
      while buffer[n] != 0
        invariant start <= n <= end && offset == start && unchanged(buffer) && buffer == old(buffer)
        decreases end - n
      {
        n := n + 1;
      }
      offset := n;
    }

    /** Appends `t`, with its terminator if `z`. */
    method Append(t: Text, needed: nat, z: bool) returns (ok: bool)
      requires Valid() && needed >= |t| && (z ==> needed > |t|)
      modifies this`buffer, this`offset, buffer
      ensures Valid() && Limit() == old(Limit()) && (buffer == old(buffer) || fresh(buffer))
      ensures ok <==> old(offset) + needed + 1 <= Limit()
      ensures ok ==> offset == old(offset) + |t| && Committed() == old(Committed()) + t
    {
      ok := Ensure(needed);
      if !ok {
        return;
      }
      if z { PutZ(buffer, offset, t); } else { Put(buffer, offset, t); }
      offset := offset + |t|;
    }

    /** The text printed since the offset was `|before|`, up to its terminator. */
    ghost predicate Printed(before: Text, t: Text) reads this`buffer, this`offset, buffer {
      && |before| <= offset <= |before| + |t| < buffer.Length
      && buffer[..|before| + |t|] == before + t && buffer[|before| + |t|] == 0
    }

    lemma PrintedMore(before: Text, mid: Text, z: Text, t: Text)
      requires Printed(mid, z) && mid + z == before + t && |before| <= |mid|
      ensures Printed(before, t)
    {
      assert |mid| + |z| == |before| + |t|;
    }

    /** Writes `t` and its terminator behind the offset, which stays where it is. */
    method Write(t: Text) returns (ok: bool)
      requires Valid()
      modifies this`buffer, buffer
      ensures Valid() && Limit() == old(Limit()) && (buffer == old(buffer) || fresh(buffer))
      ensures ok <==> offset + |t| + 2 <= Limit()
      ensures ok ==> Printed(old(Committed()), t)
    {
      ok := Ensure(|t| + 1);
      if ok { PutZ(buffer, offset, t); }
    }

    /** Moves the offset behind the text just printed. */
    method Commit(ghost before: Text, ghost t: Text)
      requires Printed(before, t) && NulFree(t) && buffer.Length <= INT_MAX
      modifies this`offset
      ensures Valid() && offset == |before| + |t| && Committed() == before + t
    {
      ghost var end := |before| + |t|;
      forall i | offset <= i < end ensures buffer[i] != 0 {
        assert buffer[i] == buffer[..end][i] == t[i - |before|];
      }
      UpdateOffset(end);
    }

    /** `print_string_ptr`; a missing string prints as an empty one. */
    method PrintStringPtr(input: Option<Text>) returns (ok: bool)
      requires Valid()
      modifies this`buffer, buffer
      ensures Valid() && Limit() == old(Limit()) && (buffer == old(buffer) || fresh(buffer))
      ensures ok <==> offset + |Quoted(StringOf(input))| + 2 <= Limit()
      ensures ok ==> Printed(old(Committed()), Quoted(StringOf(input)))
    {
      hide Escaped, Quoted;
      if input.None? {
        EmptyQuoted();
        ok := Write([QUOTE, QUOTE]);
        return;
      }
      var s := input.value;
      var escapes := CountExtras(s);
      QuotedLength(s);
      var length := |s| + escapes;
      ok := Ensure(length + 3);
      if !ok {
        return;
      }
      PutQuoted(buffer, offset, s, escapes);
    }

    /** `print_value`: the text of the value and its terminator, exactly when both fit with a byte to spare. */
    method PrintValue(v: Value) returns (ok: bool)
      requires Valid() && Clean(v)
      modifies this, buffer
      ensures Valid() && Limit() == old(Limit()) && (buffer == old(buffer) || fresh(buffer))
      ensures ok <==> old(offset) + |Render(v, format, old(depth))| + 2 <= Limit()
      ensures ok ==> depth == old(depth) && Printed(old(Committed()), Render(v, format, depth))
      decreases v, 1
    {
      hide Quoted, RenderElems, RenderMembers;
      match v
      case Null => ok := Write(NULL_TEXT);
      case False => ok := Write(FALSE_TEXT);
      case True => ok := Write(TRUE_TEXT);
      case Number(t) =>
        ok := Write(t);
        if ok { offset := offset + |t|; }
      case String(s) => ok := PrintStringPtr(Some(s));
      case List(es) => ok := PrintArray(es);
      case Object(ms) => ok := PrintObject(ms);
    }

    /** One round of the loop of `print_array`. */
    method PrintElem(es: Elems) returns (ok: bool)
      requires Valid() && es.Elem? && Clean(es.value)
      modifies this, buffer
      ensures Valid() && Limit() == old(Limit()) && (buffer == old(buffer) || fresh(buffer))
      ensures ok <==> old(offset) + |ElemText(es, format, old(depth))| + 2 <= Limit()
      ensures ok ==> depth == old(depth) && Committed() == old(Committed()) + ElemText(es, format, depth)
      decreases es, 2
    {
      hide Render;
      ghost var before, t := Committed(), Render(es.value, format, depth);
      RenderClean(es.value, format, depth);
      ok := PrintValue(es.value);
      if !ok {
        return;
      }
      Commit(before, t);
      if es.next.Elem? {
        var length := if format then 2 else 1;
        ok := Append([COMMA] + If(format, [SPACE]), length + 1, true);
        assert before + t + ([COMMA] + If(format, [SPACE])) == before + ElemText(es, format, depth);
      }
    }

    /** The loop of `print_array`. */
    method PrintElems(es: Elems) returns (ok: bool)
      requires Valid() && CleanElems(es)
      modifies this, buffer
      ensures Valid() && Limit() == old(Limit()) && (buffer == old(buffer) || fresh(buffer))
      ensures ok <==> es.NoElem? || old(offset) + |RenderElems(es, format, old(depth))| + 2 <= Limit()
      ensures ok ==> depth == old(depth) && Committed() == old(Committed()) + RenderElems(es, format, depth)
      decreases es, 3
    {
      hide RenderElems, ElemText, Clean;
      ghost var before, d := Committed(), depth;
      ghost var all := RenderElems(es, format, d);
      var cur := es;
      ghost var done: Text := [];
      Joined3(before, [], all);
      ok := true;
      while cur.Elem?
        invariant Valid() && Limit() == old(Limit()) && (buffer == old(buffer) || fresh(buffer))
        invariant CleanElems(cur) && depth == d && (cur == es || cur < es) && ok
        invariant offset == |before| + |done| && Committed() == before + done &&
          done + RenderElems(cur, format, d) == all
        invariant cur == es || (es.Elem? && |before| + |done| + 2 <= Limit())
        decreases cur
      {
        ElemsText(cur, format, d);
        ghost var e, rest := ElemText(cur, format, d), RenderElems(cur.next, format, d);
        Joined3(done, e, rest);
        Joined3(before, done, e);
        assert |all| == |done| + |e| + |rest|;
        ok := PrintElem(cur);
        if !ok {
          return;
        }
        done := done + e;
        cur := cur.next;
      }
      NoElems(format, d);
      Joined3(done, [], []);
    }

    /** `print_array`. */
    method PrintArray(es: Elems) returns (ok: bool)
      requires Valid() && CleanElems(es)
      modifies this, buffer
      ensures Valid() && Limit() == old(Limit()) && (buffer == old(buffer) || fresh(buffer))
      ensures ok <==> old(offset) + |Render(List(es), format, old(depth))| + 2 <= Limit()
      ensures ok ==> depth == old(depth) && Printed(old(Committed()), Render(List(es), format, depth))
      decreases es, 4
    {
      hide RenderElems, CleanElems, Render, Printed;
      ghost var before := Committed();
      ListText(before, es, format, depth);
      ok := Append([OPEN_LIST], 1, false);
      if !ok {
        return;
      }
      depth := depth + 1;
      ok := PrintElems(es);
      if !ok {
        return;
      }
      ghost var mid := Committed();
      ok := Write([CLOSE_LIST]);
      if ok { PrintedMore(before, mid, [CLOSE_LIST], Render(List(es), format, depth - 1)); }
      depth := depth - 1;
    }

    /** The loop of `print_object`. */
    method PrintMembers(ms: Members) returns (ok: bool)
      requires Valid() && CleanMembers(ms)
      modifies this, buffer
      ensures Valid() && Limit() == old(Limit()) && (buffer == old(buffer) || fresh(buffer))
      ensures ok <==> ms.NoMember? || old(offset) + |RenderMembers(ms, format, old(depth))| + 2 <= Limit()
      ensures ok ==> depth == old(depth) && Committed() == old(Committed()) + RenderMembers(ms, format, depth)
      decreases ms, 3
    {
      hide RenderMembers, MemberText, Clean;
      ghost var before, d := Committed(), depth;
      ghost var all := RenderMembers(ms, format, d);
      var cur := ms;
      ghost var done: Text := [];
      Joined3(before, [], all);
      ok := true;
      while cur.Member?
        invariant Valid() && Limit() == old(Limit()) && (buffer == old(buffer) || fresh(buffer))
        invariant CleanMembers(cur) && depth == d && (cur == ms || cur < ms) && ok
        invariant offset == |before| + |done| && Committed() == before + done &&
          done + RenderMembers(cur, format, d) == all
        invariant cur == ms || (ms.Member? && |before| + |done| + 2 <= Limit())
        decreases cur
      {
        MembersText(cur, format, d);
        ghost var e, rest := MemberText(cur, format, d), RenderMembers(cur.next, format, d);
        Joined3(done, e, rest);
        Joined3(before, done, e);
        assert |all| == |done| + |e| + |rest|;
        ok := PrintMember(cur);
        if !ok {
          return;
        }
        done := done + e;
        cur := cur.next;
      }
      NoMembers(format, d);
      Joined3(done, [], []);
    }

    /** `print_object`. */
    method PrintObject(ms: Members) returns (ok: bool)
      requires Valid() && CleanMembers(ms)
      modifies this, buffer
      ensures Valid() && Limit() == old(Limit()) && (buffer == old(buffer) || fresh(buffer))
      ensures ok <==> old(offset) + |Render(Object(ms), format, old(depth))| + 2 <= Limit()
      ensures ok ==> depth == old(depth) && Printed(old(Committed()), Render(Object(ms), format, depth))
      decreases ms, 4
    {
      hide RenderMembers, CleanMembers, Tabs, Render, If, Printed;
      ghost var before, d := Committed(), depth;
      ObjectText(before, ms, format, depth);
      var length := if format then 2 else 1;
      ok := Append([OPEN_OBJECT] + If(format, [NEWLINE]), length + 1, false);
      if !ok {
        return;
      }
      depth := depth + 1;
      ok := PrintMembers(ms);
      if !ok {
        return;
      }
      ghost var mid := Committed();
      ok := Write(If(format, Tabs(depth - 1)) + [CLOSE_OBJECT]);
      if ok {
        PrintedMore(before, mid, If(format, Tabs(depth - 1)) + [CLOSE_OBJECT], Render(Object(ms), format, depth - 1));
      }
      depth := depth - 1;
    }

    /** One round of the loop of `print_object`. */
    method PrintMember(ms: Members) returns (ok: bool)
      requires Valid() && ms.Member? && NulFree(ms.name) && Clean(ms.value)
      modifies this, buffer
      ensures Valid() && Limit() == old(Limit()) && (buffer == old(buffer) || fresh(buffer))
      ensures ok <==> old(offset) + |MemberText(ms, format, old(depth))| + 2 <= Limit()
      ensures ok ==> depth == old(depth) && Committed() == old(Committed()) + MemberText(ms, format, depth)
      decreases ms, 2
    {
      hide Render, Quoted, Tabs, Clean;
      ghost var before, d := Committed(), depth;
      MemberTextIs(before, ms, format, depth);
      ok := Indent();
      if !ok {
        return;
      }
      ok := PrintName(ms.name);
      if !ok {
        return;
      }
      ghost var mid, t := Committed(), Render(ms.value, format, depth);
      RenderClean(ms.value, format, depth);
      ok := PrintValue(ms.value);
      if !ok {
        return;
      }
      Commit(mid, t);
      var length := (if format then 1 else 0) + if ms.next.Member? then 1 else 0;
      ok := Append(If(ms.next.Member?, [COMMA]) + If(format, [NEWLINE]), length + 1, true);
    }

    method Indent() returns (ok: bool)
      requires Valid()
      modifies this`buffer, this`offset, buffer
      ensures Valid() && Limit() == old(Limit()) && (buffer == old(buffer) || fresh(buffer))
      ensures ok <==> !format || old(offset) + depth + 1 <= Limit()
      ensures ok ==>
        offset == old(offset) + |If(format, Tabs(depth))| && Committed() == old(Committed()) + If(format, Tabs(depth))
    {
      ok := true;
      if format {
        ok := Append(Tabs(depth), depth, false);
      }
    }

    /** The key and the colon. */
    method PrintName(name: Text) returns (ok: bool)
      requires Valid() && NulFree(name)
      modifies this, buffer
      ensures Valid() && Limit() == old(Limit()) && (buffer == old(buffer) || fresh(buffer)) && depth == old(depth)
      ensures ok <==> old(offset) + |Quoted(name)| + 1 + (if format then 2 else 1) <= Limit()
      ensures ok ==> Committed() == old(Committed()) + Quoted(name) + ([COLON] + If(format, [TAB]))
    {
      hide Quoted;
      ghost var before := Committed();
      QuotedClean(name);
      ok := PrintStringPtr(Some(name));
      if !ok {
        return;
      }
      Commit(before, Quoted(name));
      ok := Append([COLON] + If(format, [TAB]), if format then 2 else 1, false);
    }
  }

  /** What one round of the loop of `print_array` appends. */
  function ElemText(es: Elems, fmt: bool, d: nat): Text
    requires es.Elem?
  {
    Render(es.value, fmt, d) + if es.next.NoElem? then [] else [COMMA] + If(fmt, [SPACE])
  }

  lemma ElemsText(es: Elems, fmt: bool, d: nat)
    requires es.Elem?
    ensures RenderElems(es, fmt, d) == ElemText(es, fmt, d) + RenderElems(es.next, fmt, d)
  {
  }

  lemma Joined3(a: Text, b: Text, c: Text)
    ensures a + b + c == a + (b + c) && a + [] == a && [] + a == a
  {
  }

  /** The text of a list, in the three parts it is written in. */
  lemma ListText(before: Text, es: Elems, fmt: bool, d: nat)
    ensures before + [OPEN_LIST] + RenderElems(es, fmt, d + 1) + [CLOSE_LIST] == before + Render(List(es), fmt, d)
    ensures |Render(List(es), fmt, d)| == |RenderElems(es, fmt, d + 1)| + 2
  {
    hide RenderElems;
  }

  lemma ObjectText(before: Text, ms: Members, fmt: bool, d: nat)
    ensures before + ([OPEN_OBJECT] + If(fmt, [NEWLINE])) + RenderMembers(ms, fmt, d + 1) +
              (If(fmt, Tabs(d)) + [CLOSE_OBJECT]) ==
            before + Render(Object(ms), fmt, d)
    ensures |Render(Object(ms), fmt, d)| ==
            |If(fmt, [NEWLINE])| + |RenderMembers(ms, fmt, d + 1)| + |If(fmt, Tabs(d))| + 2
    ensures |If(fmt, [NEWLINE])| == (if fmt then 1 else 0) && |If(fmt, Tabs(d))| == if fmt then d else 0
  {
    hide RenderMembers;
  }

  lemma MembersText(ms: Members, fmt: bool, d: nat)
    requires ms.Member?
    ensures RenderMembers(ms, fmt, d) == MemberText(ms, fmt, d) + RenderMembers(ms.next, fmt, d)
  {
    hide Render, MemberHead;
  }

  /** What one round of the loop of `print_object` appends. */
  function MemberText(ms: Members, fmt: bool, d: nat): Text
    requires ms.Member?
  {
    MemberHead(ms.name, fmt, d) + Render(ms.value, fmt, d) + If(ms.next.Member?, [COMMA]) + If(fmt, [NEWLINE])
  }

  lemma MemberTextIs(before: Text, ms: Members, fmt: bool, d: nat)
    requires ms.Member?
    ensures var q, t := Quoted(ms.name), Render(ms.value, fmt, d);
            var z := If(ms.next.Member?, [COMMA]) + If(fmt, [NEWLINE]);
            && before + If(fmt, Tabs(d)) + q + ([COLON] + If(fmt, [TAB])) + t + z == before + MemberText(ms, fmt, d)
            && |MemberText(ms, fmt, d)| == (if fmt then d + 3 else 1) + |q| + |t| + |If(ms.next.Member?, [COMMA])|
            && |Tabs(d)| == d
  {
    hide Render, Quoted;
  }

  lemma NoElems(fmt: bool, d: nat)
    ensures RenderElems(NoElem, fmt, d) == []
  {
  }

  /** `cJSON_Print` and `cJSON_PrintUnformatted`: the text, unless it and two bytes exceed `INT_MAX`. */
  method Print(v: Value, fmt: bool) returns (r: Option<Text>)
    requires Clean(v)
    ensures r == if |Render(v, fmt, 0)| + 2 <= INT_MAX then Some(Render(v, fmt, 0)) else None
  {
    hide Render, Clean;
    var bytes := new Byte[256];
    var b := new PrintBuffer(bytes, fmt, false);
    ghost var t := Render(v, fmt, 0);
    RenderClean(v, fmt, 0);
    var ok := b.PrintValue(v);
    if !ok {
      return None;
    }
    b.Commit([], t);
    Joined3(t, [], []);
    return Some(b.buffer[..b.offset]);
  }

  function StringOf(input: Option<Text>): Text {
    match input
    case Some(s) => s
    case None => []
  }
}
