/** `parse_string` and `print_string_ptr` at work on their buffers. */
module JsonScan {
  import opened Wrappers
  import opened Octets
  import opened JsonStrings

  /** Position `j` holds the second character of an escape pair of the scan that starts at `s`. */
  ghost predicate Second(c: Text, s: nat, j: nat)
    requires j <= |c|
  {
    s < j && c[j - 1] == BACKSLASH && !Second(c, s, j - 1)
  }

  /** The characters from `s` to `j`, escape pairs counted once: what the first scan allots. */
  ghost function Allotted(c: Text, s: nat, j: nat): nat
    requires j <= |c|
  {
    if j <= s then 0
    else Allotted(c, s, j - 1) + if c[j - 1] == BACKSLASH && !Second(c, s, j - 1) then 0 else 1
  }

  lemma AllottedOne(c: Text, s: nat, i: nat)
    requires s <= i < |c|
    ensures Allotted(c, s, i) <= Allotted(c, s, i + 1)
    ensures c[i] != BACKSLASH ==> Allotted(c, s, i + 1) == Allotted(c, s, i) + 1
  {
  }

  /** Any two characters are allotted one byte, even when they straddle two pairs. */
  lemma AllottedTwo(c: Text, s: nat, i: nat)
    requires s <= i && i + 2 <= |c|
    ensures Allotted(c, s, i + 2) >= Allotted(c, s, i) + 1
  {
  }

  lemma AllottedSix(c: Text, s: nat, i: nat)
    requires s <= i && i + 6 <= |c|
    ensures Allotted(c, s, i + 6) >= Allotted(c, s, i) + 3
  {
    hide Allotted;
    AllottedTwo(c, s, i);
    AllottedTwo(c, s, i + 2);
    AllottedTwo(c, s, i + 4);
  }

  lemma {:induction false} AllottedMono(c: Text, s: nat, i: nat, j: nat)
    requires s <= i <= j <= |c|
    ensures Allotted(c, s, i) <= Allotted(c, s, j)
    decreases j - i
  {
    if i < j {
      AllottedMono(c, s, i, j - 1);
      AllottedOne(c, s, j - 1);
    }
  }

  /** A literal is allotted at least what its UTF-8 form takes. */
  lemma AllottedLiteral(c: Text, s: nat, i: nat, end: nat)
    requires s <= i <= end < |c| && Literal(c, i, end).Some?
    ensures var l := Literal(c, i, end).value; Allotted(c, s, i + l.1) >= Allotted(c, s, i) + |Utf8(l.0)|
  {
    hide Allotted, Hex4, Pair;
    var l := Literal(c, i, end).value;
    AllottedSix(c, s, i);
    if l.1 == 12 { AllottedSix(c, s, i + 6); }
  }

  /** The first loop of `parse_string`. */
  method FindEnd(c: Text, s: nat) returns (end: Option<nat>, skipped: nat)
    requires s <= |c|
    ensures end == Closing(c, s)
    ensures end.Some? ==> !Second(c, s, end.value) && Allotted(c, s, end.value) == end.value - s - skipped
  {
    var e := s;
    skipped := 0;
    while e < |c| && c[e] != QUOTE
      invariant s <= e <= |c| && Closing(c, e) == Closing(c, s)
      invariant !Second(c, s, e) && Allotted(c, s, e) + skipped == e - s
      decreases |c| - e
    {
      if c[e] == BACKSLASH {
        if e + 1 >= |c| {
          return None, skipped;
        }
        skipped := skipped + 1;
        e := e + 1;
      }
      e := e + 1;
    }
    end := if e >= |c| || c[e] != QUOTE then None else Some(e);
  }

  function Shifted(x: nat, k: nat): nat { if k == 0 then x else Shifted(x, k - 1) / 64 }

  function Mark(n: nat): nat { if n == 2 then 0xC0 else if n == 3 then 0xE0 else if n == 4 then 0xF0 else 0 }

  lemma Utf8Bytes(x: nat)
    requires x <= 0x10FFFF
    ensures var n := |Utf8(x)|;
            && Utf8(x)[0] == Mark(n) + Shifted(x, n - 1)
            && forall j :: 0 < j < n ==> Utf8(x)[j] == 0x80 + Shifted(x, n - 1 - j) % 64
  {
    assert Shifted(x, 1) == x / 64;
    assert Shifted(x, 2) == x / 64 / 64 == x / 0x1000;
    assert Shifted(x, 3) == x / 0x1000 / 64 == x / 0x4_0000;
  }

  /** The encoding loop of `utf16_literal_to_utf8`: continuation bytes from the last one back. */
  method PutUtf8(x: nat, output: array<Byte>, op: nat) returns (next: nat)
    requires x <= 0x10FFFF && op + |Utf8(x)| <= output.Length
    modifies output
    ensures next == op + |Utf8(x)| && output[..next] == old(output[..op]) + Utf8(x)
  {
    hide Utf8, Shifted;
    Utf8Bytes(x);
    var n := if x < 0x80 then 1 else if x < 0x800 then 2 else if x < 0x1_0000 then 3 else 4;
    Utf8Size(x);
    var cp := x;
    var pos := n - 1;
    ShiftedStart(x);
    while pos > 0
      invariant 0 <= pos < n && cp == Shifted(x, n - 1 - pos)
      invariant output[..op] == old(output[..op])
      invariant forall j :: pos < j < n ==> output[op + j] == Utf8(x)[j]
    {
      output[op + pos] := 0x80 + cp % 64;
      ShiftedStep(x, n - 1 - pos);
      cp := cp / 64;
      pos := pos - 1;
    }
    assert cp == Shifted(x, n - 1);
    output[op] := Mark(n) + cp;
    next := op + n;
    assert output[..next] == output[..op] + output[op..next];
    assert output[op..next] == Utf8(x);
  }

  lemma Utf8Size(x: nat)
    requires x <= 0x10FFFF
    ensures |Utf8(x)| == if x < 0x80 then 1 else if x < 0x800 then 2 else if x < 0x1_0000 then 3 else 4
  {
  }

  lemma ShiftedStart(x: nat)
    ensures Shifted(x, 0) == x
  {
  }

  lemma ShiftedStep(x: nat, k: nat)
    ensures Shifted(x, k + 1) == Shifted(x, k) / 64
  {
  }

  /** `utf16_literal_to_utf8`: the length of the literal, or 0 if it is none. */
  method Utf16LiteralToUtf8(c: Text, i: nat, end: nat, output: array<Byte>, op: nat) returns (len: nat, next: nat)
    requires i <= end <= |c| && op <= output.Length
    requires Literal(c, i, end).Some? ==> op + |Utf8(Literal(c, i, end).value.0)| <= output.Length
    modifies output
    ensures Literal(c, i, end).None? ==> len == 0 && next == op && output[..op] == old(output[..op])
    ensures Literal(c, i, end).Some? ==>
      var l := Literal(c, i, end).value;
      len == l.1 && next == op + |Utf8(l.0)| && output[..next] == old(output[..op]) + Utf8(l.0)
  {
    hide Utf8, Hex4;
    next := op;
    if end - i < 6 {
      return 0, op;
    }
    var first := ParseHex4(c, i + 2);
    var codepoint := first;
    len := 6;
    if Low(first) {
      return 0, op;
    }
    if High(first) {
      var second := i + 6;
      if end - second < 6 || c[second] != BACKSLASH || c[second + 1] != LOWER_U {
        return 0, op;
      }
      var code := ParseHex4(c, second + 2);
      if !Low(code) {
        return 0, op;
      }
      codepoint := Pair(first, code);
      len := 12;
    }
    assert Literal(c, i, end) == Some((codepoint, len));
    next := PutUtf8(codepoint, output, op);
  }

  lemma ThenThen(a: Text, b: Text, r: Option<Text>)
    ensures Then(a, Then(b, r)) == Then(a + b, r)
  {
    if r.Some? { assert a + (b + r.value) == (a + b) + r.value; }
  }

  /**
   * The second loop of `parse_string`, into a buffer of the size allotted by the first scan and one
   * more. It stays inside although a `\u` sequence may take half of an escape pair with it.
   */
  method Unescaped(c: Text, s: nat, end: nat, output: array<Byte>) returns (ok: bool, op: nat)
    requires s <= end < |c| && c[end] == QUOTE && !Second(c, s, end) && Allotted(c, s, end) < output.Length
    modifies output
    ensures ok <==> Unescape(c, s, end).Some?
    ensures op <= Allotted(c, s, end)
    ensures ok ==> Unescape(c, s, end) == Some(output[..op])
  {
    hide Allotted, Literal, Utf8, Unescape;
    var i := s;
    op := 0;
    AllottedMono(c, s, s, end);
    ThenEmpty(output[..0], Unescape(c, s, end));
    while i < end
      invariant s <= i <= end + 1 && op <= Allotted(c, s, if i <= end then i else end) && op <= Allotted(c, s, end)
      invariant Unescape(c, s, end) == Then(output[..op], Unescape(c, i, end))
      decreases end + 1 - i
    {
      UnescapeStep(c, i, end);
      ghost var before := output[..op];
      var x, len: nat := 0, 1;
      if c[i] != BACKSLASH {
        AllottedOne(c, s, i);
        AllottedMono(c, s, i + 1, end);
        x := c[i];
      } else if c[i + 1] == LOWER_U {
        if Literal(c, i, end).Some? {
          AllottedLiteral(c, s, i, end);
          AllottedMono(c, s, i + Literal(c, i, end).value.1, end);
        }
        var n, next := Utf16LiteralToUtf8(c, i, end, output, op);
        if n == 0 {
          return false, op;
        }
        ThenThen(before, output[op..next], Unescape(c, i + n, end));
        assert output[..next] == output[..op] + output[op..next];
        assert output[op..next] == Utf8(Literal(c, i, end).value.0);
        op := next;
        i := i + n;
        continue;
      } else {
        match Plain(c[i + 1])
        case None => return false, op;
        case Some(y) => x := y;
        AllottedPair(c, s, i, end);
        len := 2;
      }
      output[op] := x;
      op := op + 1;
      assert output[..op] == before + [x];
      i := i + len;
      ThenThen(before, [x], Unescape(c, i, end));
    }
    UnescapeDone(c, i, end, output[..op]);
    ok := true;
  }

  lemma AllottedPair(c: Text, s: nat, i: nat, end: nat)
    requires s <= i < end < |c| && c[i] == BACKSLASH && !Second(c, s, end)
    ensures Allotted(c, s, i) + 1 <= Allotted(c, s, end)
    ensures i + 2 <= end ==> Allotted(c, s, i) + 1 <= Allotted(c, s, i + 2)
  {
    if i + 2 <= end {
      AllottedTwo(c, s, i);
      AllottedMono(c, s, i + 2, end);
    }
  }

  lemma ThenEmpty(e: Text, r: Option<Text>)
    requires e == []
    ensures Then(e, r) == r
  {
    if r.Some? { assert e + r.value == r.value; }
  }

  lemma UnescapeDone(c: Text, i: nat, end: nat, t: Text)
    requires end <= i && end < |c|
    ensures Then(t, Unescape(c, i, end)) == Some(t)
  {
    assert t + [] == t;
  }

  lemma UnescapeStep(c: Text, i: nat, end: nat)
    requires i < end < |c|
    ensures c[i] != BACKSLASH ==> Unescape(c, i, end) == Then([c[i]], Unescape(c, i + 1, end))
    ensures c[i] == BACKSLASH && c[i + 1] == LOWER_U && Literal(c, i, end).None? ==> Unescape(c, i, end) == None
    ensures c[i] == BACKSLASH && c[i + 1] == LOWER_U && Literal(c, i, end).Some? ==>
      var l := Literal(c, i, end).value;
      Unescape(c, i, end) == Then(Utf8(l.0), Unescape(c, i + l.1, end))
    ensures c[i] == BACKSLASH && c[i + 1] != LOWER_U ==>
      Unescape(c, i, end) ==
      if Plain(c[i + 1]).None? then None else Then([Plain(c[i + 1]).value], Unescape(c, i + 2, end))
  {
  }

  /** `parse_string`: the string at `o`, and where the buffer's offset ends up. */
  method ParseString(c: Text, o: nat) returns (ok: bool, s: Text, next: nat)
    requires o < |c|
    ensures ok <==> ParseStr(c, o).Some?
    ensures ok ==> ParseStr(c, o) == Some((s, next))
    ensures next <= |c|
  {
    s, next := [], o + 1;
    if c[o] != QUOTE {
      return false, [], next;
    }
    var end, skipped := FindEnd(c, o + 1);
    if end.None? {
      return false, [], next;
    }
    var e := end.value;
    var allocation := e - o - skipped;
    var output := new Byte[allocation + 1];
    var op;
    ok, op := Unescaped(c, o + 1, e, output);
    if !ok {
      return false, [], next;
    }
    output[op] := 0;
    return true, output[..op], e + 1;
  }
}
