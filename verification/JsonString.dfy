/** JSON strings (`cJSON.c`): escaping, unescaping and the buffers they are written to. */
module JsonStrings {
  import opened Wrappers
  import opened Octets

  type Text = seq<Byte>

  const QUOTE: Byte := 34
  const BACKSLASH: Byte := 92
  const SLASH: Byte := 47
  const LOWER_U: Byte := 117

  predicate NulFree(s: Text) { forall i :: 0 <= i < |s| ==> s[i] != 0 }

  /** The bytes in front of the first NUL: what a C string is taken for. */
  function CString(t: Text): Text {
    if t == [] || t[0] == 0 then [] else [t[0]] + CString(t[1..])
  }

  lemma {:induction false} CStringOf(t: Text)
    ensures NulFree(CString(t)) && (NulFree(t) <==> CString(t) == t)
  {
    if t != [] && t[0] != 0 {
      CStringOf(t[1..]);
      var r := CString(t[1..]);
      assert t == [t[0]] + t[1..];
      if CString(t) == t { assert CString(t)[1..] == r && t[1..] == r; }
      assert NulFree(t) ==> NulFree(t[1..]);
    }
  }

  /** `t` stands in `c` at offset `o`. */
  predicate At(c: Text, o: nat, t: Text) { o + |t| <= |c| && c[o..o + |t|] == t }

  lemma AtConcat(c: Text, o: nat, a: Text, b: Text)
    ensures At(c, o, a + b) <==> At(c, o, a) && At(c, o + |a|, b)
  {
    var n := |a| + |b|;
    assert |a + b| == n && (a + b)[..|a|] == a && (a + b)[|a|..] == b;
    if o + n <= |c| {
      var x, y := c[o..o + |a|], c[o + |a|..o + |a| + |b|];
      assert c[o..o + n] == x + y;
      assert (x + y)[..|a|] == x && (x + y)[|a|..] == y;
    }
  }

  lemma NotAt(c: Text, o: nat, t: Text)
    requires o < |c| && t != [] && c[o] != t[0]
    ensures !At(c, o, t)
  {
  }

  lemma AtIndex(c: Text, o: nat, t: Text, i: nat)
    requires At(c, o, t) && i < |t|
    ensures c[o + i] == t[i]
  {
    assert c[o..o + |t|][i] == t[i];
  }

  /** A control character that has an escape of two characters, and the second of these. */
  function Short(c: Byte): Option<Byte> {
    if c == QUOTE || c == BACKSLASH then Some(c)
    else if c == 8 then Some(98)
    else if c == 12 then Some(102)
    else if c == 10 then Some(110)
    else if c == 13 then Some(114)
    else if c == 9 then Some(116)
    else None
  }

  /** How many characters more than one the escaped form takes. */
  function Extra(c: Byte): nat {
    if Short(c).Some? then 1 else if c < 32 then 5 else 0
  }

  function HexDigit(v: nat): Byte
    requires v < 16
  {
    if v < 10 then 48 + v else 87 + v
  }

  /** Four lower-case hexadecimal digits. */
  function Hex(v: nat): Text
    requires v < 0x1_0000
  {
    [HexDigit(v / 0x1000), HexDigit(v / 0x100 % 16), HexDigit(v / 16 % 16), HexDigit(v % 16)]
  }

  /** The escaped form of one character. */
  function Escape(c: Byte): Text {
    match Short(c)
    case Some(x) => [BACKSLASH, x]
    case None => if c < 32 then [BACKSLASH, LOWER_U] + Hex(c) else [c]
  }

  function Escaped(s: Text): Text {
    if s == [] then [] else Escaped(s[..|s| - 1]) + Escape(s[|s| - 1])
  }

  function Quoted(s: Text): Text { [QUOTE] + Escaped(s) + [QUOTE] }

  lemma {:induction false} EscapedConcat(a: Text, b: Text)
    ensures Escaped(a + b) == Escaped(a) + Escaped(b)
  {
    hide Escaped, Escape;
    if b == [] {
      assert a + b == a;
      EscapedSnoc([], 0);
    } else {
      var b', x := b[..|b| - 1], b[|b| - 1];
      EscapedConcat(a, b');
      EscapedSnoc(b', x);
      EscapedSnoc(a + b', x);
      assert b == b' + [x] && a + b == (a + b') + [x];
    }
  }

  lemma EscapedSnoc(s: Text, x: Byte)
    ensures Escaped(s + [x]) == Escaped(s) + Escape(x) && Escaped([]) == []
  {
    assert (s + [x])[..|s|] == s;
  }

  lemma EscapedCons(s: Text)
    requires s != []
    ensures Escaped(s) == Escape(s[0]) + Escaped(s[1..])
  {
    assert s == [s[0]] + s[1..];
    EscapedConcat([s[0]], s[1..]);
    assert Escaped([s[0]]) == Escape(s[0]);
  }

  /** What the first pass of `print_string_ptr` counts. */
  function Extras(s: Text): nat {
    if s == [] then 0 else Extras(s[..|s| - 1]) + Extra(s[|s| - 1])
  }

  lemma EscapeLength(c: Byte)
    ensures |Escape(c)| == 1 + Extra(c) && (Extra(c) == 0 ==> Escape(c) == [c])
    ensures c != 0 ==> NulFree(Escape(c))
  {
  }

  lemma {:induction false} EscapedLength(s: Text)
    ensures |Escaped(s)| == |s| + Extras(s)
    ensures Extras(s) == 0 ==> Escaped(s) == s
    ensures NulFree(s) ==> NulFree(Escaped(s))
  {
    hide Escape, Escaped, Extra;
    if s == [] {
      EscapedSnoc([], 0);
    } else {
      var p, x := s[..|s| - 1], s[|s| - 1];
      assert s == p + [x];
      EscapedLength(p);
      EscapeLength(x);
      EscapedSnoc(p, x);
    }
  }

  /** The value of a hexadecimal digit, or -1. */
  function DigitValue(c: Byte): (r: int)
    ensures -1 <= r < 16
  {
    if 48 <= c <= 57 then c as int - 48
    else if 65 <= c <= 70 then c as int - 55
    else if 97 <= c <= 102 then c as int - 87
    else -1
  }

  /** `parse_hex4`: zero, not an error, if one of the four is no digit. */
  function Hex4(c: Text, i: nat): (r: nat)
    requires i + 4 <= |c|
    ensures r < 0x1_0000
  {
    var x, y, z, w := DigitValue(c[i]), DigitValue(c[i + 1]), DigitValue(c[i + 2]), DigitValue(c[i + 3]);
    if x < 0 || y < 0 || z < 0 || w < 0 then 0 else ((x * 16 + y) * 16 + z) * 16 + w
  }

  method ParseHex4(c: Text, i: nat) returns (h: nat)
    requires i + 4 <= |c|
    ensures h == Hex4(c, i)
  {
    h := 0;
    ghost var d := [DigitValue(c[i]), DigitValue(c[i + 1]), DigitValue(c[i + 2]), DigitValue(c[i + 3])];
    for k := 0 to 4
      invariant forall j :: 0 <= j < k ==> d[j] >= 0
      invariant h == if k == 0 then 0 else if k == 1 then d[0] * 16 else if k == 2 then (d[0] * 16 + d[1]) * 16
                     else if k == 3 then ((d[0] * 16 + d[1]) * 16 + d[2]) * 16 else Hex4(c, i)
    {
      var v := DigitValue(c[i + k]);
      assert v == d[k];
      if v < 0 {
        return 0;
      }
      h := h + v;
      if k < 3 { h := h * 16; }
    }
  }

  lemma HexSize(v: nat)
    requires v < 0x1_0000
    ensures |Hex(v)| == 4 && NulFree(Hex(v))
  {
  }

  lemma HexDigits(v: nat)
    requires v < 0x1_0000
    ensures ((v / 0x1000 * 16 + v / 0x100 % 16) * 16 + v / 16 % 16) * 16 + v % 16 == v
  {
    var a, b := v / 16, v / 0x100;
    assert a / 16 == b && b / 16 == v / 0x1000;
  }

  lemma HexRoundTrip(c: Text, i: nat, v: nat)
    requires v < 0x1_0000 && At(c, i, Hex(v))
    ensures Hex4(c, i) == v
  {
    hide At;
    var t := Hex(v);
    AtIndex(c, i, t, 0);
    AtIndex(c, i, t, 1);
    AtIndex(c, i, t, 2);
    AtIndex(c, i, t, 3);
    AtEnd(c, i, t);
    HexDigits(v);
    DigitBack(v / 0x1000);
    DigitBack(v / 0x100 % 16);
    DigitBack(v / 16 % 16);
    DigitBack(v % 16);
  }

  lemma AtEnd(c: Text, o: nat, t: Text)
    requires At(c, o, t)
    ensures o + |t| <= |c|
  {
  }

  lemma DigitBack(v: nat)
    requires v < 16
    ensures DigitValue(HexDigit(v)) == v
  {
  }

  predicate High(x: nat) { 0xD800 <= x <= 0xDBFF }
  predicate Low(x: nat) { 0xDC00 <= x <= 0xDFFF }

  /** A code point that UTF-8 may encode. */
  predicate Scalar(x: nat) { x <= 0x10FFFF && !High(x) && !Low(x) }

  /** The code point of the literal at `i`, one or two sequences of the form `\uXXXX`, and its length. */
  function Literal(c: Text, i: nat, end: nat): (r: Option<(nat, nat)>)
    requires i <= end <= |c|
    ensures r.Some? ==>
      Scalar(r.value.0) && (r.value.1 == 6 || (r.value.1 == 12 && r.value.0 >= 0x1_0000)) && i + r.value.1 <= end
  {
    if end - i < 6 then None
    else
      var first := Hex4(c, i + 2);
      if Low(first) then None
      else if High(first) then
        if end - (i + 6) < 6 || c[i + 6] != BACKSLASH || c[i + 7] != LOWER_U then None
        else
          var second := Hex4(c, i + 8);
          if !Low(second) then None else Some((Pair(first, second), 12))
      else Some((first, 6))
  }

  function Pair(first: nat, second: nat): (r: nat)
    requires High(first) && Low(second)
    ensures 0x1_0000 <= r <= 0x10FFFF
  {
    0x1_0000 + (first % 0x400) * 0x400 + second % 0x400
  }

  /** Section 3 of RFC 3629. */
  function Utf8(x: nat): (r: Text)
    requires x <= 0x10FFFF
    ensures 1 <= |r| <= 4 && (x < 0x1_0000 ==> |r| <= 3)
  {
    if x < 0x80 then [x]
    else if x < 0x800 then [0xC0 + x / 64, 0x80 + x % 64]
    else if x < 0x1_0000 then [0xE0 + x / 0x1000, 0x80 + x / 64 % 64, 0x80 + x % 64]
    else [0xF0 + x / 0x4_0000, 0x80 + x / 0x1000 % 64, 0x80 + x / 64 % 64, 0x80 + x % 64]
  }

  predicate Tail(b: Byte) { 0x80 <= b < 0xC0 }

  function Bits6(b: Byte): nat { b as int % 64 }

  /** The code point at the front of a UTF-8 text, and how many bytes it takes. */
  function Utf8Decode(t: Text): Option<(nat, nat)> {
    if |t| >= 1 && t[0] < 0x80 then Some((t[0] as nat, 1))
    else if |t| >= 2 && 0xC0 <= t[0] < 0xE0 && Tail(t[1]) then
      Some((Join2(t[0] as int - 0xC0, Bits6(t[1])), 2))
    else if |t| >= 3 && 0xE0 <= t[0] < 0xF0 && Tail(t[1]) && Tail(t[2]) then
      Some((Join2(Join2(t[0] as int - 0xE0, Bits6(t[1])), Bits6(t[2])), 3))
    else if |t| >= 4 && 0xF0 <= t[0] < 0xF8 && Tail(t[1]) && Tail(t[2]) && Tail(t[3]) then
      Some((Join2(Join2(Join2(t[0] as int - 0xF0, Bits6(t[1])), Bits6(t[2])), Bits6(t[3])), 4))
    else None
  }

  function Join2(hi: nat, lo: nat): nat { hi * 64 + lo }

  lemma Joined(x: nat)
    ensures Join2(x / 64, x % 64) == x && x / 64 / 64 == x / 0x1000 && x / 0x1000 / 64 == x / 0x4_0000
    ensures Join2(x / 0x1000, x / 64 % 64) == x / 64 && Join2(x / 0x4_0000, x / 0x1000 % 64) == x / 0x1000
  {
  }

  /** A continuation byte carries six bits. */
  lemma TailByte(y: nat)
    requires y < 64
    ensures Tail(0x80 + y) && Bits6(0x80 + y) == y
  {
  }

  lemma Utf8RoundTrip(x: nat, rest: Text)
    requires Scalar(x)
    ensures Utf8Decode(Utf8(x) + rest) == Some((x, |Utf8(x)|))
  {
    hide Join2, Tail, Bits6;
    Joined(x);
    TailByte(x % 64);
    TailByte(x / 64 % 64);
    TailByte(x / 0x1000 % 64);
  }

  /** How UTF-16 writes a code point as escape sequences. */
  function Utf16(x: nat): Text
    requires Scalar(x)
  {
    if x < 0x1_0000 then [BACKSLASH, LOWER_U] + Hex(x)
    else
      var y := x - 0x1_0000;
      [BACKSLASH, LOWER_U] + Hex(0xD800 + y / 0x400) + [BACKSLASH, LOWER_U] + Hex(0xDC00 + y % 0x400)
  }

  /** Every code point written in UTF-16 escapes is read back. */
  lemma LiteralRoundTrip(c: Text, i: nat, end: nat, x: nat)
    requires Scalar(x) && end <= |c| && At(c, i, Utf16(x)) && i + |Utf16(x)| <= end
    ensures Literal(c, i, end) == Some((x, |Utf16(x)|))
  {
    hide At, Hex4, Hex, Pair;
    if x < 0x1_0000 {
      AtConcat(c, i, [BACKSLASH, LOWER_U], Hex(x));
      HexSize(x);
      HexRoundTrip(c, i + 2, x);
    } else {
      var y := x - 0x1_0000;
      var h, l := 0xD800 + y / 0x400, 0xDC00 + y % 0x400;
      var u := [BACKSLASH, LOWER_U];
      assert |Hex(h)| == 4 && |Hex(l)| == 4 by { HexSize(h); HexSize(l); }
      AtConcat(c, i, u + Hex(h) + u, Hex(l));
      AtConcat(c, i, u + Hex(h), u);
      AtConcat(c, i, u, Hex(h));
      HexRoundTrip(c, i + 2, h);
      HexRoundTrip(c, i + 8, l);
      AtIndex(c, i + 6, u, 0);
      AtIndex(c, i + 6, u, 1);
      PairOf(y);
    }
  }

  lemma PairOf(y: nat)
    requires y <= 0xF_FFFF
    ensures High(0xD800 + y / 0x400) && Low(0xDC00 + y % 0x400)
    ensures Pair(0xD800 + y / 0x400, 0xDC00 + y % 0x400) == 0x1_0000 + y
  {
    assert (0xD800 + y / 0x400) % 0x400 == y / 0x400;
    assert (0xDC00 + y % 0x400) % 0x400 == y % 0x400;
  }

  /** The first scan of `parse_string`: the closing quote, found by stepping over escape pairs. */
  function Closing(c: Text, i: nat): (r: Option<nat>)
    requires i <= |c|
    ensures r.Some? ==> i <= r.value < |c| && c[r.value] == QUOTE
    decreases |c| - i
  {
    if i == |c| then None
    else if c[i] == QUOTE then Some(i)
    else if c[i] != BACKSLASH then Closing(c, i + 1)
    else if i + 1 >= |c| then None
    else Closing(c, i + 2)
  }

  /** What the character after a backslash stands for, `u` aside. */
  function Plain(x: Byte): Option<Byte> {
    if x == 98 then Some(8)
    else if x == 102 then Some(12)
    else if x == 110 then Some(10)
    else if x == 114 then Some(13)
    else if x == 116 then Some(9)
    else if x == QUOTE || x == BACKSLASH || x == SLASH then Some(x)
    else None
  }

  function Then(t: Text, r: Option<Text>): Option<Text> {
    match r
    case Some(u) => Some(t + u)
    case None => None
  }

  /** The second scan: what the literal between the quotes stands for. */
  function Unescape(c: Text, i: nat, end: nat): Option<Text>
    requires end < |c|
    decreases end - i
  {
    if i >= end then Some([])
    else if c[i] != BACKSLASH then Then([c[i]], Unescape(c, i + 1, end))
    else if c[i + 1] == LOWER_U then
      match Literal(c, i, end)
      case Some(l) => Then(Utf8(l.0), Unescape(c, i + l.1, end))
      case None => None
    else
      match Plain(c[i + 1])
      case Some(x) => Then([x], Unescape(c, i + 2, end))
      case None => None
  }

  /** The string at `o`, and the offset after it. */
  function ParseStr(c: Text, o: nat): (r: Option<(Text, nat)>)
    requires o < |c|
    ensures r.Some? ==> o < r.value.1 <= |c| && c[r.value.1 - 1] == QUOTE
  {
    if c[o] != QUOTE then None
    else
      match Closing(c, o + 1)
      case None => None
      case Some(e) =>
        match Unescape(c, o + 1, e)
        case None => None
        case Some(s) => Some((s, e + 1))
  }

  /** One escaped character, read back. */
  lemma UnescapeOne(c: Text, i: nat, end: nat, x: Byte)
    requires end < |c| && At(c, i, Escape(x)) && i + |Escape(x)| <= end
    ensures Unescape(c, i, end) == Then([x], Unescape(c, i + |Escape(x)|, end))
    ensures Closing(c, i) == Closing(c, i + |Escape(x)|)
  {
    if Short(x).None? && x < 32 {
      assert Escape(x) == Utf16(x);
      LiteralRoundTrip(c, i, end, x);
      assert c[i..i + 6][0] == c[i] && c[i..i + 6][1] == c[i + 1];
      SixPlain(c, i, x);
    } else {
      assert c[i] == c[i..i + |Escape(x)|][0];
      assert Short(x).Some? ==> c[i + 1] == c[i..i + |Escape(x)|][1];
    }
  }

  lemma SixPlain(c: Text, i: nat, x: nat)
    requires x < 32 && At(c, i, [BACKSLASH, LOWER_U] + Hex(x))
    ensures Closing(c, i) == Closing(c, i + 6)
  {
    var t := [BACKSLASH, LOWER_U] + Hex(x);
    assert forall j :: 0 <= j < 6 ==> c[i + j] == c[i..i + 6][j] == t[j];
    assert c[i + 1] == LOWER_U && c[i] == BACKSLASH;
    assert c[i + 2] == t[2] && c[i + 3] == t[3] && c[i + 4] == t[4] && c[i + 5] == t[5];
    assert Closing(c, i + 2) == Closing(c, i + 3) == Closing(c, i + 4) == Closing(c, i + 5) == Closing(c, i + 6);
  }

  /** A printed string is read back, whatever it contains and whatever follows it. */
  lemma {:induction false} UnescapeEscaped(c: Text, i: nat, s: Text)
    requires At(c, i, Escaped(s) + [QUOTE])
    ensures Closing(c, i) == Some(i + |Escaped(s)|)
    ensures Unescape(c, i, i + |Escaped(s)|) == Some(s)
    decreases |s|
  {
    hide At, Unescape, Closing, Escape;
    var e := Escaped(s);
    AtConcat(c, i, e, [QUOTE]);
    AtEnd(c, i + |e|, [QUOTE]);
    AtIndex(c, i + |e|, [QUOTE], 0);
    if s == [] {
      assert e == [];
      Closed(c, i);
    } else {
      EscapedCons(s);
      var a, b := Escape(s[0]), Escaped(s[1..]);
      assert e + [QUOTE] == a + (b + [QUOTE]);
      AtConcat(c, i, a, b + [QUOTE]);
      UnescapeOne(c, i, i + |e|, s[0]);
      UnescapeEscaped(c, i + |a|, s[1..]);
      assert s == [s[0]] + s[1..];
    }
  }

  lemma Closed(c: Text, i: nat)
    requires i < |c| && c[i] == QUOTE
    ensures Closing(c, i) == Some(i) && Unescape(c, i, i) == Some([])
  {
  }

  lemma StringRoundTrip(c: Text, o: nat, s: Text)
    requires At(c, o, Quoted(s))
    ensures o < |c| && ParseStr(c, o) == Some((s, o + |Quoted(s)|))
  {
    hide At, Unescape, Closing, Escaped;
    var e := Escaped(s);
    assert Quoted(s) == [QUOTE] + (e + [QUOTE]);
    AtConcat(c, o, [QUOTE], e + [QUOTE]);
    AtEnd(c, o, Quoted(s));
    AtIndex(c, o, [QUOTE], 0);
    UnescapeEscaped(c, o + 1, s);
  }
}
