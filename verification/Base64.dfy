/** Base 64 (`base64.c`), section 4 of RFC 4648: the byte-at-a-time loops against group-wise definitions. */
module Base64 {
  import opened Wrappers
  import opened Octets

  type Sextet = x: int | 0 <= x < 64

  const PAD: Byte := 61
  const FIRST: Byte := 43
  const LAST: Byte := 122

  /** The encoding table. */
  function En(v: Sextet): (c: Byte)
    ensures c != PAD && FIRST <= c <= LAST
  {
    if v < 26 then 65 + v else if v < 52 then 97 + (v - 26) else if v < 62 then 48 + (v - 52)
    else if v == 62 then 43 else 47
  }

  /** The decoding table, with the range test in front of it; entry 255 is `None`. */
  function De(c: Byte): Option<Sextet> {
    if c < FIRST || c > LAST then None
    else if 65 <= c <= 90 then Some(c - 65)
    else if 97 <= c <= 122 then Some(c - 97 + 26)
    else if 48 <= c <= 57 then Some(c - 48 + 52)
    else if c == 43 then Some(62) else if c == 47 then Some(63) else None
  }

  /** Table 1 of RFC 4648. */
  const ALPHABET: string := "ABCDEFGHIJKLMNOPQRSTUVWXYZ" + "abcdefghijklmnopqrstuvwxyz" + "0123456789" + "+/"

  lemma Capital(v: nat)
    requires v < 26
    ensures "ABCDEFGHIJKLMNOPQRSTUVWXYZ"[v] as int == 65 + v
  {
  }

  lemma Small(v: nat)
    requires v < 26
    ensures "abcdefghijklmnopqrstuvwxyz"[v] as int == 97 + v
  {
  }

  lemma Digit(v: nat)
    requires v < 10
    ensures "0123456789"[v] as int == 48 + v
  {
  }

  /** The encoding table is that of RFC 4648. */
  lemma EnIs(v: Sextet)
    ensures |ALPHABET| == 64 && En(v) == ALPHABET[v] as int
  {
    if v < 26 { Capital(v); } else if v < 52 { Small(v - 26); } else if v < 62 { Digit(v - 52); }
  }

  /** The decoding table is its inverse: defined on the 64 characters and on no other. */
  lemma DeIff(c: Byte, v: Sextet)
    ensures De(c) == Some(v) <==> (|ALPHABET| == 64 && ALPHABET[v] as int == c)
  {
    EnIs(v);
  }

  lemma TablesInverse(v: Sextet)
    ensures De(En(v)) == Some(v)
  {
  }

  // The four sextets of three bytes, and the three bytes of four sextets.

  function S0(a: Byte): Sextet { a / 4 }

  function S1(a: Byte, b: Byte): Sextet { a % 4 * 16 + b / 16 }

  function S2(b: Byte, c: Byte): Sextet { b % 16 * 4 + c / 64 }

  function S3(c: Byte): Sextet { c % 64 }

  function B0(v: Sextet, w: Sextet): Byte { var x: int := v; x * 4 + w / 16 }

  function B1(v: Sextet, w: Sextet): Byte { var x: int := v; x % 16 * 16 + w / 4 }

  function B2(v: Sextet, w: Sextet): Byte { var x: int := v; x % 4 * 64 + w }

  /** Regrouping bits six by six and back is the identity. */
  lemma Regrouped(a: Byte, b: Byte, c: Byte)
    ensures B0(S0(a), S1(a, b)) == a && B1(S1(a, b), S2(b, c)) == b && B2(S2(b, c), S3(c)) == c
  {
  }

  /** The text of a byte string, three bytes to four characters. */
  function Text(x: seq<Byte>): seq<Byte> {
    if x == [] then []
    else if |x| == 1 then [En(S0(x[0])), En(S1(x[0], 0)), PAD, PAD]
    else if |x| == 2 then [En(S0(x[0])), En(S1(x[0], x[1])), En(S2(x[1], 0)), PAD]
    else [En(S0(x[0])), En(S1(x[0], x[1])), En(S2(x[1], x[2])), En(S3(x[2]))] + Text(x[3..])
  }

  lemma {:induction false} TextSize(x: seq<Byte>)
    ensures |Text(x)| == 4 * ((|x| + 2) / 3)
  {
    hide En, S0, S1, S2, S3;
    if |x| >= 3 {
      TextSize(x[3..]);
      assert |Text(x)| == 4 + |Text(x[3..])| && |x[3..]| == |x| - 3;
      NextGroup(|x|);
    }
  }

  lemma NextGroup(n: nat)
    requires n >= 3
    ensures 4 + 4 * ((n - 3 + 2) / 3) == 4 * ((n + 2) / 3)
  {
  }

  lemma {:induction false} TextAppend(x: seq<Byte>, r: seq<Byte>)
    requires |x| % 3 == 0
    ensures Text(x + r) == Text(x) + Text(r)
  {
    if x == [] {
      assert x + r == r;
    } else {
      assert (x + r)[3..] == x[3..] + r;
      TextAppend(x[3..], r);
    }
  }

  /** The characters of an unfinished group that are already out. */
  function Part(r: seq<Byte>): seq<Byte>
    requires |r| < 3
  {
    if r == [] then []
    else if |r| == 1 then [En(S0(r[0]))]
    else [En(S0(r[0])), En(S1(r[0], r[1]))]
  }

  /** A whole number of groups. */
  predicate Whole(x: seq<Byte>) { |x| % 3 == 0 }

  lemma WholeNext(x: seq<Byte>, r: seq<Byte>)
    requires Whole(x) && |r| == 3
    ensures Whole(x + r)
  {
  }

  lemma TextLength(n: nat, g: nat, s: nat)
    requires n == 3 * g + s && s < 3
    ensures 4 * ((n + 2) / 3) == 4 * g + if s == 0 then 0 else 4
  {
  }

  /** What one byte adds in state `s` after byte `l`. */
  function Emit(s: nat, l: Byte, c: Byte): seq<Byte> {
    if s == 0 then [En(S0(c))]
    else if s == 1 then [En(S1(l, c))]
    else [En(S2(l, c)), En(S3(c))]
  }

  /** What the padding adds in state `s` after byte `l`. */
  function Close(s: nat, l: Byte): seq<Byte> {
    if s == 1 then [En(S1(l, 0)), PAD, PAD] else if s == 2 then [En(S2(l, 0)), PAD] else []
  }

  lemma TextSnoc(x: seq<Byte>, r: seq<Byte>, l: Byte, c: Byte)
    requires Whole(x) && |r| < 3 && (r != [] ==> l == r[|r| - 1])
    ensures |r| == 2 ==> Text(x + r + [c]) == Text(x) + Part(r) + Emit(2, l, c)
    ensures |r| < 2 ==> Part(r + [c]) == Part(r) + Emit(|r|, l, c)
  {
    hide En, S0, S1, S2, S3;
    if |r| == 2 {
      var g := r + [c];
      assert x + r + [c] == x + g;
      TextAppend(x, g);
      assert g[3..] == [] && g[0] == r[0] && g[1] == r[1] && g[2] == c;
      assert Text(g) == Part(r) + Emit(2, l, c);
    }
  }

  lemma TextEnd(x: seq<Byte>, r: seq<Byte>, l: Byte)
    requires Whole(x) && |r| < 3 && (r != [] ==> l == r[|r| - 1])
    ensures Text(x + r) == Text(x) + Part(r) + Close(|r|, l)
  {
    hide En, S0, S1, S2, S3;
    TextAppend(x, r);
    assert Text(r) == Part(r) + Close(|r|, l);
  }

  /** The `switch` of the encoding loop. */
  method EncodeByte(out: array<Byte>, j: nat, s: nat, l: Byte, c: Byte) returns (j': nat, s': nat)
    requires s < 3 && j + |Emit(s, l, c)| <= out.Length
    modifies out
    ensures j' == j + |Emit(s, l, c)| && s' == if s < 2 then s + 1 else 0
    ensures out[..j'] == old(out[..j]) + Emit(s, l, c)
  {
    match s
    case 0 =>
      out[j] := En(S0(c));
      j', s' := j + 1, 1;
    case 1 =>
      out[j] := En(S1(l, c));
      j', s' := j + 1, 2;
    case _ =>
      out[j] := En(S2(l, c));
      out[j + 1] := En(S3(c));
      j', s' := j + 2, 0;
  }

  /** The closing `switch`. */
  method EncodeClose(out: array<Byte>, j: nat, s: nat, l: Byte) returns (j': nat)
    requires s < 3 && j + |Close(s, l)| <= out.Length
    modifies out
    ensures j' == j + |Close(s, l)| && out[..j'] == old(out[..j]) + Close(s, l)
  {
    j' := j;
    match s
    case 1 =>
      out[j], out[j + 1], out[j + 2] := En(S1(l, 0)), PAD, PAD;
      j' := j + 3;
    case 2 =>
      out[j], out[j + 1] := En(S2(l, 0)), PAD;
      j' := j + 2;
    case _ =>
  }

  lemma EmitLength(s: nat, l: Byte, c: Byte)
    ensures |Emit(s, l, c)| == (if s < 2 then 1 else 2) &&
      |Close(s, l)| == if s == 1 then 3 else if s == 2 then 2 else 0
  {
  }

  /** `base64_encode`: one byte a round, in three states, with the last byte carried along. */
  method Encode(input: seq<Byte>, out: array<Byte>) returns (j: nat)
    requires out.Length > 4 * ((|input| + 2) / 3)
    modifies out
    ensures j == 4 * ((|input| + 2) / 3) && out[..j] == Text(input) && out[j] == 0
  {
    hide Text, Part, Emit, Close, Whole;
    TextEmpty();
    var s := 0;
    var l: Byte := 0;
    j := 0;
    ghost var g, x, r := 0, [], [];
    for i := 0 to |input|
      invariant |x| == 3 * g && |r| == s < 3 && input[..i] == x + r && Whole(x)
      invariant r != [] ==> l == r[|r| - 1]
      invariant j == 4 * g + s && out[..j] == Text(x) + Part(r)
    {
      var c := input[i];
      TextSnoc(x, r, l, c);
      EmitLength(s, l, c);
      RoomFor(|input|, g, s);
      ghost var emitted := Emit(s, l, c);
      assert Text(x) + Part(r) + emitted == Text(x) + (Part(r) + emitted);
      assert input[..i + 1] == x + r + [c] == x + (r + [c]);
      if s == 2 {
        WholeNext(x, r + [c]);
        g, x, r := g + 1, x + (r + [c]), [];
        assert Text(x) + [] == Text(x);
      } else {
        r := r + [c];
      }
      j, s := EncodeByte(out, j, s, l, c);
      l := c;
    }
    assert input[..|input|] == input;
    TextEnd(x, r, l);
    EmitLength(s, l, 0);
    TextLength(|input|, g, s);
    j := EncodeClose(out, j, s, l);
    ghost var done := out[..j];
    out[j] := 0;
    assert out[..j] == done;
  }

  lemma RoomFor(n: nat, g: nat, s: nat)
    requires 3 * g + s < n && s < 3
    ensures 4 * g + 4 <= 4 * ((n + 2) / 3)
  {
  }

  lemma TextEmpty()
    ensures Text([]) == [] && Part([]) == [] && Whole([])
  {
  }

  // ----- decoding -----

  /** The values of the characters before the first pad, unless one is outside the alphabet. */
  function Values(t: seq<Byte>): (r: Option<seq<Sextet>>)
    ensures r.Some? ==> |r.value| <= |t|
  {
    if t == [] || t[0] == PAD then Some([])
    else if De(t[0]).None? || Values(t[1..]).None? then None
    else Some([De(t[0]).value] + Values(t[1..]).value)
  }

  /** The whole bytes in a row of sextets, four sextets to three bytes. */
  function Bytes(v: seq<Sextet>): seq<Byte> {
    if |v| < 2 then []
    else if |v| == 2 then [B0(v[0], v[1])]
    else if |v| == 3 then [B0(v[0], v[1]), B1(v[1], v[2])]
    else [B0(v[0], v[1]), B1(v[1], v[2]), B2(v[2], v[3])] + Bytes(v[4..])
  }

  lemma {:induction false} BytesAppend(x: seq<Sextet>, r: seq<Sextet>)
    requires |x| % 4 == 0
    ensures Bytes(x + r) == Bytes(x) + Bytes(r)
  {
    if x == [] {
      assert x + r == r;
    } else {
      assert (x + r)[4..] == x[4..] + r;
      BytesAppend(x[4..], r);
    }
  }

  lemma EnDe(v: Sextet, t: seq<Byte>)
    ensures Values([En(v)] + t) == match Values(t) case None => None case Some(w) => Some([v] + w)
  {
    TablesInverse(v);
    assert ([En(v)] + t)[1..] == t;
  }

  lemma PadStops(t: seq<Byte>)
    ensures Values([PAD] + t) == Some([])
  {
  }

  /** The sextets of a byte string, the last one filled up with zero bits. */
  function Sextets(x: seq<Byte>): seq<Sextet> {
    if x == [] then []
    else if |x| == 1 then [S0(x[0]), S1(x[0], 0)]
    else if |x| == 2 then [S0(x[0]), S1(x[0], x[1]), S2(x[1], 0)]
    else [S0(x[0]), S1(x[0], x[1]), S2(x[1], x[2]), S3(x[2])] + Sextets(x[3..])
  }

  lemma ValuesQuad(a: Sextet, b: Sextet, c: Sextet, d: Sextet, t: seq<Byte>, w: seq<Sextet>)
    requires Values(t) == Some(w)
    ensures Values([En(a), En(b), En(c), En(d)] + t) == Some([a, b, c, d] + w)
  {
    hide En, De, Values;
    assert [En(a), En(b), En(c), En(d)] + t == [En(a)] + ([En(b)] + ([En(c)] + ([En(d)] + t)));
    EnDe(d, t);
    EnDe(c, [En(d)] + t);
    EnDe(b, [En(c)] + ([En(d)] + t));
    EnDe(a, [En(b)] + ([En(c)] + ([En(d)] + t)));
    assert [a] + ([b] + ([c] + ([d] + w))) == [a, b, c, d] + w;
  }

  lemma ValuesPadded(a: Sextet, b: Sextet, c: Sextet)
    ensures Values([En(a), En(b), PAD, PAD]) == Some([a, b])
    ensures Values([En(a), En(b), En(c), PAD]) == Some([a, b, c])
  {
    hide En, De, Values;
    PadStops([PAD]);
    PadStops([]);
    var p, q := [PAD] + [PAD], [PAD] + [];
    assert [En(a), En(b), PAD, PAD] == [En(a)] + ([En(b)] + p);
    assert [En(a), En(b), En(c), PAD] == [En(a)] + ([En(b)] + ([En(c)] + q));
    EnDe(b, p);
    EnDe(a, [En(b)] + p);
    EnDe(c, q);
    EnDe(b, [En(c)] + q);
    EnDe(a, [En(b)] + ([En(c)] + q));
    assert [a] + ([b] + []) == [a, b] && [a] + ([b] + ([c] + [])) == [a, b, c];
  }

  lemma {:induction false} ValuesOfText(x: seq<Byte>)
    ensures Values(Text(x)) == Some(Sextets(x))
  {
    hide En, De, Values, S0, S1, S2, S3;
    if x == [] {
      NoValues();
    } else if |x| == 1 {
      ValuesPadded(S0(x[0]), S1(x[0], 0), 0);
    } else if |x| == 2 {
      ValuesPadded(S0(x[0]), S1(x[0], x[1]), S2(x[1], 0));
    } else {
      ValuesOfText(x[3..]);
      ValuesQuad(S0(x[0]), S1(x[0], x[1]), S2(x[1], x[2]), S3(x[2]), Text(x[3..]), Sextets(x[3..]));
    }
  }

  lemma NoValues()
    ensures Values([]) == Some([])
  {
  }

  lemma {:induction false} BytesOfSextets(x: seq<Byte>)
    ensures Bytes(Sextets(x)) == x
  {
    hide S0, S1, S2, S3, B0, B1, B2;
    if x != [] { Regrouped(x[0], if |x| > 1 then x[1] else 0, if |x| > 2 then x[2] else 0); }
    if |x| >= 3 {
      BytesOfSextets(x[3..]);
      assert Sextets(x)[4..] == Sextets(x[3..]);
      assert x == [x[0], x[1], x[2]] + x[3..];
    }
  }

  /** Decoding the text of a byte string gives the byte string back. */
  lemma RoundTrip(x: seq<Byte>)
    ensures |Text(x)| % 4 == 0 && Values(Text(x)).Some? && Bytes(Values(Text(x)).value) == x
  {
    hide Text, Values, Bytes, Sextets;
    TextSize(x);
    ValuesOfText(x);
    BytesOfSextets(x);
  }

  // ----- what the text says -----

  /** The number that sextets stand for in base 64, the first one being the highest. */
  function Number64(x: seq<Sextet>): nat { if x == [] then 0 else Number64(x[..|x| - 1]) * 64 + x[|x| - 1] }

  lemma Snoc64(x: seq<Sextet>, d: Sextet)
    ensures Number64(x + [d]) == Number64(x) * 64 + d
  {
    assert (x + [d])[..|x|] == x;
  }

  lemma Four64(x: seq<Sextet>, a: Sextet, b: Sextet, c: Sextet, d: Sextet)
    ensures Number64(x + [a]) == Number64(x) * 64 + a && Number64(x + [a, b]) == Number64(x + [a]) * 64 + b
    ensures Number64(x + [a, b, c]) == Number64(x + [a, b]) * 64 + c
    ensures Number64(x + [a, b, c, d]) == Number64(x + [a, b, c]) * 64 + d
  {
    hide Number64;
    Snoc64(x, a);
    Snoc64(x + [a], b);
    Snoc64(x + [a, b], c);
    Snoc64(x + [a, b, c], d);
    assert x + [a] + [b] == x + [a, b] && x + [a, b] + [c] == x + [a, b, c];
    assert x + [a, b, c] + [d] == x + [a, b, c, d];
  }

  lemma Three256(x: seq<Byte>, a: Byte, b: Byte, c: Byte)
    ensures Number256(x + [a]) == Number256(x) * 256 + a && Number256(x + [a, b]) == Number256(x + [a]) * 256 + b
    ensures Number256(x + [a, b, c]) == Number256(x + [a, b]) * 256 + c
  {
    hide Number256;
    Snoc256(x, a);
    Snoc256(x + [a], b);
    Snoc256(x + [a, b], c);
    assert x + [a] + [b] == x + [a, b] && x + [a, b] + [c] == x + [a, b, c];
  }

  /** The characters of a row of sextets. */
  function Letters(v: seq<Sextet>): (t: seq<Byte>)
    ensures |t| == |v|
  {
    seq(|v|, i requires 0 <= i < |v| => En(v[i]))
  }

  /** `=` fills up the last group of four. */
  function Pads(n: nat): seq<Byte> { seq((3 - n % 3) % 3, _ => '=' as int) }

  /** The text is the sextets spelled in the alphabet, and as many `=` as bytes are missing from the last group. */
  lemma {:induction false} TextIs(x: seq<Byte>)
    ensures Text(x) == Letters(Sextets(x)) + Pads(|x|)
  {
    hide En, S0, S1, S2, S3;
    if |x| >= 3 {
      TextIs(x[3..]);
      var g, rest := Sextets(x)[..4], Sextets(x[3..]);
      assert Sextets(x) == g + rest && Letters(g + rest) == Letters(g) + Letters(rest);
      assert Pads(|x|) == Pads(|x[3..]|);
    }
  }

  /** A number with the zero bits that fill up the last sextet of `k` bytes. */
  function Filled(n: nat, k: nat): nat { if k % 3 == 0 then n else if k % 3 == 1 then n * 16 else n * 4 }

  lemma {:induction false} SextetsNumber(x: seq<Byte>)
    ensures Number64(Sextets(x)) == Filled(Number256(x), |x|)
    decreases |x|
  {
    hide Number64, Number256, Sextets, Filled;
    if x == [] {
      NoNumber();
    } else {
      var n := if |x| % 3 == 0 then 3 else |x| % 3;
      WholeGroups(|x|, n);
      var y, r := x[..|x| - n], x[|x| - n..];
      assert x == y + r && |x| == |y| + |r|;
      Fills(|y|, |r|, Number256(y), Number256(x));
      SextetsNumber(y);
      SextetsAppend(y, r);
      LastGroup(y, r);
    }
  }

  lemma Fills(i: nat, n: nat, a: nat, b: nat)
    requires i % 3 == 0
    ensures Filled(a, i) == a && Filled(b, i + n) == Filled(b, n)
  {
  }

  lemma WholeGroups(m: nat, n: nat)
    requires m > 0 && n == if m % 3 == 0 then 3 else m % 3
    ensures n <= m && (m - n) % 3 == 0
  {
    var q := m / 3;
    assert m == 3 * q + m % 3;
    var k := if n == 3 then q - 1 else q;
    assert m - n == 3 * k;
    Thrice(k);
  }

  lemma Thrice(k: nat)
    ensures 3 * k % 3 == 0
  {
  }

  lemma {:induction false} SextetsAppend(x: seq<Byte>, r: seq<Byte>)
    requires |x| % 3 == 0
    ensures Sextets(x + r) == Sextets(x) + Sextets(r)
  {
    hide S0, S1, S2, S3;
    if x == [] {
      assert x + r == r;
    } else {
      assert (x + r)[3..] == x[3..] + r;
      SextetsAppend(x[3..], r);
    }
  }

  lemma NoNumber()
    ensures Number64([]) == 0 && Number256([]) == 0 && Sextets([]) == [] && Filled(0, 0) == 0
  {
  }

  lemma LastGroup(y: seq<Byte>, r: seq<Byte>)
    requires |y| % 3 == 0 && 1 <= |r| <= 3 && Number64(Sextets(y)) == Number256(y)
    ensures Number64(Sextets(y) + Sextets(r)) == Filled(Number256(y + r), |r|)
  {
    hide Number64, Number256, Sextets, S0, S1, S2, S3;
    var n, a := Number256(y), r[0];
    var b, c: Byte := if |r| > 1 then r[1] else 0, if |r| > 2 then r[2] else 0;
    FewSextets(a, b, c);
    Four64(Sextets(y), S0(a), S1(a, b), S2(b, c), S3(c));
    Three256(y, a, b, c);
    if |r| == 1 {
      assert r == [a];
      FirstOfGroup(n, a);
    } else if |r| == 2 {
      assert r == [a, b];
      TwoOfGroup(n, a, b);
    } else {
      assert r == [a, b, c];
      WholeGroup(n, a, b, c);
    }
  }

  lemma FirstOfGroup(n: nat, a: Byte)
    ensures (n * 64 + S0(a)) * 64 + S1(a, 0) == (n * 256 + a) * 16
  {
  }

  lemma TwoOfGroup(n: nat, a: Byte, b: Byte)
    ensures ((n * 64 + S0(a)) * 64 + S1(a, b)) * 64 + S2(b, 0) == ((n * 256 + a) * 256 + b) * 4
  {
  }

  lemma WholeGroup(n: nat, a: Byte, b: Byte, c: Byte)
    ensures (((n * 64 + S0(a)) * 64 + S1(a, b)) * 64 + S2(b, c)) * 64 + S3(c) == ((n * 256 + a) * 256 + b) * 256 + c
  {
  }

  /** A number without the bits of `k` sextets that fill no byte. */
  function Cut(n: nat, k: nat): nat {
    if k % 4 == 0 then n else if k % 4 == 1 then n / 64 else if k % 4 == 2 then n / 16 else n / 4
  }

  /** The bytes decoded are the same number, without the bits that fill no byte. */
  lemma {:induction false} BytesNumber(v: seq<Sextet>)
    ensures Number256(Bytes(v)) == Cut(Number64(v), |v|)
    decreases |v|
  {
    hide Number64, Number256, Bytes;
    var k := |v| % 4;
    var n := if k == 0 && v != [] then 4 else k;
    var y, r := v[..|v| - n], v[|v| - n..];
    assert v == y + r;
    if v == [] {
      NoNumber();
      NoBytes();
    } else {
      BytesNumber(y);
      BytesAppend(y, r);
      LastBytes(y, r);
    }
  }

  lemma LastBytes(y: seq<Sextet>, r: seq<Sextet>)
    requires |y| % 4 == 0 && 1 <= |r| <= 4 && Number256(Bytes(y)) == Number64(y)
    ensures Number256(Bytes(y) + Bytes(r)) == Cut(Number64(y + r), |r|)
  {
    hide Number64, Number256, Bytes, B0, B1, B2;
    var n, a := Number64(y), r[0];
    var b: Sextet, c: Sextet, d: Sextet :=
      if |r| > 1 then r[1] else 0, if |r| > 2 then r[2] else 0, if |r| > 3 then r[3] else 0;
    BytesOfFew(a, b, c, d);
    Three256(Bytes(y), B0(a, b), B1(b, c), B2(c, d));
    Four64(y, a, b, c, d);
    OneByte(n, a, b);
    TwoBytes(n, a, b, c);
    ThreeBytes(n, a, b, c, d);
    if |r| == 1 { assert r == [a] && Bytes(y) + [] == Bytes(y); }
    else if |r| == 2 { assert r == [a, b]; }
    else if |r| == 3 { assert r == [a, b, c]; }
    else { assert r == [a, b, c, d]; }
  }

  lemma OneByte(n: nat, a: Sextet, b: Sextet)
    ensures (n * 64 + a) / 64 == n && ((n * 64 + a) * 64 + b) / 16 == n * 256 + B0(a, b)
  {
  }

  lemma TwoBytes(n: nat, a: Sextet, b: Sextet, c: Sextet)
    ensures (((n * 64 + a) * 64 + b) * 64 + c) / 4 == (n * 256 + B0(a, b)) * 256 + B1(b, c)
  {
  }

  lemma ThreeBytes(n: nat, a: Sextet, b: Sextet, c: Sextet, d: Sextet)
    ensures (((n * 64 + a) * 64 + b) * 64 + c) * 64 + d == ((n * 256 + B0(a, b)) * 256 + B1(b, c)) * 256 + B2(c, d)
  {
  }

  lemma FewSextets(a: Byte, b: Byte, c: Byte)
    ensures Sextets([a]) == [S0(a), S1(a, 0)] && Sextets([a, b]) == [S0(a), S1(a, b), S2(b, 0)]
    ensures Sextets([a, b, c]) == [S0(a), S1(a, b), S2(b, c), S3(c)]
  {
    hide S0, S1, S2, S3;
    assert [a, b, c][3..] == [];
  }

  /** The byte that one more sextet completes. */
  function Completed(r: seq<Sextet>, c: Sextet): seq<Byte>
    requires |r| < 4
  {
    if |r| == 0 then [] else if |r| == 1 then [B0(r[0], c)] else if |r| == 2 then [B1(r[1], c)] else [B2(r[2], c)]
  }

  /** The high bits of the next byte, left in place by the last sextet. */
  function Pending(r: seq<Sextet>): (b: Byte)
    requires 0 < |r| < 4
  {
    var v: int := r[|r| - 1];
    if |r| == 1 then v * 4 else if |r| == 2 then v % 16 * 16 else v % 4 * 64
  }

  lemma BytesOfFew(a: Sextet, b: Sextet, c: Sextet, d: Sextet)
    ensures Bytes([]) == [] && Bytes([a]) == [] && Bytes([a, b]) == [B0(a, b)]
    ensures Bytes([a, b, c]) == [B0(a, b), B1(b, c)]
    ensures Bytes([a, b, c, d]) == [B0(a, b), B1(b, c), B2(c, d)]
  {
    hide B0, B1, B2;
    assert [a, b, c, d][4..] == [];
  }

  lemma BytesShort(r: seq<Sextet>, c: Sextet)
    requires |r| < 4
    ensures Bytes(r + [c]) == Bytes(r) + Completed(r, c)
  {
    hide Bytes, Completed;
    if |r| < 2 { BytesUpTo2(r, c); } else if |r| == 2 { BytesAt3(r, c); } else { BytesAt4(r, c); }
  }

  lemma BytesUpTo2(r: seq<Sextet>, c: Sextet)
    requires |r| < 2
    ensures Bytes(r + [c]) == Bytes(r) + Completed(r, c)
  {
    hide B0, B1, B2, Bytes;
    if |r| == 0 {
      BytesOfFew(c, 0, 0, 0);
      assert r == [] && r + [c] == [c];
    } else {
      BytesOfFew(r[0], c, 0, 0);
      assert r == [r[0]] && r + [c] == [r[0], c];
    }
  }

  lemma BytesAt3(r: seq<Sextet>, c: Sextet)
    requires |r| == 2
    ensures Bytes(r + [c]) == Bytes(r) + Completed(r, c)
  {
    hide B0, B1, B2, Bytes;
    BytesOfFew(r[0], r[1], c, 0);
    assert r == [r[0], r[1]] && r + [c] == [r[0], r[1], c];
  }

  lemma BytesAt4(r: seq<Sextet>, c: Sextet)
    requires |r| == 3
    ensures Bytes(r + [c]) == Bytes(r) + Completed(r, c)
  {
    hide B0, B1, B2, Bytes;
    BytesOfFew(r[0], r[1], r[2], c);
    assert r == [r[0], r[1], r[2]] && r + [c] == [r[0], r[1], r[2], c];
  }

  lemma BytesSnoc(x: seq<Sextet>, r: seq<Sextet>, c: Sextet)
    requires |x| % 4 == 0 && |r| < 4
    ensures Bytes(x + (r + [c])) == Bytes(x + r) + Completed(r, c)
  {
    hide Bytes, Completed;
    BytesAppend(x, r);
    BytesAppend(x, r + [c]);
    BytesShort(r, c);
    assert Bytes(x) + (Bytes(r) + Completed(r, c)) == Bytes(x) + Bytes(r) + Completed(r, c);
  }

  /** The `switch` of the decoding loop: completes a byte and starts the next one. */
  method DecodeSextet(out: array<Byte>, j: nat, s: nat, c: Sextet, ghost r: seq<Sextet>) returns (j': nat)
    requires |r| == s < 4 && j < out.Length && (s == 1 || s == 2 ==> j + 1 < out.Length) &&
      (s > 0 ==> out[j] == Pending(r))
    modifies out
    ensures j' == j + |Completed(r, c)| && out[..j'] == old(out[..j]) + Completed(r, c)
    ensures s < 3 ==> out[j'] == Pending(r + [c])
    ensures forall k :: j' < k < out.Length ==> out[k] == old(out[k])
    ensures s == 3 ==> forall k :: j' <= k < out.Length ==> out[k] == old(out[k])
  {
    var v: int := c;
    j' := j;
    match s
    case 0 =>
      out[j] := v * 4;
    case 1 =>
      out[j] := out[j] + v / 16;
      j' := j + 1;
      out[j'] := v % 16 * 16;
    case 2 =>
      out[j] := out[j] + v / 4;
      j' := j + 1;
      out[j'] := v % 4 * 64;
    case _ =>
      out[j] := out[j] + v;
      j' := j + 1;
  }

  /** The values of `t` are `v` followed by those from `i` on. */
  ghost predicate Ahead(t: seq<Byte>, i: nat, v: seq<Sextet>)
    requires i <= |t|
  {
    match Values(t[i..])
    case None => Values(t).None?
    case Some(w) => Values(t) == Some(v + w)
  }

  lemma AheadStart(t: seq<Byte>)
    ensures Ahead(t, 0, [])
  {
    assert t[0..] == t;
    if Values(t).Some? { assert [] + Values(t).value == Values(t).value; }
  }

  lemma AheadEnd(t: seq<Byte>, i: nat, v: seq<Sextet>)
    requires i <= |t| && Ahead(t, i, v) && (i == |t| || t[i] == PAD)
    ensures Values(t) == Some(v)
  {
    assert v + [] == v;
  }

  lemma AheadStep(t: seq<Byte>, i: nat, v: seq<Sextet>)
    requires i < |t| && Ahead(t, i, v) && t[i] != PAD
    ensures De(t[i]).None? ==> Values(t).None?
    ensures De(t[i]).Some? ==> Ahead(t, i + 1, v + [De(t[i]).value])
  {
    hide De;
    assert t[i..][1..] == t[i + 1..];
    if De(t[i]).Some? && Values(t[i + 1..]).Some? {
      var c, w := De(t[i]).value, Values(t[i + 1..]).value;
      assert v + ([c] + w) == (v + [c]) + w;
    }
  }

  /**
   * `base64_decode`: nothing for a length that is no multiple of four or a character outside the
   * alphabet, otherwise the whole bytes; it never writes at or past `3 * (length / 4)`.
   */
  method Decode(t: seq<Byte>, out: array<Byte>) returns (j: nat)
    requires out.Length >= 3 * (|t| / 4)
    modifies out
    ensures |t| % 4 != 0 || Values(t).None? ==> j == 0
    ensures |t| % 4 == 0 && Values(t).Some? ==>
      j == |Bytes(Values(t).value)| <= 3 * (|t| / 4) && out[..j] == Bytes(Values(t).value)
    ensures forall k :: 3 * (|t| / 4) <= k < out.Length ==> out[k] == old(out[k])
  {
    if |t| % 4 != 0 {
      return 0;
    }
    hide Values, Bytes, De, Completed, Pending, Ahead;
    NoBytes();
    AheadStart(t);
    j := 0;
    ghost var g, x, r: seq<Sextet> := 0, [], [];
    assert x + r == [];
    ghost var top := |t| / 4;
    var s := 0;
    for i := 0 to |t|
      invariant |x| == 4 * g && |r| == s < 4 && i == 4 * g + s && j == 3 * g + (if s == 0 then 0 else s - 1)
      invariant Ahead(t, i, x + r) && out[..j] == Bytes(x + r)
      invariant s > 0 ==> j < out.Length && out[j] == Pending(r)
      invariant forall k :: 3 * top <= k < out.Length ==> out[k] == old(out[k])
    {
      SizeOf(x + r, g, s);
      if t[i] == PAD {
        AheadEnd(t, i, x + r);
        return;
      }
      AheadStep(t, i, x + r);
      var v := De(t[i]);
      if v.None? {
        return 0;
      }
      var c := v.value;
      WholeSextets(x, g);
      BytesSnoc(x, r, c);
      CompletedSize(r, c);
      assert g < top && x + r + [c] == x + (r + [c]);
      j := DecodeSextet(out, j, s, c, r);
      if s == 3 {
        g, x, r := g + 1, x + (r + [c]), [];
        assert x + [] == x;
        s := 0;
      } else {
        r := r + [c];
        s := s + 1;
      }
    }
    SizeOf(x + r, g, s);
    AheadEnd(t, |t|, x + r);
  }

  lemma NoBytes()
    ensures Bytes([]) == []
  {
  }

  lemma WholeSextets(x: seq<Sextet>, g: nat)
    requires |x| == 4 * g
    ensures |x| % 4 == 0
  {
  }

  lemma CompletedSize(r: seq<Sextet>, c: Sextet)
    requires |r| < 4
    ensures |Completed(r, c)| == if r == [] then 0 else 1
  {
  }

  lemma {:induction false} SizeOf(v: seq<Sextet>, g: nat, s: nat)
    requires |v| == 4 * g + s && s < 4
    ensures |Bytes(v)| == 3 * g + if s == 0 then 0 else s - 1
    decreases g
  {
    if g > 0 { SizeOf(v[4..], g - 1, s); }
  }

  /** Encoding into one buffer and decoding into another returns every byte string. */
  method Transfer(x: seq<Byte>) returns (r: seq<Byte>)
    ensures r == x
  {
    var text := new Byte[4 * ((|x| + 2) / 3) + 1](_ => 0);
    var n := Encode(x, text);
    RoundTrip(x);
    var back := new Byte[3 * (n / 4)](_ => 0);
    var m := Decode(text[..n], back);
    r := back[..m];
  }
}
