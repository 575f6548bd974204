/** The packet codec (`packet_parser.c`): variable-length and fixed-width integers in a buffer. */
module Packet {
  import opened Bits
  import opened Octets

  const TWO32: int := 0x1_0000_0000

  type Uint32 = x: int | 0 <= x < TWO32

  /** The variable-length form: seven bits a byte, low ones first, the top bit set on all but the last. */
  function VarBytes(n: nat): (r: seq<Byte>)
    ensures |r| >= 1
  {
    if n < 128 then [n] else [128 + n % 128] + VarBytes(n / 128)
  }

  lemma VarUnfold(n: nat)
    ensures VarBytes(n) == if n / 128 > 0 then [128 + n % 128] + VarBytes(n / 128) else [n % 128]
  {
  }

  lemma VarLength(n: Uint32)
    ensures |VarBytes(n)| ==
      if n < 0x80 then 1 else if n < 0x4000 then 2 else if n < 0x20_0000 then 3 else if n < 0x1000_0000 then 4 else 5
  {
    assert n >= 0x80 ==> |VarBytes(n)| == 1 + |VarBytes(n / 128)|;
    assert n >= 0x4000 ==> |VarBytes(n / 128)| == 1 + |VarBytes(n / 0x4000)|;
    assert n >= 0x20_0000 ==> |VarBytes(n / 0x4000)| == 1 + |VarBytes(n / 0x20_0000)|;
    assert n >= 0x1000_0000 ==> |VarBytes(n / 0x20_0000)| == 1 + |VarBytes(n / 0x1000_0000)|;
  }

  /** The number that the low seven bits of the bytes stand for, the first byte being the lowest. */
  function LowFirst(s: seq<Byte>): nat { if s == [] then 0 else s[0] % 128 + 128 * LowFirst(s[1..]) }

  /** The form holds the number, and only its last byte lacks the top bit. */
  lemma {:induction false} VarHolds(n: nat)
    ensures
      var b := VarBytes(n);
      LowFirst(b) == n && b[|b| - 1] < 128 && forall i :: 0 <= i < |b| - 1 ==> b[i] >= 128
  {
    if n >= 128 {
      VarHolds(n / 128);
      assert VarBytes(n)[1..] == VarBytes(n / 128);
    }
  }

  /** The example of section 2.2.3 of MQTT 3.1.1: 321 is 65 and twice 128. */
  lemma VarExample()
    ensures VarBytes(321) == [193, 2]
  {
  }

  /** Reading stops at a byte without the top bit, or after `left + 1` bytes, and needs bytes until then. */
  predicate Ends(s: seq<Byte>, left: nat) {
    s != [] && (left == 0 || s[0] < 128 || Ends(s[1..], left - 1))
  }

  /** What `packet_parse_var` computes in 32-bit arithmetic, and how many bytes it takes. */
  function ReadVar(s: seq<Byte>, left: nat, mult: Uint32, res: Uint32): (r: (Uint32, nat))
    requires Ends(s, left)
    ensures 1 <= r.1 <= |s| && r.1 <= left + 1
  {
    var res' := (res + (s[0] % 128) * mult) % TWO32;
    if left > 0 && s[0] >= 128 then
      var t := ReadVar(s[1..], left - 1, (mult * 128) % TWO32, res');
      (t.0, t.1 + 1)
    else (res', 1)
  }

  lemma Wraps(a: int, k: int)
    ensures (a + k * TWO32) % TWO32 == a % TWO32
  {
  }

  lemma WrapStep(res: nat, d: nat, mult: nat, rest: nat)
    ensures ((res + d * mult) % TWO32 + ((mult * 128) % TWO32) * rest) % TWO32 ==
            (res + mult * (d + 128 * rest)) % TWO32
  {
    var x, y := res + d * mult, mult * 128;
    var p, q := x / TWO32, y / TWO32;
    var a := x % TWO32 + (y % TWO32) * rest;
    assert x == x % TWO32 + p * TWO32 && y == y % TWO32 + q * TWO32;
    assert x + y * rest == a + (p + q * rest) * TWO32 by {
      assert y * rest == (y % TWO32) * rest + (q * TWO32) * rest;
      assert (q * TWO32) * rest == (q * rest) * TWO32;
    }
    assert mult * (d + 128 * rest) == d * mult + y * rest by {
      assert mult * (128 * rest) == (mult * 128) * rest;
    }
    Wraps(a, p + q * rest);
  }

  /** What is read of any bytes is the number they stand for, in 32-bit arithmetic. */
  lemma {:induction false} ReadIs(s: seq<Byte>, left: nat, mult: Uint32, res: Uint32)
    requires Ends(s, left)
    ensures
      var r := ReadVar(s, left, mult, res);
      r.0 == (res + mult * LowFirst(s[..r.1])) % TWO32
    decreases left
  {
    var r, d := ReadVar(s, left, mult, res), s[0] % 128;
    if left > 0 && s[0] >= 128 {
      var m, res' := (mult * 128) % TWO32, (res + d * mult) % TWO32;
      ReadIs(s[1..], left - 1, m, res');
      var t := s[1..][..r.1 - 1];
      assert s[..r.1] == [s[0]] + t && s[..r.1][1..] == t;
      WrapStep(res, d, mult, LowFirst(t));
    } else {
      assert s[..1] == [s[0]] && s[..1][1..] == [];
      assert LowFirst(s[..1]) == d;
    }
  }

  lemma ReadStep(s: seq<Byte>, left: nat, mult: Uint32, res: Uint32, d: nat, dm: nat)
    requires s != [] && left > 0 && d < 128 && s[0] == 128 + d && Ends(s[1..], left - 1)
    requires dm == d * mult && res + dm < TWO32 && mult * 128 < TWO32
    ensures Ends(s, left)
    ensures
      var t := ReadVar(s[1..], left - 1, mult * 128, res + dm);
      ReadVar(s, left, mult, res) == (t.0, t.1 + 1)
  {
    assert (s[0] % 128) * mult == dm by { assert s[0] % 128 == d; }
    assert (res + dm) % TWO32 == res + dm && (mult * 128) % TWO32 == mult * 128;
  }

  lemma ReadLast(s: seq<Byte>, left: nat, mult: Uint32, res: Uint32, d: nat)
    requires s != [] && d < 128 && s[0] == d && res + d * mult < TWO32
    ensures Ends(s, left) && ReadVar(s, left, mult, res) == (res + d * mult, 1)
  {
    assert s[0] % 128 == d;
  }

  lemma SumStep(n: nat, d: nat, q: nat, mult: nat, res: nat)
    requires n == 128 * q + d && q >= 1 && res + n * mult < TWO32
    ensures res + d * mult < TWO32 && mult * 128 < TWO32
    ensures (res + d * mult) + q * (mult * 128) == res + n * mult
  {
    var a, b := d * mult, q * (mult * 128);
    assert n * mult == a + b by {
      assert (128 * q) * mult == q * (mult * 128);
      assert (128 * q + d) * mult == (128 * q) * mult + d * mult;
    }
    assert b >= mult * 128 by { assert (q - 1) * (mult * 128) >= 0; }
  }

  /** Whatever is written is read back, whatever follows it. */
  lemma {:induction false} ReadWritten(n: nat, rest: seq<Byte>, left: nat, mult: Uint32, res: Uint32)
    requires |VarBytes(n)| <= left + 1 && res + n * mult < TWO32
    ensures Ends(VarBytes(n) + rest, left)
    ensures ReadVar(VarBytes(n) + rest, left, mult, res) == (res + n * mult, |VarBytes(n)|)
    decreases n
  {
    hide ReadVar;
    var s := VarBytes(n) + rest;
    if n < 128 {
      ReadLast(s, left, mult, res, n);
    } else {
      var d, q := n % 128, n / 128;
      assert s[1..] == VarBytes(q) + rest && s[0] == 128 + d;
      SumStep(n, d, q, mult, res);
      ReadWritten(q, rest, left - 1, mult * 128, res + d * mult);
      ReadStep(s, left, mult, res, d, d * mult);
    }
  }

  function WriteAll(vs: seq<Uint32>): seq<Byte> {
    if vs == [] then [] else VarBytes(vs[0]) + WriteAll(vs[1..])
  }

  /** Integers written back to back are read back one by one. */
  lemma ReadFirst(vs: seq<Uint32>, rest: seq<Byte>)
    requires vs != []
    ensures Ends(WriteAll(vs) + rest, 4)
    ensures ReadVar(WriteAll(vs) + rest, 4, 1, 0) == (vs[0], |VarBytes(vs[0])|)
    ensures (WriteAll(vs) + rest)[|VarBytes(vs[0])|..] == WriteAll(vs[1..]) + rest
  {
    VarLength(vs[0]);
    assert WriteAll(vs) + rest == VarBytes(vs[0]) + (WriteAll(vs[1..]) + rest);
    ReadWritten(vs[0], WriteAll(vs[1..]) + rest, 4, 1, 0);
  }

  /** Big-endian, four bytes. */
  function Be32(n: Uint32): seq<Byte> {
    [n / 0x100_0000, n / 0x1_0000 % 256, n / 0x100 % 256, n % 256]
  }

  function Value32(s: seq<Byte>): Uint32
    requires |s| == 4
  {
    var a: int, b: int, c: int, d: int := s[0], s[1], s[2], s[3];
    a * 0x100_0000 + b * 0x1_0000 + c * 0x100 + d
  }

  /** The highest byte comes first, as in network order. */
  lemma Be32Number(n: Uint32)
    ensures |Be32(n)| == 4 && Number256(Be32(n)) == n
  {
    ValueNumber(Be32(n));
    Be32RoundTrip(n);
  }

  lemma ValueNumber(s: seq<Byte>)
    requires |s| == 4
    ensures Value32(s) == Number256(s)
  {
    assert s == [] + [s[0]] + [s[1]] + [s[2]] + [s[3]];
    Snoc256([], s[0]);
    Snoc256([] + [s[0]], s[1]);
    Snoc256([] + [s[0]] + [s[1]], s[2]);
    Snoc256([] + [s[0]] + [s[1]] + [s[2]], s[3]);
  }

  lemma Be32RoundTrip(n: Uint32)
    ensures Value32(Be32(n)) == n
  {
    var a := n / 256;
    var b := a / 256;
    assert n / 0x1_0000 == b && n / 0x100_0000 == b / 256;
    assert n == a * 256 + n % 256 && a == b * 256 + a % 256 && b == (b / 256) * 256 + b % 256;
  }

  /** A buffer with a cursor; `binary.Length` is the remaining length the packet was made with. */
  class Buffer {
    const binary: array<Byte>
    var pos: nat

    constructor (size: nat)
      ensures fresh(binary) && binary.Length == size && pos == 0
    {
      binary := new Byte[size](_ => 0);
      pos := 0;
    }

    /** `packet_write_var`. */
    method WriteVar(input: Uint32)
      requires pos + |VarBytes(input)| <= binary.Length
      modifies this`pos, binary
      ensures pos == old(pos) + |VarBytes(input)| && binary[old(pos)..pos] == VarBytes(input)
      ensures forall i :: 0 <= i < binary.Length && !(old(pos) <= i < pos) ==> binary[i] == old(binary[i])
    {
      hide VarBytes;
      var n: nat := input;
      ghost var p := pos;
      while true
        invariant p <= pos && pos + |VarBytes(n)| == p + |VarBytes(input)|
        invariant binary[p..pos] + VarBytes(n) == VarBytes(input)
        invariant forall i :: 0 <= i < binary.Length && !(p <= i < pos) ==> binary[i] == old(binary[i])
        decreases n
      {
        VarUnfold(n);
        ghost var head, tail := binary[p..pos], VarBytes(n / 128);
        var byte := n % 128;
        n := n / 128;
        if n > 0 { byte := byte + 128; }
        binary[pos] := byte;
        pos := pos + 1;
        assert binary[p..pos] == head + [byte];
        assert head + ([byte] + tail) == (head + [byte]) + tail;
        if n == 0 { break; }
      }
    }

    /** `packet_parse_var`: at most five bytes. */
    method ParseVar() returns (res: Uint32)
      requires pos <= binary.Length && Ends(binary[pos..], 4)
      modifies this`pos
      ensures (res, pos - old(pos)) == ReadVar(binary[old(pos)..], 4, 1, 0)
    {
      var i := 4;
      var multiplier: Uint32 := 1;
      res := 0;
      ghost var taken := 0;
      while true
        invariant 0 <= i <= 4 && old(pos) <= pos <= binary.Length && taken == pos - old(pos)
        invariant Ends(binary[pos..], i)
        invariant
          var t := ReadVar(binary[pos..], i, multiplier, res);
          (t.0, t.1 + taken) == ReadVar(binary[old(pos)..], 4, 1, 0)
        decreases i
      {
        var byte := binary[pos];
        assert binary[pos..][0] == byte && binary[pos..][1..] == binary[pos + 1..];
        pos := pos + 1;
        taken := taken + 1;
        res := (res + (byte % 128) * multiplier) % TWO32;
        multiplier := (multiplier * 128) % TWO32;
        var more := i > 0;
        if more && byte >= 128 { i := i - 1; } else { break; }
      }
    }

    /** `packet_write_uint32`. */
    method WriteUint32(input: Uint32)
      requires pos + 4 <= binary.Length
      modifies this`pos, binary
      ensures pos == old(pos) + 4 && binary[old(pos)..pos] == Be32(input)
      ensures forall i :: 0 <= i < binary.Length && !(old(pos) <= i < pos) ==> binary[i] == old(binary[i])
    {
      binary[pos] := input / 0x100_0000;
      binary[pos + 1] := input / 0x1_0000 % 256;
      binary[pos + 2] := input / 0x100 % 256;
      binary[pos + 3] := input % 256;
      pos := pos + 4;
    }

    /** `packet_parse_uint32`: the loop looks at the value read so far, yet always takes four bytes. */
    method ParseUint32() returns (res: Uint32)
      requires pos + 4 <= binary.Length
      modifies this`pos
      ensures pos == old(pos) + 4 && res == Value32(binary[old(pos)..old(pos) + 4])
    {
      hide BitAnd, Prefix32;
      ghost var b := binary[pos..pos + 4];
      ghost var p := pos;
      Start32(b);
      res := binary[pos];
      pos := pos + 1;
      if res != 0 {
        Clear32(b, 1);
        while BitAnd(res, 0xFF00_0000) == 0
          invariant p < pos <= p + 4
          invariant res == Prefix32(b, pos - p) && b[0] > 0
          invariant BitAnd(res, 0xFF00_0000) == 0 <==> pos < p + 4
          decreases p + 4 - pos
        {
          Step32(b, pos - p);
          Clear32(b, pos - p + 1);
          assert binary[pos] == b[pos - p];
          res := (res * 256) % TWO32 + binary[pos];
          pos := pos + 1;
        }
      } else {
        var i := 4 - 1;
        while i > 0
          invariant 0 <= i <= 3 && pos == p + 4 - i && res == Prefix32(b, pos - p)
        {
          Step32(b, pos - p);
          assert binary[pos] == b[pos - p];
          res := (res * 256) % TWO32 + binary[pos];
          pos := pos + 1;
          i := i - 1;
        }
      }
    }
  }

  /** The value of the first `k` of four bytes. */
  function Prefix32(b: seq<Byte>, k: nat): nat
    requires |b| == 4 && 1 <= k <= 4
  {
    var w: int, x: int, y: int, z: int := b[0], b[1], b[2], b[3];
    if k == 1 then w
    else if k == 2 then w * 256 + x
    else if k == 3 then (w * 256 + x) * 256 + y
    else ((w * 256 + x) * 256 + y) * 256 + z
  }

  lemma Start32(b: seq<Byte>)
    requires |b| == 4
    ensures Prefix32(b, 1) == b[0] && Prefix32(b, 4) == Value32(b)
  {
  }

  lemma Step32(b: seq<Byte>, k: nat)
    requires |b| == 4 && 1 <= k < 4
    ensures Prefix32(b, k) * 256 < TWO32
    ensures Prefix32(b, k + 1) == (Prefix32(b, k) * 256) % TWO32 + b[k] < TWO32
  {
    assert Prefix32(b, k) < 0x100_0000;
    assert Prefix32(b, k + 1) == Prefix32(b, k) * 256 + b[k];
  }

  /** The top byte fills up with the fourth byte and not before, unless the first one was zero. */
  lemma Clear32(b: seq<Byte>, k: nat)
    requires |b| == 4 && 1 <= k <= 4 && b[0] > 0
    ensures BitAnd(Prefix32(b, k), 0xFF00_0000) == 0 <==> k < 4
  {
    hide BitAnd;
    TopByteClear(Prefix32(b, k));
  }

  /** Every 32-bit integer survives the fixed-width form. */
  method ExchangeWord(n: Uint32) returns (r: Uint32)
    ensures r == n
  {
    var b := new Buffer(4);
    b.WriteUint32(n);
    b.pos := 0;
    r := b.ParseUint32();
    Be32RoundTrip(n);
  }

  method WriteSeq(b: Buffer, vs: seq<Uint32>)
    requires b.pos == 0 && b.binary.Length == |WriteAll(vs)|
    modifies b, b.binary
    ensures b.binary[..] == WriteAll(vs)
  {
    hide VarBytes;
    for i := 0 to |vs|
      invariant b.pos + |WriteAll(vs[i..])| == b.binary.Length
      invariant b.binary[..b.pos] + WriteAll(vs[i..]) == WriteAll(vs)
    {
      assert vs[i..][1..] == vs[i + 1..];
      ghost var p, head := b.pos, b.binary[..b.pos];
      b.WriteVar(vs[i]);
      assert b.binary[..p] == head && b.binary[..b.pos] == b.binary[..p] + b.binary[p..b.pos];
      assert head + (VarBytes(vs[i]) + WriteAll(vs[i + 1..])) == (head + VarBytes(vs[i])) + WriteAll(vs[i + 1..]);
    }
    assert b.binary[..] == b.binary[..b.pos] + [];
  }

  method ParseSeq(b: Buffer, ghost vs: seq<Uint32>, n: nat) returns (r: seq<Uint32>)
    requires b.pos == 0 && n == |vs| && b.binary[..] == WriteAll(vs)
    modifies b
    ensures r == vs
  {
    hide VarBytes, ReadVar, Ends;
    r := [];
    assert b.binary[0..] == b.binary[..] && vs[0..] == vs;
    for i := 0 to n
      invariant b.pos <= b.binary.Length && b.binary[b.pos..] == WriteAll(vs[i..]) && r == vs[..i]
    {
      ghost var rest := vs[i..];
      assert rest[0] == vs[i] && rest[1..] == vs[i + 1..];
      assert WriteAll(rest) + [] == WriteAll(rest) && WriteAll(rest[1..]) + [] == WriteAll(rest[1..]);
      ReadFirst(rest, []);
      ghost var p := b.pos;
      var v := b.ParseVar();
      assert b.binary[b.pos..] == b.binary[p..][b.pos - p..];
      r := r + [v];
    }
  }

  /** Every sequence of 32-bit integers survives being written and parsed back to back. */
  method Exchange(vs: seq<Uint32>) returns (r: seq<Uint32>)
    ensures r == vs
  {
    var b := new Buffer(|WriteAll(vs)|);
    WriteSeq(b, vs);
    b.pos := 0;
    r := ParseSeq(b, vs, |vs|);
  }
}
