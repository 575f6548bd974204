module Octets {
  type Byte = x: int | 0 <= x < 256

  /** The number that bytes stand for in base 256, the first one being the highest. */
  function Number256(x: seq<Byte>): nat { if x == [] then 0 else Number256(x[..|x| - 1]) * 256 + x[|x| - 1] }

  lemma Snoc256(x: seq<Byte>, d: Byte)
    ensures Number256(x + [d]) == Number256(x) * 256 + d
  {
    assert (x + [d])[..|x|] == x;
  }
}

/** Bitwise operations on natural numbers. */
module Bits {

  /** Bitwise and, digit by digit. */
  function BitAnd(a: nat, b: nat): nat
    decreases a
  {
    if a == 0 || b == 0 then 0
    else (if a % 2 == 1 && b % 2 == 1 then 1 else 0) + 2 * BitAnd(a / 2, b / 2)
  }

  predicate IsPow2(n: nat) { n == 1 || (n > 1 && n % 2 == 0 && IsPow2(n / 2)) }

  /** Masking with a power of two less one is reduction modulo it. */
  lemma {:induction false} MaskIsModulo(x: nat, n: nat)
    requires IsPow2(n)
    ensures BitAnd(x, n - 1) == x % n
    decreases n
  {
    if n > 1 {
      MaskIsModulo(x / 2, n / 2);
      MaskStep(x, n / 2);
    }
  }

  lemma MaskStep(x: nat, h: nat)
    requires h > 0 && BitAnd(x / 2, h - 1) == (x / 2) % h
    ensures BitAnd(x, 2 * h - 1) == x % (2 * h)
  {
    if x == 0 {
      ModUnique(0, 2 * h, 0, 0);
    } else {
      BitAndStep(x, h);
      ModDouble(x, h);
    }
  }

  lemma BitAndStep(x: nat, h: nat)
    requires x > 0 && h > 0
    ensures BitAnd(x, 2 * h - 1) == x % 2 + 2 * BitAnd(x / 2, h - 1)
  {
    assert (2 * h - 1) % 2 == 1 && (2 * h - 1) / 2 == h - 1;
  }

  lemma ModDouble(x: nat, h: nat)
    requires h > 0
    ensures x % (2 * h) == x % 2 + 2 * ((x / 2) % h)
  {
    var y := x / 2;
    var q, r := y / h, y % h;
    assert x == 2 * y + x % 2 && y == h * q + r;
    assert x == (2 * h) * q + (2 * r + x % 2) by { assert 2 * (h * q) == (2 * h) * q; }
    assert 0 <= 2 * r + x % 2 < 2 * h;
    ModUnique(x, 2 * h, q, 2 * r + x % 2);
  }

  lemma ModUnique(x: nat, d: nat, q: nat, r: nat)
    requires d > 0 && x == d * q + r && r < d
    ensures x % d == r
  {
    var q', r' := x / d, x % d;
    assert x == d * q' + r';
    assert r - r' == d * (q' - q);
    var e := q' - q;
    assert e >= 1 ==> d * e >= d;
    assert e <= -1 ==> d * e + d <= 0;
  }

  /** A mask with a clear last bit ignores the last bit. */
  lemma MaskShift(a: nat, b: nat)
    ensures BitAnd(a, 2 * b) == 2 * BitAnd(a / 2, b)
  {
    assert (2 * b) % 2 == 0 && (2 * b) / 2 == b;
    if a == 1 { assert BitAnd(0, b) == 0; }
  }

  lemma MaskShift2(a: nat, b: nat)
    ensures BitAnd(a, 4 * b) == 4 * BitAnd(a / 4, b)
  {
    hide BitAnd;
    var c := 2 * b;
    MaskShift(a, c);
    MaskShift(a / 2, b);
    assert 4 * b == 2 * c && a / 2 / 2 == a / 4;
  }

  lemma MaskShift4(a: nat, b: nat)
    ensures BitAnd(a, 16 * b) == 16 * BitAnd(a / 16, b)
  {
    hide BitAnd;
    var c := 4 * b;
    MaskShift2(a, c);
    MaskShift2(a / 4, b);
    assert 16 * b == 4 * c && a / 4 / 4 == a / 16;
  }

  lemma MaskShift8(a: nat, b: nat)
    ensures BitAnd(a, 256 * b) == 256 * BitAnd(a / 256, b)
  {
    hide BitAnd;
    var c := 16 * b;
    MaskShift4(a, c);
    MaskShift4(a / 16, b);
    assert 256 * b == 16 * c && a / 16 / 16 == a / 256;
  }

  /** The test for a zero top byte of a 32-bit number. */
  lemma TopByteClear(x: nat)
    requires x < 0x1_0000_0000
    ensures BitAnd(x, 0xFF00_0000) == 0 <==> x < 0x100_0000
  {
    hide BitAnd;
    MaskShift8(x, 0xFF_0000);
    MaskShift8(x / 0x100, 0xFF00);
    MaskShift8(x / 0x1_0000, 0xFF);
    MaskIsModulo(x / 0x100_0000, 256);
  }
}
