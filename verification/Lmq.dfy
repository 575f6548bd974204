/** The light-weight message queue (`nano_lmq.c`): a power-of-two ring against a bounded FIFO. */
module Lmq {
  import opened Bits

  type Msg = nat

  const FULL_OR_EMPTY: int := -8

  /** The allocation for a capacity: the least power of two, from 2 on, that holds it. */
  function AllocFor(cap: nat): (r: nat)
    ensures r >= 2 && r >= cap && IsPow2(r)
    ensures r == 2 || r / 2 < cap
  {
    AllocFrom(2, cap)
  }

  function AllocFrom(a: nat, cap: nat): (r: nat)
    requires a >= 2 && IsPow2(a) && (a == 2 || a / 2 < cap)
    ensures r >= a && r >= cap && IsPow2(r) && (r == 2 || r / 2 < cap)
    decreases cap - a
  {
    if a >= cap then a else AllocFrom(a * 2, cap)
  }

  method RoundUp(cap: nat) returns (alloc: nat)
    ensures alloc == AllocFor(cap)
  {
    alloc := 2;
    while alloc < cap
      invariant alloc >= 2 && IsPow2(alloc) && (alloc == 2 || alloc / 2 < cap)
      invariant AllocFrom(alloc, cap) == AllocFor(cap)
    {
      alloc := alloc * 2;
    }
  }

  function Min(a: nat, b: nat): nat { if a < b then a else b }

  /** The slot `i` places after slot `get` in a ring of `n`. */
  function Slot(get: nat, i: nat, n: nat): (r: nat)
    requires get < n && i <= n
    ensures r < n
  {
    if get + i < n then get + i else get + i - n
  }

  lemma SlotIsModulo(get: nat, i: nat, n: nat)
    requires get < n && i <= n
    ensures Slot(get, i, n) == (get + i) % n
  {
    if get + i < n { ModUnique(get + i, n, 0, get + i); } else { ModUnique(get + i, n, 1, get + i - n); }
  }

  /** The messages in a ring, oldest first. */
  ghost function Window(msgs: seq<Msg>, get: nat, len: nat): (r: seq<Msg>)
    requires get < |msgs| && len <= |msgs|
    ensures |r| == len
  {
    seq(len, i requires 0 <= i < len => msgs[Slot(get, i, |msgs|)])
  }

  class Queue {
    var cap: nat
    var alloc: nat
    var mask: nat
    var len: nat
    var get: nat
    var put: nat
    var msgs: array<Msg>

    /** Everything but the write position. */
    ghost predicate Ring() reads this {
      && alloc == msgs.Length == AllocFor(cap) && mask == alloc - 1
      && len <= cap && get < alloc
    }

    /** The write position is where the next message belongs, inside the ring. */
    ghost predicate Valid() reads this { Ring() && put == Slot(get, len, alloc) }

    ghost function Contents(): seq<Msg> reads this, msgs
      requires Ring()
    {
      Window(msgs[..], get, len)
    }

    /** `nano_lmq_init`. */
    constructor (cap: nat)
      ensures Valid() && Contents() == [] && this.cap == cap && fresh(msgs)
    {
      var a := RoundUp(cap);
      msgs := new Msg[a];
      this.cap, alloc, mask := cap, a, a - 1;
      len, get, put := 0, 0, 0;
    }

    /** `nano_lmq_putq`. A put that is refused looks at no position. */
    method PutQ(m: Msg) returns (rc: int)
      requires Ring() && (len < cap ==> Valid())
      modifies this`len, this`put, msgs
      ensures Ring() && (old(Valid()) ==> Valid()) && (rc != 0 ==> put == old(put))
      ensures rc == if |old(Contents())| < cap then 0 else -8
      ensures Contents() == if rc == 0 then old(Contents()) + [m] else old(Contents())
    {
      if len >= cap {
        return FULL_OR_EMPTY;
      }
      hide AllocFrom;
      ghost var before := msgs[..];
      msgs[put] := m;
      MaskNext(put, alloc);
      put := put + 1;
      len := len + 1;
      put := BitAnd(put, mask);
      RingPut(before, msgs[..], get, len - 1, m);
      return 0;
    }

    /** `nano_lmq_getq`. */
    method GetQ() returns (rc: int, m: Msg)
      requires Ring()
      modifies this`len, this`get
      ensures Ring() && (old(Valid()) ==> Valid())
      ensures rc == if old(Contents()) == [] then -8 else 0
      ensures rc == 0 ==> [m] + Contents() == old(Contents())
      ensures rc != 0 ==> Contents() == []
    {
      if len == 0 {
        return FULL_OR_EMPTY, 0;
      }
      hide AllocFrom, IsPow2, BitAnd;
      m := msgs[get];
      ghost var g := get;
      MaskNext(get, alloc);
      get := get + 1;
      get := BitAnd(get, mask);
      len := len - 1;
      RingGet(msgs[..], g, len);
      rc := 0;
    }

    /** `nano_lmq_flush`. */
    method Flush()
      requires Ring()
      modifies this`len, this`get
      ensures Ring() && Contents() == [] && (old(Valid()) ==> Valid())
    {
      while len > 0
        invariant Ring() && (old(Valid()) ==> Valid())
        decreases len
      {
        var rc, m := GetQ();
      }
    }

    /**
     * `nano_lmq_resize`: keeps the oldest messages that fit. As written (`masked` false) the write
     * position leaves the ring exactly when the new ring is full to its last slot.
     */
    method Resize(cap': nat, masked: bool) returns (rc: int)
      requires Ring()
      modifies this
      ensures rc == 0 && Ring() && fresh(msgs) && cap == cap'
      ensures Contents() == old(Contents())[..Min(|old(Contents())|, cap')]
      ensures !masked ==> put == len
      ensures Valid() <==> masked || Min(|old(Contents())|, cap') < AllocFor(cap')
    {
      hide AllocFor, IsPow2, BitAnd, Window;
      var a := RoundUp(cap');
      var newq := new Msg[a];
      ghost var was := Contents();
      var n := Salvage(newq, cap');
      Flush();
      msgs := newq;
      cap, alloc, mask := cap', a, a - 1;
      len, get := n, 0;
      put := if masked then BitAnd(n, mask) else n;
      MaskIsModulo(n, alloc);
      SlotIsModulo(0, n, alloc);
      WindowFirst(newq[..], n);
      return 0;
    }

    /** The copying loop of `nano_lmq_resize`. */
    method Salvage(newq: array<Msg>, cap': nat) returns (n: nat)
      requires Ring() && newq != msgs && newq.Length >= cap'
      modifies this`len, this`get, newq
      ensures Ring() && n == Min(|old(Contents())|, cap') && newq[..n] == old(Contents())[..n]
    {
      hide AllocFor, IsPow2, Window;
      n := 0;
      ghost var was := Contents();
      var rc := 0;
      while n < cap' && rc == 0
        invariant n <= cap' && Ring()
        invariant newq[..n] + Contents() == was
        invariant rc == 0 || Contents() == []
        decreases cap' - n, if rc == 0 then 1 else 0
      {
        var m;
        rc, m := GetQ();
        if rc == 0 {
          ghost var head := newq[..n];
          newq[n] := m;
          n := n + 1;
          assert newq[..n] == head + [m];
          assert head + ([m] + Contents()) == (head + [m]) + Contents();
        }
      }
      assert was[..n] == newq[..n];
    }
  }

  lemma WindowFirst(msgs: seq<Msg>, n: nat)
    requires 0 < |msgs| && n <= |msgs|
    ensures Window(msgs, 0, n) == msgs[..n]
  {
  }

  lemma MaskNext(x: nat, n: nat)
    requires x < n && IsPow2(n)
    ensures BitAnd(x + 1, n - 1) == Slot(x, 1, n)
  {
    MaskIsModulo(x + 1, n);
    SlotIsModulo(x, 1, n);
  }

  lemma RingPut(before: seq<Msg>, after: seq<Msg>, get: nat, len: nat, m: Msg)
    requires get < |before| && len < |before| && after == before[Slot(get, len, |before|) := m]
    ensures Window(after, get, len + 1) == Window(before, get, len) + [m]
  {
  }

  lemma RingGet(msgs: seq<Msg>, get: nat, len: nat)
    requires get < |msgs| && len < |msgs|
    ensures Window(msgs, get, len + 1) == [msgs[get]] + Window(msgs, Slot(get, 1, |msgs|), len)
  {
  }

  // ----- whole runs -----

  datatype Op = DoPut(m: Msg) | DoGet | DoFlush | DoResize(cap: nat)

  datatype Reply = Code(rc: int) | Got(m: Msg)

  /** A bounded FIFO: a plain sequence and a capacity. */
  datatype Fifo = Fifo(q: seq<Msg>, cap: nat)

  function FifoStep(f: Fifo, op: Op): (Fifo, Reply) {
    match op
    case DoPut(m) => if |f.q| < f.cap then (f.(q := f.q + [m]), Code(0)) else (f, Code(FULL_OR_EMPTY))
    case DoGet => if f.q == [] then (f, Code(FULL_OR_EMPTY)) else (f.(q := f.q[1..]), Got(f.q[0]))
    case DoFlush => (f.(q := []), Code(0))
    case DoResize(c) => (Fifo(f.q[..Min(|f.q|, c)], c), Code(0))
  }

  function FifoRun(f: Fifo, ops: seq<Op>): seq<Reply>
    decreases ops
  {
    if ops == [] then [] else [FifoStep(f, ops[0]).1] + FifoRun(FifoStep(f, ops[0]).0, ops[1..])
  }

  /** A resize to `cap` of a queue that holds `n` messages fills the new ring to its last slot. */
  predicate Fills(n: nat, cap: nat) { Min(n, cap) == AllocFor(cap) }

  /** Whether the write position lies outside the ring after an operation: an unmasked resize decides it anew. */
  function AstrayAfter(f: Fifo, astray: bool, op: Op, masked: bool): bool {
    if op.DoResize? then !masked && Fills(|f.q|, op.cap) else astray
  }

  /** A put is accepted while the write position lies outside the ring. */
  predicate Faults(f: Fifo, astray: bool, op: Op) { astray && op.DoPut? && |f.q| < f.cap }

  /**
   * The first operation of a run that leaves the ring's buffer, as the history of the queue tells: the
   * first accepted put after a filling resize, with no resize between. The length of the run if none does.
   */
  function FirstFault(f: Fifo, astray: bool, ops: seq<Op>, masked: bool): (k: nat)
    ensures k <= |ops|
    decreases ops
  {
    if ops == [] || Faults(f, astray, ops[0]) then 0
    else 1 + FirstFault(FifoStep(f, ops[0]).0, AstrayAfter(f, astray, ops[0], masked), ops[1..], masked)
  }

  /** With the write position masked no run leaves the buffer. */
  lemma {:induction false} MaskedNeverFaults(f: Fifo, ops: seq<Op>)
    ensures FirstFault(f, false, ops, true) == |ops|
    decreases ops
  {
    if ops != [] { MaskedNeverFaults(FifoStep(f, ops[0]).0, ops[1..]); }
  }

  /** As written, neither does a run whose resizes ask for no power of two from 2 on. */
  lemma {:induction false} OddSizesNeverFault(f: Fifo, ops: seq<Op>)
    requires forall i :: 0 <= i < |ops| && ops[i].DoResize? ==> ops[i].cap != AllocFor(ops[i].cap)
    ensures FirstFault(f, false, ops, false) == |ops|
    decreases ops
  {
    hide AllocFor, FifoStep;
    if ops != [] {
      FillsWhole(|f.q|, ops[0]);
      assert forall i :: 0 <= i < |ops[1..]| ==> ops[1..][i] == ops[i + 1];
      OddSizesNeverFault(FifoStep(f, ops[0]).0, ops[1..]);
    }
  }

  lemma FillsWhole(n: nat, op: Op)
    ensures op.DoResize? && Fills(n, op.cap) ==> op.cap == AllocFor(op.cap)
  {
  }

  /** The ring stands for a bounded queue, its write position in place unless astray. */
  ghost predicate Stands(r: Queue, f: Fifo, astray: bool) reads r, r.msgs {
    r.Ring() && f == Fifo(r.Contents(), r.cap) && (if astray then r.put == r.msgs.Length else r.Valid())
  }

  /** One operation on the ring queue that stays in the buffer answers as the FIFO does. */
  method Do(r: Queue, op: Op, masked: bool, ghost f: Fifo, ghost astray: bool) returns (reply: Reply)
    requires Stands(r, f, astray) && !Faults(f, astray, op)
    modifies r, r.msgs
    ensures r.msgs == old(r.msgs) || fresh(r.msgs)
    ensures reply == FifoStep(f, op).1
    ensures Stands(r, FifoStep(f, op).0, AstrayAfter(f, astray, op, masked))
  {
    hide AllocFor, Window;
    match op
    case DoPut(m) =>
      var rc := r.PutQ(m);
      reply := Code(rc);
    case DoGet =>
      var rc, m := r.GetQ();
      reply := if rc == 0 then Got(m) else Code(rc);
    case DoFlush =>
      r.Flush();
      reply := Code(0);
    case DoResize(c) =>
      var rc := r.Resize(c, masked);
      reply := Code(rc);
  }

  /**
   * Every run on a new ring queue, up to a put that would be written at a position outside the ring:
   * it comes there if and only if the history of the queue says so, and answers as the bounded FIFO
   * does until then.
   */
  method Drive(cap: nat, ops: seq<Op>, masked: bool) returns (replies: seq<Reply>, outside: bool)
    ensures outside <==> FirstFault(Fifo([], cap), false, ops, masked) < |ops|
    ensures |replies| == FirstFault(Fifo([], cap), false, ops, masked) <= |FifoRun(Fifo([], cap), ops)| == |ops|
    ensures replies == FifoRun(Fifo([], cap), ops)[..|replies|]
    ensures masked ==> !outside
  {
    hide AllocFor, Window, FifoStep, Faults, AstrayAfter, Stands;
    ghost var f0 := Fifo([], cap);
    RunLength(f0, ops);
    if masked { MaskedNeverFaults(f0, ops); }
    var r := new Queue(cap);
    ghost var f, astray := f0, false;
    StandsNew(r);
    replies := [];
    for i := 0 to |ops|
      invariant fresh(r) && fresh(r.msgs) && Stands(r, f, astray) && |replies| == i
      invariant replies + FifoRun(f, ops[i..]) == FifoRun(f0, ops)
      invariant i + FirstFault(f, astray, ops[i..], masked) == FirstFault(f0, false, ops, masked)
    {
      assert ops[i..][0] == ops[i] && ops[i..][1..] == ops[i + 1..];
      FaultIs(r, f, astray, ops[i]);
      if ops[i].DoPut? && r.len < r.cap && r.put >= r.msgs.Length {
        return replies, true;
      }
      var reply := Do(r, ops[i], masked, f, astray);
      f, astray := FifoStep(f, ops[i]).0, AstrayAfter(f, astray, ops[i], masked);
      assert replies + ([reply] + FifoRun(f, ops[i + 1..])) == (replies + [reply]) + FifoRun(f, ops[i + 1..]);
      replies := replies + [reply];
    }
    outside := false;
  }

  lemma {:induction false} RunLength(f: Fifo, ops: seq<Op>)
    ensures |FifoRun(f, ops)| == |ops|
    decreases ops
  {
    if ops != [] { RunLength(FifoStep(f, ops[0]).0, ops[1..]); }
  }

  lemma StandsNew(r: Queue)
    requires r.Valid() && r.Contents() == []
    ensures Stands(r, Fifo([], r.cap), false)
  {
  }

  /** Looking at the positions tells whether an operation leaves the buffer. */
  lemma FaultIs(r: Queue, f: Fifo, astray: bool, op: Op)
    requires Stands(r, f, astray)
    ensures Faults(f, astray, op) <==> op.DoPut? && r.len < r.cap && r.put >= r.msgs.Length
  {
    hide AllocFor;
  }

  /** As written, filling a ring by resizing leaves a write position outside it, where the next accepted put goes. */
  method FilledRing() returns (r: Queue)
    ensures r.Ring() && r.Contents() == [8] && r.len < r.cap && r.put == r.msgs.Length
  {
    r := new Queue(4);
    var rc := r.PutQ(7);
    rc := r.PutQ(8);
    assert r.Contents() == [7, 8];
    rc := r.Resize(2, false);
    assert AllocFor(2) == 2 && r.Contents() == [7, 8];
    var m;
    rc, m := r.GetQ();
    assert r.Contents() == ([m] + r.Contents())[1..] == [7, 8][1..];
  }

  /** The run of `FilledRing` and the put that ends it, told by the history alone. */
  lemma FilledRun()
    ensures FirstFault(Fifo([], 4), false, [DoPut(7), DoPut(8), DoResize(2), DoGet, DoPut(9)], false) == 4
  {
    assert AllocFor(2) == 2;
    assert [7] + [8] == [7, 8] && [7, 8][..2] == [7, 8] && [7, 8][1..] == [8];
    assert FirstFault(Fifo([8], 2), true, [DoPut(9)], false) == 0;
    assert [DoGet, DoPut(9)][1..] == [DoPut(9)];
    assert FirstFault(Fifo([7, 8], 2), true, [DoGet, DoPut(9)], false) == 1;
    var c := [DoResize(2), DoGet, DoPut(9)];
    assert c[1..] == [DoGet, DoPut(9)] && FifoStep(Fifo([7, 8], 4), c[0]).0 == Fifo([7, 8], 2);
    assert FirstFault(Fifo([7, 8], 4), false, c, false) == 2;
    var b := [DoPut(8)] + c;
    assert b[1..] == c && FifoStep(Fifo([7], 4), b[0]).0 == Fifo([7, 8], 4);
    assert FirstFault(Fifo([7], 4), false, b, false) == 3;
    var a := [DoPut(7)] + b;
    assert a[1..] == b && FifoStep(Fifo([], 4), a[0]).0 == Fifo([7], 4);
    assert a == [DoPut(7), DoPut(8), DoResize(2), DoGet, DoPut(9)];
  }
}
