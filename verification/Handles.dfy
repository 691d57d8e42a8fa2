/** The runtime's tagged handle table, runtime/core/dmc_core.c. */
module Handles {
  import opened Words

  datatype Kind = Nothing | Memory | File | Socket

  datatype Slot = Slot(kind: Kind, value: array?<int>, size: nat)

  const MIN_HANDLES: nat := 16
  const MAX_HANDLES: nat := 1048576

  /** `(dmc_handle)-1`. */
  const FAILED: nat := 0xFFFF_FFFF_FFFF_FFFF

  function EmptySlot(): Slot {
    Slot(Nothing, null, 0)
  }

  /** The capacities the table goes through: 0, then 16 doubled `k` times. */
  function Capacity(k: nat): nat {
    if k == 0 then MIN_HANDLES else 2 * Capacity(k - 1)
  }

  lemma {:induction false} CapacityBound(k: nat)
    requires k <= 16
    ensures MIN_HANDLES <= Capacity(k) <= MAX_HANDLES
    ensures Capacity(k) == MAX_HANDLES <==> k == 16
    decreases 16 - k
  {
    Sixteen();
    AtLeastSixteen(k);
    if k < 16 {
      CapacityBound(k + 1);
    }
  }

  lemma {:induction false} AtLeastSixteen(k: nat)
    ensures MIN_HANDLES <= Capacity(k)
  {
    if k > 0 {
      AtLeastSixteen(k - 1);
    }
  }

  lemma Sixteen()
    ensures Capacity(16) == MAX_HANDLES && Capacity(0) == MIN_HANDLES
  {
    assert Capacity(4) == 256;
    assert Capacity(8) == 4096;
    assert Capacity(12) == 65536;
  }

  class Table {
    var slots: array<Slot>
    var cap: nat
    var used: nat
    ghost var doublings: nat

    ghost predicate Valid()
      reads this, slots
    {
      && slots.Length == cap && used <= cap
      && (cap == 0 || (cap == Capacity(doublings) && doublings <= 16))
      && (forall h :: used <= h < cap ==> slots[h] == EmptySlot())
    }

    /** The table has grown no further than the slots handed out asked for. */
    ghost predicate Tight()
      reads this
    {
      if used == 0 then cap == 0 else doublings > 0 ==> Capacity(doublings - 1) < used
    }

    /** The slots handed out so far; an emptied one keeps its place. */
    ghost function Issued(): seq<Slot>
      reads this, slots
      requires Valid()
    {
      slots[..used]
    }

    constructor ()
      ensures Valid() && Tight() && fresh(slots) && Issued() == []
    {
      slots := new Slot[0];
      cap, used, doublings := 0, 0, 0;
    }

    /** `dmc_ensure_capacity`; `memory` says whether `realloc` succeeds. */
    method EnsureCapacity(wanted: nat, memory: bool) returns (ok: bool)
      requires Valid() && wanted == used + 1
      modifies this
      ensures Valid() && used == old(used) && Issued() == old(Issued())
      ensures slots == old(slots) || fresh(slots)
      ensures ok ==> wanted <= cap
      ensures !ok ==> slots == old(slots) && cap == old(cap)
      ensures ok <==> wanted <= MAX_HANDLES && (memory || wanted <= old(cap))
      ensures old(Tight()) && ok ==> Tight() || doublings == 0 || Capacity(doublings - 1) == used
    {
      var needed := if wanted < MIN_HANDLES then MIN_HANDLES else wanted;
      if needed > MAX_HANDLES {
        return false;
      }
      if cap > 0 {
        CapacityBound(doublings);
      }
      if needed <= cap {
        return true;
      }
      if !memory {
        return false;
      }
      var newCap := if cap > 0 then cap * 2 else MIN_HANDLES;
      if newCap < needed {
        newCap := needed;
      }
      if cap > 0 {
        CapacityBound(doublings + 1);
      }
      if newCap > MAX_HANDLES {
        newCap := MAX_HANDLES;
      }
      Grow(newCap);
      return true;
    }

    method Grow(newCap: nat)
      requires Valid() && cap < newCap
      requires newCap == (if cap == 0 then Capacity(0) else Capacity(doublings + 1)) && (cap > 0 ==> doublings < 16)
      modifies this
      ensures Valid() && used == old(used) && Issued() == old(Issued()) && cap == newCap && fresh(slots)
      ensures doublings == if old(cap) == 0 then 0 else old(doublings) + 1
    {
      var grown := new Slot[newCap](_ => EmptySlot());
      for i := 0 to cap
        invariant unchanged(this) && unchanged(slots)
        invariant forall j :: 0 <= j < i ==> grown[j] == slots[j]
        invariant forall j :: i <= j < newCap ==> grown[j] == EmptySlot()
      {
        grown[i] := slots[i];
      }
      assert grown[..used] == slots[..used];
      doublings := if cap == 0 then 0 else doublings + 1;
      slots := grown;
      cap := newCap;
    }

    /** Handles are the positions 0, 1, 2, ...; none is issued twice. */
    method Reserve(kind: Kind, value: array?<int>, size: nat, memory: bool) returns (h: nat)
      requires Valid()
      modifies this, slots
      ensures Valid() && (slots == old(slots) || fresh(slots))
      ensures h == FAILED || h == |old(Issued())|
      ensures h != FAILED ==> kind != Nothing && Issued() == old(Issued()) + [Slot(kind, value, size)]
      ensures h == FAILED ==> Issued() == old(Issued()) && slots == old(slots) && cap == old(cap)
      ensures h != FAILED <==>
                kind != Nothing && |old(Issued())| < MAX_HANDLES && (memory || |old(Issued())| < old(cap))
      ensures old(Tight()) ==> Tight()
    {
      if kind == Nothing {
        return FAILED;
      }
      var ok := EnsureCapacity(used + 1, memory);
      if !ok {
        return FAILED;
      }
      if cap > 0 {
        CapacityBound(doublings);
      }
      h := used;
      used := used + 1;
      slots[h] := Slot(kind, value, size);
    }

    /** For a kind other than `Nothing`: whether `h` was issued with that kind and not emptied. */
    method Get(h: nat, kind: Kind) returns (found: bool)
      requires Valid()
      ensures kind != Nothing ==> (found <==> h < |Issued()| && Issued()[h].kind == kind)
      ensures kind == Nothing ==> (found <==> h < cap && (h < |Issued()| ==> Issued()[h].kind == Nothing))
    {
      return h < cap && slots[h].kind == kind;
    }

    method Release(h: nat) returns (r: int)
      requires Valid()
      modifies slots
      ensures Valid()
      ensures h < |old(Issued())| && old(Issued())[h].kind != Nothing ==>
                r == 0 && Issued() == old(Issued())[h := EmptySlot()]
      ensures !(h < |old(Issued())| && old(Issued())[h].kind != Nothing) ==>
                r == -1 && Issued() == old(Issued())
    {
      if h >= cap || slots[h].kind == Nothing {
        return -1;
      }
      slots[h] := EmptySlot();
      return 0;
    }
  }

  // ---- Runs ----

  /** `memory` says whether the system would give the table more of it. */
  datatype Op = ReserveOp(kind: Kind, memory: bool) | ReleaseOp(h: nat)

  /** With `used` slots handed out, the table is full and has to grow for the next. */
  predicate NeedsGrowth(used: nat) {
    used == 0 || exists k :: 0 <= k <= 16 && used == Capacity(k)
  }

  /** Whether a reserve succeeds when `used` slots have been handed out. */
  predicate Succeeds(used: nat, kind: Kind, memory: bool) {
    kind != Nothing && used < MAX_HANDLES && (memory || !NeedsGrowth(used))
  }

  /** The kinds of all issued handles after a run. */
  function Kinds(ops: seq<Op>): (ks: seq<Kind>)
    ensures |ks| <= MAX_HANDLES
  {
    if ops == [] then []
    else
      var ks := Kinds(ops[..|ops| - 1]);
      match ops[|ops| - 1]
      case ReserveOp(k, memory) => if Succeeds(|ks|, k, memory) then ks + [k] else ks
      case ReleaseOp(h) => if h < |ks| then ks[h := Nothing] else ks
  }

  function Reserves(ops: seq<Op>): nat {
    if ops == [] then 0
    else Reserves(ops[..|ops| - 1]) +
         (if ops[|ops| - 1].ReserveOp? && ops[|ops| - 1].kind != Nothing then 1 else 0)
  }

  /** Of the proper reserves at most the first 2^20 succeed, and exactly those if memory lasts. */
  lemma {:induction false} ExactlySoManyReserves(ops: seq<Op>)
    ensures |Kinds(ops)| <= if Reserves(ops) < MAX_HANDLES then Reserves(ops) else MAX_HANDLES
    ensures (forall n :: 0 <= n < |ops| && ops[n].ReserveOp? ==> ops[n].memory) ==>
              |Kinds(ops)| == if Reserves(ops) < MAX_HANDLES then Reserves(ops) else MAX_HANDLES
  {
    if ops != [] {
      ExactlySoManyReserves(ops[..|ops| - 1]);
    }
  }

  /** Operation `n` reserved handle `h` with kind `k`. */
  ghost predicate ReservedAt(ops: seq<Op>, n: nat, h: nat, k: Kind) {
    n < |ops| && ops[n].ReserveOp? && ops[n].kind == k && |Kinds(ops[..n])| == h && Succeeds(h, k, ops[n].memory)
  }

  ghost predicate ReleasedAfter(ops: seq<Op>, n: nat, h: nat) {
    exists m :: n < m < |ops| && ops[m] == ReleaseOp(h)
  }

  /** Over every run a handle has kind `k` exactly when it was reserved with that kind and has
      not been released since. */
  lemma {:induction false} LiveSinceReserved(ops: seq<Op>, h: nat, k: Kind)
    requires k != Nothing
    ensures h < |Kinds(ops)| && Kinds(ops)[h] == k <==>
            exists n :: ReservedAt(ops, n, h, k) && !ReleasedAfter(ops, n, h)
  {
    if ops != [] {
      var init, last := ops[..|ops| - 1], |ops| - 1;
      LiveSinceReserved(init, h, k);
      forall n: nat | n < last
        ensures ReservedAt(ops, n, h, k) <==> ReservedAt(init, n, h, k)
        ensures ReleasedAfter(ops, n, h) <==> ReleasedAfter(init, n, h) || ops[last] == ReleaseOp(h)
      {
        assert ops[..n] == init[..n];
        EarlierRelease(ops, n, h);
      }
      assert ops[..last] == init && !ReleasedAfter(ops, last, h);
      if exists n: nat :: ReservedAt(init, n, h, k) && !ReleasedAfter(init, n, h) {
        var n: nat :| ReservedAt(init, n, h, k) && !ReleasedAfter(init, n, h);
        assert ReservedAt(ops, n, h, k);
      }
      assert ReservedAt(ops, last, h, k) <==>
             ops[last].ReserveOp? && ops[last].kind == k && |Kinds(init)| == h && Succeeds(h, k, ops[last].memory);
    }
  }

  lemma EarlierRelease(ops: seq<Op>, n: nat, h: nat)
    requires n + 1 < |ops|
    ensures ReleasedAfter(ops, n, h) <==>
            ReleasedAfter(ops[..|ops| - 1], n, h) || ops[|ops| - 1] == ReleaseOp(h)
  {
    var init := ops[..|ops| - 1];
    if ReleasedAfter(init, n, h) {
      var m :| n < m < |init| && init[m] == ReleaseOp(h);
      assert ops[m] == ReleaseOp(h);
    }
  }

  function KindsOf(slots: seq<Slot>): seq<Kind> {
    seq(|slots|, i requires 0 <= i < |slots| => slots[i].kind)
  }

  lemma {:induction false} CapacityGrows(j: nat, k: nat)
    requires j < k
    ensures Capacity(j) < Capacity(k)
    decreases k
  {
    if j < k - 1 {
      CapacityGrows(j, k - 1);
    }
    AtLeastSixteen(k - 1);
  }

  /** A tight table is full exactly at the sizes where it has to grow. */
  lemma FullAtCapacities(used: nat, cap: nat, d: nat)
    requires used <= cap && (if used == 0 then cap == 0 else cap == Capacity(d) && d <= 16)
    requires used > 0 && d > 0 ==> Capacity(d - 1) < used
    ensures used == cap <==> NeedsGrowth(used)
  {
    if used > 0 && NeedsGrowth(used) {
      var k :| 0 <= k <= 16 && used == Capacity(k);
      if k < d - 1 {
        CapacityGrows(k, d - 1);
      } else if d < k {
        CapacityGrows(d, k);
      }
    }
  }

  /** The table itself runs so, across all its growths and failures to grow. */
  method Replay(ops: seq<Op>) returns (t: Table)
    ensures t.Valid() && KindsOf(t.Issued()) == Kinds(ops)
  {
    t := new Table();
    for n := 0 to |ops|
      invariant fresh(t) && fresh(t.slots) && t.Valid() && t.Tight() && KindsOf(t.Issued()) == Kinds(ops[..n])
    {
      assert ops[..n + 1][..n] == ops[..n];
      FullAtCapacities(t.used, t.cap, t.doublings);
      match ops[n]
      case ReserveOp(k, memory) => var _ := t.Reserve(k, null, 0, memory);
      case ReleaseOp(h) => var _ := t.Release(h);
    }
    assert ops[..|ops|] == ops;
  }
}
