/** The emitted growable vector: capacity 0, then 4, then doubled whenever it is full. */
module Vector {
  import opened Words

  function Pow2(k: nat): nat {
    if k == 0 then 1 else 2 * Pow2(k - 1)
  }

  class Vector {
    var data: array<int>
    var len: nat
    var cap: nat
    /** Elements copied by all reallocations so far. */
    ghost var copied: nat
    ghost var doublings: nat

    ghost predicate Valid()
      reads this, data
    {
      && data.Length == cap && len <= cap
      && (forall i :: 0 <= i < len ==> MIN <= data[i] <= MAX)
      && (cap == 0 ==> copied == 0)
      && (cap > 0 ==> cap == 4 * Pow2(doublings) && copied + 4 == cap && len > 0 && (cap == 4 || cap < 2 * len))
    }

    ghost function Contents(): seq<int>
      reads this, data
      requires Valid()
    {
      data[..len]
    }

    /** `vec_new`: a zeroed structure; the empty array stands for the null pointer. */
    constructor ()
      ensures Valid() && fresh(data) && Contents() == []
    {
      data := new int[0];
      len, cap, copied, doublings := 0, 0, 0, 0;
    }

    /** `realloc`: a larger block that begins with the old elements. */
    method Realloc(size: nat)
      requires Valid() && cap < size
      modifies this`data, this`copied
      ensures fresh(data) && data.Length == size && data[..cap] == old(data[..])
      ensures copied == old(copied) + cap
    {
      var grown := new int[size];
      for i := 0 to cap
        invariant data == old(data) && copied == old(copied) && data[..] == old(data[..]) && grown[..i] == data[..i]
      {
        grown[i] := data[i];
      }
      assert data[..cap] == data[..] && grown[..cap] == data[..];
      data := grown;
      copied := copied + cap;
    }

    method Push(x: Int64)
      requires Valid()
      modifies this, data
      ensures Valid() && (data == old(data) || fresh(data))
      ensures Contents() == old(Contents()) + [x]
    {
      if len == cap {
        var newCap := if cap > 0 then cap * 2 else 4;
        Realloc(newCap);
        doublings := if cap > 0 then doublings + 1 else 0;
        cap := newCap;
      }
      data[len] := x;
      len := len + 1;
    }

    /** The element, cast to `int`; -1 outside the vector. */
    method Get(i: Int64) returns (r: int)
      requires Valid()
      ensures r == if 0 <= i < |Contents()| then ToInt32(Contents()[i]) else -1
    {
      return if i < 0 || i >= len then -1 else ToInt32(data[i]);
    }

    method Set(i: Int64, x: Int64) returns (r: int)
      requires Valid()
      modifies data
      ensures Valid()
      ensures 0 <= i < |old(Contents())| ==> r == 0 && Contents() == old(Contents())[i := x]
      ensures !(0 <= i < |old(Contents())|) ==> r == -1 && Contents() == old(Contents())
    {
      if i < 0 || i >= len {
        return -1;
      }
      data[i] := x;
      return 0;
    }
  }

  // ---- Runs ----

  datatype Op = PushOp(x: Int64) | SetOp(i: Int64, x: Int64) | GetOp(i: Int64)

  /** The mathematical sequence after a run. */
  function Run(ops: seq<Op>): (s: seq<int>)
  {
    if ops == [] then []
    else
      var s := Run(ops[..|ops| - 1]);
      match ops[|ops| - 1]
      case PushOp(x) => s + [x]
      case SetOp(i, x) => if 0 <= i < |s| then s[i := x] else s
      case GetOp(_) => s
  }

  function Pushes(ops: seq<Op>): nat {
    if ops == [] then 0 else Pushes(ops[..|ops| - 1]) + (if ops[|ops| - 1].PushOp? then 1 else 0)
  }

  lemma {:induction false} LengthIsPushes(ops: seq<Op>)
    ensures |Run(ops)| == Pushes(ops)
  {
    if ops != [] {
      LengthIsPushes(ops[..|ops| - 1]);
    }
  }

  /** Over every run the vector holds the mathematical sequence, the capacity is 0 or four times
      a power of two, and `n` pushes copy fewer than `2n` elements. */
  method Replay(ops: seq<Op>) returns (v: Vector)
    ensures v.Valid() && v.Contents() == Run(ops)
    ensures v.cap == 0 || exists k :: v.cap == 4 * Pow2(k)
    ensures Pushes(ops) > 0 ==> v.copied < 2 * Pushes(ops)
    ensures Pushes(ops) == 0 ==> v.copied == 0
  {
    v := new Vector();
    for n := 0 to |ops|
      invariant fresh(v) && fresh(v.data) && v.Valid() && v.Contents() == Run(ops[..n])
    {
      assert ops[..n + 1][..n] == ops[..n];
      match ops[n]
      case PushOp(x) => v.Push(x);
      case SetOp(i, x) => var _ := v.Set(i, x);
      case GetOp(i) => var _ := v.Get(i);
    }
    assert ops[..|ops|] == ops;
    LengthIsPushes(ops);
  }
}
