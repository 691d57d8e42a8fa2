/** The emitted ring queue. Its growth branch enlarges the block without moving the elements
    that wrapped around, so it is first-in first-out only as long as a full ring is not pushed to. */
module Queue {
  import opened Words

  /** The structure's fields; the capacity is the length of `data`. */
  datatype Ring = Ring(data: seq<int>, len: nat, head: nat, tail: nat)

  const EMPTY := Ring([], 0, 0, 0)

  /** `(h + i) % n`, for an offset of at most one turn. */
  function Slot(h: nat, i: nat, n: nat): (s: nat)
    requires h < n && i <= n
    ensures s < n
  {
    if h + i < n then h + i else h + i - n
  }

  lemma SlotIsModulo(h: nat, i: nat, n: nat)
    requires h < n && i <= n
    ensures (h + i) % n == Slot(h, i, n)
  {
    var q := (h + i) / n;
    assert h + i == n * q + (h + i) % n;
    Multiples(n, q);
  }

  lemma {:induction false} Multiples(n: nat, q: nat)
    ensures q >= 2 ==> 2 * n <= n * q
    ensures n * 0 == 0 && n * 1 == n
  {
    if q > 2 {
      Multiples(n, q - 1);
      assert n * q == n * (q - 1) + n;
    }
  }

  ghost predicate Consistent(q: Ring) {
    q.len <= |q.data| &&
    if q.data == [] then q.head == 0 && q.tail == 0
    else q.head < |q.data| && q.tail == Slot(q.head, q.len, |q.data|)
  }

  /** A ring that is not consistent is still safe to use. */
  ghost predicate Safe(q: Ring) {
    q.len <= |q.data| &&
    if q.data == [] then q.head == 0 && q.tail == 0 else q.head < |q.data| && q.tail < |q.data|
  }

  predicate Full(q: Ring) {
    q.len == |q.data| && q.data != []
  }

  /** The capacity after a push. */
  function Grown(q: Ring): nat {
    if q.len == |q.data| then (if q.data != [] then 2 * |q.data| else 4) else |q.data|
  }

  /** `queue_push`; `added` is what the enlarged part of the block happens to hold. */
  function Push(q: Ring, x: int, added: seq<int>): (r: Ring)
    requires Safe(q) && |q.data| + |added| == Grown(q)
    ensures Safe(r)
  {
    var data := q.data + added;
    Ring(data[q.tail := x], q.len + 1, q.head, Slot(q.tail, 1, |data|))
  }

  function Pop(q: Ring): (r: Ring)
    requires Safe(q) && q.len > 0
    ensures Safe(r)
  {
    Ring(q.data, q.len - 1, Slot(q.head, 1, |q.data|), q.tail)
  }

  /** The queued elements, oldest first. */
  function Contents(q: Ring): (s: seq<int>)
    requires Safe(q)
  {
    seq(q.len, i requires 0 <= i < q.len => q.data[Slot(q.head, i, |q.data|)])
  }

  /** On a ring that is not full, and on the empty one, a push appends. */
  lemma PushAppends(q: Ring, x: int, added: seq<int>)
    requires Consistent(q) && |q.data| + |added| == Grown(q) && !Full(q)
    ensures Consistent(Push(q, x, added))
    ensures Contents(Push(q, x, added)) == Contents(q) + [x]
  {
  }

  lemma PopRemovesOldest(q: Ring)
    requires Consistent(q) && q.len > 0
    ensures Consistent(Pop(q))
    ensures [q.data[q.head]] + Contents(Pop(q)) == Contents(q)
  {
  }

  /** Pushing to a full ring writes the new element over the oldest one. */
  lemma FullPushOverwritesOldest(q: Ring, x: int, added: seq<int>)
    requires Consistent(q) && |q.data| + |added| == Grown(q) && Full(q)
    ensures Contents(Push(q, x, added))[0] == x
  {
  }

  /** A push appends, whatever is pushed and whatever the new memory holds, exactly when the
      ring is not full. */
  lemma PushAppendsIffNotFull(q: Ring)
    requires Consistent(q)
    ensures (forall x: int, added: seq<int> {:trigger Push(q, x, added)} :: |q.data| + |added| == Grown(q) ==>
               Contents(Push(q, x, added)) == Contents(q) + [x])
            <==> !Full(q)
  {
    if Full(q) {
      var x, added := Contents(q)[0] + 1, seq(|q.data|, _ => 0);
      FullPushOverwritesOldest(q, x, added);
      assert Contents(Push(q, x, added)) != Contents(q) + [x];
    } else {
      forall x: int, added: seq<int> | |q.data| + |added| == Grown(q)
        ensures Contents(Push(q, x, added)) == Contents(q) + [x]
      {
        PushAppends(q, x, added);
      }
    }
  }

  class Queue {
    var data: array<int>
    var len: nat
    var cap: nat
    var head: nat
    var tail: nat

    ghost predicate Valid()
      reads this, data
    {
      data.Length == cap && Safe(Fields())
    }

    ghost function Fields(): Ring
      reads this, data
    {
      Ring(data[..], len, head, tail)
    }

    /** `queue_new`: a zeroed structure; the empty array stands for the null pointer. */
    constructor ()
      ensures Valid() && fresh(data) && Fields() == EMPTY
    {
      data := new int[0];
      len, cap, head, tail := 0, 0, 0, 0;
    }

    /** `realloc`: the old elements, then whatever the rest of the block holds. */
    method Realloc(size: nat) returns (ghost added: seq<int>)
      requires Valid() && cap < size
      modifies this`data
      ensures fresh(data) && data[..] == old(data[..]) + added && |added| == size - cap
    {
      var grown := new int[size];
      for i := 0 to cap
        invariant data == old(data) && data[..] == old(data[..]) && grown[..i] == data[..i]
      {
        grown[i] := data[i];
      }
      added := grown[cap..];
      assert grown[..] == grown[..cap] + added && data[..cap] == data[..];
      data := grown;
    }

    /** Returns, for specifications, what the new memory held. */
    method Enqueue(x: Int64) returns (ghost added: seq<int>)
      requires Valid()
      modifies this, data
      ensures Valid() && (data == old(data) || fresh(data))
      ensures old(cap) + |added| == Grown(old(Fields()))
      ensures Fields() == Push(old(Fields()), x, added)
    {
      added := [];
      if len == cap {
        var newCap := if cap > 0 then cap * 2 else 4;
        added := Realloc(newCap);
        cap := newCap;
      }
      SlotIsModulo(tail, 1, cap);
      data[tail] := x;
      tail := (tail + 1) % cap;
      len := len + 1;
    }

    /** The oldest element, cast to `int`; -1 when there is none. */
    method Dequeue() returns (r: int)
      requires Valid()
      modifies this
      ensures Valid() && data == old(data)
      ensures old(len) == 0 ==> r == -1 && Fields() == old(Fields())
      ensures old(len) > 0 ==> r == ToInt32(old(data[head])) && Fields() == Pop(old(Fields()))
    {
      if len == 0 {
        return -1;
      }
      SlotIsModulo(head, 1, cap);
      r := ToInt32(data[head]);
      head := (head + 1) % cap;
      len := len - 1;
    }

    method Peek() returns (r: int)
      requires Valid()
      ensures r == if len == 0 then -1 else ToInt32(data[head])
    {
      return if len == 0 then -1 else ToInt32(data[head]);
    }
  }

  // ---- Runs ----

  datatype Op = PushOp(x: Int64) | PopOp | PeekOp

  /** The ideal queue and what its operations answered. */
  datatype Ideal = Ideal(queue: seq<int>, answers: seq<int>)

  function IdealStep(s: Ideal, op: Op): Ideal {
    match op
    case PushOp(x) => Ideal(s.queue + [x], s.answers)
    case PopOp =>
      if s.queue == [] then s.(answers := s.answers + [-1])
      else Ideal(s.queue[1..], s.answers + [ToInt32(s.queue[0])])
    case PeekOp => s.(answers := s.answers + [if s.queue == [] then -1 else ToInt32(s.queue[0])])
  }

  function IdealRun(ops: seq<Op>): Ideal {
    if ops == [] then Ideal([], []) else IdealStep(IdealRun(ops[..|ops| - 1]), ops[|ops| - 1])
  }

  /** No push finds four elements queued: the ring, whose first capacity is four, never grows again. */
  ghost predicate NeverOverfills(ops: seq<Op>) {
    forall n :: 0 <= n < |ops| && ops[n].PushOp? ==> |IdealRun(ops[..n]).queue| < 4
  }

  /** Over every run that never pushes to a full ring, whatever its length and however often it
      wraps around, the structure answers as the ideal queue and holds its elements. */
  method Replay(ops: seq<Op>) returns (q: Queue, answers: seq<int>)
    requires NeverOverfills(ops)
    ensures q.Valid() && Consistent(q.Fields())
    ensures Contents(q.Fields()) == IdealRun(ops).queue && answers == IdealRun(ops).answers
    ensures q.cap > 0 ==> q.tail == (q.head + q.len) % q.cap
  {
    q := new Queue();
    answers := [];
    for n := 0 to |ops|
      invariant fresh(q) && fresh(q.data) && q.Valid() && Consistent(q.Fields()) && (q.cap == 0 || q.cap == 4)
      invariant Contents(q.Fields()) == IdealRun(ops[..n]).queue && answers == IdealRun(ops[..n]).answers
    {
      assert ops[..n + 1][..n] == ops[..n];
      answers := ReplayOne(q, ops[n], answers);
    }
    assert ops[..|ops|] == ops;
    if q.cap > 0 {
      SlotIsModulo(q.head, q.len, q.cap);
    }
  }

  method ReplayOne(q: Queue, op: Op, answers: seq<int>) returns (more: seq<int>)
    requires q.Valid() && Consistent(q.Fields()) && (q.cap == 0 || q.cap == 4)
    requires op.PushOp? ==> q.len < 4
    modifies q, q.data
    ensures q.Valid() && Consistent(q.Fields()) && (q.cap == 0 || q.cap == 4)
    ensures q.data == old(q.data) || fresh(q.data)
    ensures Ideal(Contents(q.Fields()), more) == IdealStep(Ideal(old(Contents(q.Fields())), answers), op)
  {
    ghost var before := q.Fields();
    more := answers;
    match op
    case PushOp(x) =>
      ghost var added := q.Enqueue(x);
      PushAppends(before, x, added);
    case PopOp =>
      var r := q.Dequeue();
      more := more + [r];
      if before.len > 0 {
        PopRemovesOldest(before);
      }
    case PeekOp =>
      var r := q.Peek();
      more := more + [r];
  }

  /** First-in first-out fails on a full ring: after five pushes the first pop answers the fifth. */
  method FifthPush(a: Int64, b: Int64, c: Int64, d: Int64, e: Int64) returns (r: int)
    ensures r == ToInt32(e)
  {
    var q := new Queue();
    ghost var added := q.Enqueue(a);
    added := q.Enqueue(b);
    added := q.Enqueue(c);
    added := q.Enqueue(d);
    added := q.Enqueue(e);
    r := q.Dequeue();
  }
}
