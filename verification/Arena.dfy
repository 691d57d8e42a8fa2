/** The emitted bump arena: allocations never move, never overlap, and share one block of bytes. */
module Arena {
  import opened Text
  import opened Words

  datatype Block = Block(off: nat, size: nat)

  /** Consecutive blocks from 0 to `top`. */
  ghost predicate Stacked(blocks: seq<Block>, top: nat) {
    if blocks == [] then top == 0
    else
      var last := blocks[|blocks| - 1];
      last.off + last.size == top && Stacked(blocks[..|blocks| - 1], last.off)
  }

  function TotalSize(blocks: seq<Block>): nat {
    if blocks == [] then 0 else TotalSize(blocks[..|blocks| - 1]) + blocks[|blocks| - 1].size
  }

  /** The sizes sum to `top`, and an earlier block ends before a later one starts. */
  lemma {:induction false} StackedBlocks(blocks: seq<Block>, top: nat)
    requires Stacked(blocks, top)
    ensures TotalSize(blocks) == top
    ensures forall i :: 0 <= i < |blocks| ==> blocks[i].off + blocks[i].size <= top
    ensures forall i, j :: 0 <= i < j < |blocks| ==> blocks[i].off + blocks[i].size <= blocks[j].off
  {
    if blocks != [] {
      var init, last := blocks[..|blocks| - 1], blocks[|blocks| - 1];
      StackedBlocks(init, last.off);
      assert forall i :: 0 <= i < |init| ==> blocks[i] == init[i];
    }
  }

  class Arena {
    var mem: array?<int>
    var size: nat
    var top: nat
    /** What has been allocated since the last reset. */
    ghost var blocks: seq<Block>

    ghost predicate Valid()
      reads this, mem
    {
      && (mem != null ==> size <= mem.Length && forall i :: 0 <= i < mem.Length ==> 0 <= mem[i] < 256)
      && top <= size <= MAX && Stacked(blocks, top)
    }

    ghost function Bytes(): seq<int>
      reads this, mem
      requires Valid() && mem != null
    {
      mem[..size]
    }

    /** `arena_new` for a non-negative capacity, `malloc` succeeding. */
    constructor (cap: Int64)
      requires cap >= 0
      ensures Valid() && fresh(mem) && mem != null && size == cap && blocks == [] && top == 0
    {
      mem := new int[if cap > 0 then cap else 1](_ => 0);
      size, top, blocks := cap, 0, [];
    }

    /** The offset of the new block, or -1. `top + n` must not overflow `long long`. */
    method Alloc(n: Int64) returns (off: int)
      requires Valid() && top + n <= MAX
      modifies this`top, this`blocks
      ensures Valid()
      ensures mem != null && 0 <= n <= size - old(top) ==>
                off == old(top) && blocks == old(blocks) + [Block(off, n)] && top == off + n
      ensures !(mem != null && 0 <= n <= size - old(top)) ==> off == -1 && blocks == old(blocks) && top == old(top)
    {
      if mem == null || n < 0 || top + n > size {
        return -1;
      }
      off := top;
      top := top + n;
      blocks := blocks + [Block(off, n)];
      assert blocks[..|blocks| - 1] == old(blocks);
    }

    method Write(off: Int64, i: Int64, v: Int64) returns (r: int)
      requires Valid() && off + i <= MAX
      modifies mem
      ensures Valid()
      ensures mem != null && 0 <= off && 0 <= i && off + i < size ==>
                r == 0 && Bytes() == old(Bytes())[off + i := ToByte(v)]
      ensures !(mem != null && 0 <= off && 0 <= i && off + i < size) ==>
                r == -1 && (mem != null ==> Bytes() == old(Bytes()))
    {
      if mem == null || off < 0 || i < 0 || off + i >= size {
        return -1;
      }
      mem[off + i] := ToByte(v);
      return 0;
    }

    method Read(off: Int64, i: Int64) returns (r: int)
      requires Valid() && off + i <= MAX
      ensures r == if mem != null && 0 <= off && 0 <= i && off + i < size then Bytes()[off + i] else -1
    {
      if mem == null || off < 0 || i < 0 || off + i >= size {
        return -1;
      }
      return mem[off + i];
    }

    /** Everything is given back; the bytes stay. */
    method Reset() returns (r: int)
      requires Valid()
      modifies this`top, this`blocks
      ensures Valid()
      ensures mem != null ==> r == 0 && blocks == [] && top == 0
      ensures mem == null ==> r == -1 && blocks == old(blocks) && top == old(top)
    {
      if mem == null {
        return -1;
      }
      top, blocks := 0, [];
      return 0;
    }

    method Top() returns (r: int)
      requires Valid()
      ensures r == if mem != null then TotalSize(blocks) else -1
    {
      StackedBlocks(blocks, top);
      return if mem != null then top else -1;
    }

    method Free() returns (r: int)
      requires Valid()
      modifies this
      ensures Valid() && mem == null
      ensures r == if old(mem) == null then -1 else 0
      ensures old(mem) != null ==> blocks == [] && top == 0 && size == 0
    {
      if mem == null {
        return -1;
      }
      mem, top, size, blocks := null, 0, 0, [];
      return 0;
    }
  }

  // ---- Runs ----

  /** Accesses name a block by its number and an index into it. */
  datatype Op = AllocOp(n: Int64) | WriteOp(b: nat, i: nat, v: Int64) | ReadOp(b: nat, i: nat) | ResetOp

  /** Separate buffers, one for each allocation since the last reset: a cell holds what was
      written to it, or nothing yet. `None` as an answer stands for any answer. */
  datatype Buffers = Buffers(cells: seq<seq<Option<int>>>, answers: seq<Option<int>>)

  function Cells(buffers: seq<seq<Option<int>>>): nat {
    if buffers == [] then 0 else Cells(buffers[..|buffers| - 1]) + |buffers[|buffers| - 1]|
  }

  predicate Inside(buffers: seq<seq<Option<int>>>, b: nat, i: nat) {
    b < |buffers| && i < |buffers[b]|
  }

  /** An access outside the block it names is not made. */
  function BuffersStep(s: Buffers, cap: nat, op: Op): Buffers {
    match op
    case AllocOp(n) =>
      if 0 <= n <= cap - Cells(s.cells) then
        Buffers(s.cells + [seq(n, _ => None)], s.answers + [Some(Cells(s.cells))])
      else s.(answers := s.answers + [Some(-1)])
    case WriteOp(b, i, v) =>
      if Inside(s.cells, b, i) then
        Buffers(s.cells[b := s.cells[b][i := Some(ToByte(v))]], s.answers + [Some(0)])
      else s.(answers := s.answers + [Some(-1)])
    case ReadOp(b, i) =>
      s.(answers := s.answers + [if Inside(s.cells, b, i) then s.cells[b][i] else Some(-1)])
    case ResetOp => Buffers([], s.answers + [Some(0)])
  }

  function BuffersRun(cap: nat, ops: seq<Op>): Buffers {
    if ops == [] then Buffers([], []) else BuffersStep(BuffersRun(cap, ops[..|ops| - 1]), cap, ops[|ops| - 1])
  }

  /** What was last written at index `i` of the block that is number `b` at the end of the run,
      since that block was allocated. */
  function LastWrite(cap: nat, ops: seq<Op>, b: nat, i: nat): Option<int> {
    if ops == [] then None
    else
      var init, last := ops[..|ops| - 1], ops[|ops| - 1];
      if last.ResetOp? || (last.AllocOp? && |BuffersRun(cap, init).cells| == b) then None
      else if last.WriteOp? && last.b == b && last.i == i then Some(ToByte(last.v))
      else LastWrite(cap, init, b, i)
  }

  /** A cell holds its own last write, modulo 256, whatever is allocated, written or read
      elsewhere. */
  lemma {:induction false} OwnLastWrite(cap: nat, ops: seq<Op>, b: nat, i: nat)
    requires Inside(BuffersRun(cap, ops).cells, b, i)
    ensures BuffersRun(cap, ops).cells[b][i] == LastWrite(cap, ops, b, i)
  {
    var init, last := ops[..|ops| - 1], ops[|ops| - 1];
    if !last.ResetOp? && !(last.AllocOp? && |BuffersRun(cap, init).cells| == b) {
      OwnLastWrite(cap, init, b, i);
    }
  }

  /** The arena's bytes hold the buffers, block by block. */
  ghost predicate Holds(bytes: seq<int>, blocks: seq<Block>, buffers: seq<seq<Option<int>>>) {
    && |blocks| == |buffers|
    && (forall b :: 0 <= b < |blocks| ==> blocks[b].size == |buffers[b]| && blocks[b].off + blocks[b].size <= |bytes|)
    && (forall b, i :: 0 <= b < |blocks| && 0 <= i < blocks[b].size && buffers[b][i].Some? ==>
          bytes[blocks[b].off + i] == buffers[b][i].value)
  }

  /** As far as they say anything, the ideal answers are the real ones. */
  ghost predicate Answers(ideal: seq<Option<int>>, given: seq<int>) {
    |ideal| == |given| && forall k :: 0 <= k < |ideal| && ideal[k].Some? ==> given[k] == ideal[k].value
  }

  lemma {:induction false} CellsAreBlocks(blocks: seq<Block>, buffers: seq<seq<Option<int>>>)
    requires |blocks| == |buffers| && forall b :: 0 <= b < |blocks| ==> blocks[b].size == |buffers[b]|
    ensures TotalSize(blocks) == Cells(buffers)
  {
    if blocks != [] {
      CellsAreBlocks(blocks[..|blocks| - 1], buffers[..|buffers| - 1]);
    }
  }

  /** Writing inside one block leaves the cells of all others alone. */
  lemma WriteHolds(bytes: seq<int>, blocks: seq<Block>, top: nat, buffers: seq<seq<Option<int>>>, b: nat, i: nat, v: int)
    requires Stacked(blocks, top) && Holds(bytes, blocks, buffers) && Inside(buffers, b, i)
    ensures blocks[b].off + i < |bytes|
    ensures Holds(bytes[blocks[b].off + i := v], blocks, buffers[b := buffers[b][i := Some(v)]])
  {
    StackedBlocks(blocks, top);
    var after := bytes[blocks[b].off + i := v];
    var cells: seq<seq<Option<int>>> := buffers[b := buffers[b][i := Some(v)]];
    forall c, j | 0 <= c < |blocks| && 0 <= j < blocks[c].size && cells[c][j].Some?
      ensures after[blocks[c].off + j] == cells[c][j].value
    {
      assert blocks[c].off + blocks[c].size <= blocks[b].off || blocks[b].off + blocks[b].size <= blocks[c].off || c == b;
    }
  }

  /** A new block says nothing of its cells. */
  lemma AllocHolds(bytes: seq<int>, blocks: seq<Block>, buffers: seq<seq<Option<int>>>, off: nat, n: nat)
    requires Holds(bytes, blocks, buffers) && off + n <= |bytes|
    ensures Holds(bytes, blocks + [Block(off, n)], buffers + [seq(n, _ => None)])
  {
  }

  /** Any run, allocations, writes, reads and resets in any order, on one arena: it answers as
      separate buffers would, and `top` is what they hold together. */
  method Replay(cap: Int64, ops: seq<Op>) returns (a: Arena, answers: seq<int>)
    requires 0 <= cap && forall n :: 0 <= n < |ops| && ops[n].AllocOp? ==> cap + ops[n].n <= MAX
    ensures a.Valid() && a.mem != null && a.size == cap
    ensures a.top == Cells(BuffersRun(cap, ops).cells) <= cap
    ensures Holds(a.Bytes(), a.blocks, BuffersRun(cap, ops).cells)
    ensures Answers(BuffersRun(cap, ops).answers, answers)
  {
    a := new Arena(cap);
    answers := [];
    var blocks: seq<Block> := [];
    for n := 0 to |ops|
      invariant fresh(a) && fresh(a.mem) && a.Valid() && a.mem != null && a.size == cap && blocks == a.blocks
      invariant Holds(a.Bytes(), a.blocks, BuffersRun(cap, ops[..n]).cells)
      invariant Answers(BuffersRun(cap, ops[..n]).answers, answers)
    {
      assert ops[..n + 1][..n] == ops[..n];
      var answer;
      answer, blocks := ReplayOne(a, blocks, ops[n], BuffersRun(cap, ops[..n]));
      answers := answers + [answer];
    }
    assert ops[..|ops|] == ops;
    StackedBlocks(a.blocks, a.top);
    CellsAreBlocks(a.blocks, BuffersRun(cap, ops).cells);
  }

  /** The caller keeps the offsets and sizes of its blocks. */
  method ReplayOne(a: Arena, blocks: seq<Block>, op: Op, ghost before: Buffers)
    returns (answer: int, newBlocks: seq<Block>)
    requires a.Valid() && blocks == a.blocks && a.mem != null && Holds(a.Bytes(), a.blocks, before.cells)
    requires op.AllocOp? ==> a.size + op.n <= MAX
    modifies a, a.mem
    ensures a.Valid() && newBlocks == a.blocks && a.mem == old(a.mem) && a.size == old(a.size)
    ensures Steps(a, before, op, answer)
  {
    newBlocks := blocks;
    if op.WriteOp? {
      answer := ReplayWrite(a, blocks, op, before);
      return;
    }
    if op.ReadOp? {
      answer := ReplayRead(a, blocks, op, before);
      return;
    }
    StackedBlocks(blocks, a.top);
    CellsAreBlocks(blocks, before.cells);
    if op.AllocOp? {
      answer := a.Alloc(op.n);
      if answer >= 0 {
        newBlocks := blocks + [Block(answer, op.n)];
        AllocHolds(a.Bytes(), blocks, before.cells, answer, op.n);
      }
    } else {
      answer := a.Reset();
      newBlocks := [];
    }
  }

  method ReplayWrite(a: Arena, blocks: seq<Block>, op: Op, ghost before: Buffers) returns (answer: int)
    requires a.Valid() && blocks == a.blocks && a.mem != null && Holds(a.Bytes(), a.blocks, before.cells)
    requires op.WriteOp?
    modifies a.mem
    ensures a.Valid() && Steps(a, before, op, answer)
  {
    answer := -1;
    if op.b < |blocks| && op.i < blocks[op.b].size {
      StackedBlocks(blocks, a.top);
      WriteHolds(a.Bytes(), blocks, a.top, before.cells, op.b, op.i, ToByte(op.v));
      answer := a.Write(blocks[op.b].off, op.i, op.v);
    }
  }

  method ReplayRead(a: Arena, blocks: seq<Block>, op: Op, ghost before: Buffers) returns (answer: int)
    requires a.Valid() && blocks == a.blocks && a.mem != null && Holds(a.Bytes(), a.blocks, before.cells)
    requires op.ReadOp?
    ensures Steps(a, before, op, answer)
  {
    answer := -1;
    if op.b < |blocks| && op.i < blocks[op.b].size {
      StackedBlocks(blocks, a.top);
      answer := a.Read(blocks[op.b].off, op.i);
    }
  }

  /** The arena and its answer are what the buffers say. */
  ghost predicate Steps(a: Arena, before: Buffers, op: Op, answer: int)
    reads a, a.mem
  {
    a.Valid() && a.mem != null &&
    var after := BuffersStep(before, a.size, op);
    Holds(a.Bytes(), a.blocks, after.cells) &&
    |after.answers| == |before.answers| + 1 && after.answers[..|before.answers|] == before.answers &&
    (after.answers[|before.answers|].Some? ==> answer == after.answers[|before.answers|].value)
  }
}
