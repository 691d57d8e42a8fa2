/** Byte buffers behind the handle table, runtime/mem/dmc_mem.c. */
module Memory {
  import opened Words
  import opened Handles

  const MAX_SIZE: nat := 0x4000_0000

  ghost predicate IsBuffer(s: Slot) {
    s.kind.Memory?
  }

  /** Every buffer handle has its own block, as long as its size. */
  ghost predicate Valid(t: Table)
    reads t, t.slots
  {
    && t.Valid()
    && (forall h :: 0 <= h < |t.Issued()| && IsBuffer(t.Issued()[h]) ==>
          t.Issued()[h].value != null && t.Issued()[h].value.Length == t.Issued()[h].size)
    && (forall g, h :: 0 <= g < h < |t.Issued()| && IsBuffer(t.Issued()[g]) && IsBuffer(t.Issued()[h]) ==>
          t.Issued()[g].value != t.Issued()[h].value)
  }

  ghost predicate Live(t: Table, h: nat)
    reads t, t.slots
    requires Valid(t)
  {
    h < |t.Issued()| && IsBuffer(t.Issued()[h])
  }

  ghost function Bytes(t: Table, h: nat): seq<int>
    requires Valid(t) && Live(t, h)
    reads t, t.slots, t.Issued()[h].value
  {
    t.Issued()[h].value[..]
  }

  /** `dmc_mem_alloc`: a zeroed buffer under a new handle. `calloc` says whether the system has
      memory for the buffer, `realloc` whether it has for a larger table; if only the second
      fails, the buffer is given back. */
  method Alloc(t: Table, size: nat, calloc: bool, realloc: bool) returns (h: nat)
    requires Valid(t)
    modifies t, t.slots
    ensures Valid(t)
    ensures h == FAILED || h == |old(t.Issued())|
    ensures h == FAILED ==> t.Issued() == old(t.Issued()) && t.slots == old(t.slots)
    ensures h != FAILED ==>
              Live(t, h) && fresh(t.Issued()[h].value) && t.Issued()[..h] == old(t.Issued()) &&
              Bytes(t, h) == seq(size, _ => 0)
    ensures h != FAILED <==>
              0 < size <= MAX_SIZE && calloc && |old(t.Issued())| < MAX_HANDLES &&
              (realloc || |old(t.Issued())| < old(t.cap))
  {
    if size == 0 || size > MAX_SIZE || !calloc {
      return FAILED;
    }
    var block := new int[size](_ => 0);
    h := t.Reserve(Kind.Memory, block, size, realloc);
  }

  /** `dmc_mem_read`: -1 and nothing read for a handle that is not live or an index outside. */
  method Read(t: Table, h: nat, index: nat) returns (r: int, value: int)
    requires Valid(t)
    ensures Live(t, h) && index < |Bytes(t, h)| ==> r == 0 && value == Bytes(t, h)[index]
    ensures !(Live(t, h) && index < |Bytes(t, h)|) ==> r == -1
  {
    var found := t.Get(h, Kind.Memory);
    if !found || index >= t.slots[h].size {
      return -1, 0;
    }
    return 0, t.slots[h].value[index];
  }

  /** `dmc_mem_write`: only the addressed byte of the addressed buffer changes. */
  method Write(t: Table, h: nat, index: nat, value: Byte) returns (r: int)
    requires Valid(t)
    modifies if Live(t, h) then {t.Issued()[h].value} else {}
    ensures Valid(t) && t.Issued() == old(t.Issued())
    ensures Live(t, h) && index < |old(Bytes(t, h))| ==> r == 0 && Bytes(t, h) == old(Bytes(t, h))[index := value]
    ensures !(Live(t, h) && index < |old(Bytes(t, h))|) ==> r == -1 && (Live(t, h) ==> Bytes(t, h) == old(Bytes(t, h)))
    ensures forall g :: g != h && Live(t, g) ==> Bytes(t, g) == old(Bytes(t, g))
  {
    var found := t.Get(h, Kind.Memory);
    if !found || index >= t.slots[h].size {
      return -1;
    }
    t.slots[h].value[index] := value;
    return 0;
  }

  /** `dmc_mem_free` empties the slot of a live buffer, and then releases the slot it has just
      emptied: it answers -1 in every case. */
  method Free(t: Table, h: nat) returns (r: int)
    requires Valid(t)
    modifies t.slots
    ensures Valid(t) && r == -1
    ensures t.Issued() == if old(Live(t, h)) then old(t.Issued())[h := EmptySlot()] else old(t.Issued())
  {
    var found := t.Get(h, Kind.Memory);
    if !found {
      return -1;
    }
    t.slots[h] := EmptySlot();
    r := t.Release(h);
  }
}
