/** The abstract value of a BGET pool (coap_mem.c): the blocks that tile it, by
    address, and the order in which the free list chains the free ones. What one
    request or one release does to it is a function; the properties of the
    allocator are lemmas about these functions and about runs of them. */
module BgetHeap {
  import opened Common

  const HEADER := 4     // struct bhead: two int16_t
  const SIZE_QUANT := 4
  const SIZE_Q := 8     // two 4-byte links
  const MIN_BLOCK := 12
  const MAX_POOL := 32767

  datatype Block = Block(size: int, free: bool)

  type Blocks = map<int, Block>

  /** order: addresses of the free blocks as the list chains them;
      limit: address of the end sentinel. */
  datatype Heap = Heap(blocks: Blocks, order: seq<int>, limit: int)

  function End(m: Blocks, a: int): int
    requires a in m
  {
    a + m[a].size
  }

  // ---------------------------------------------------------------- invariant

  /** Every block has room for a header and two links, lies in [0, limit), and
      overlaps no other. */
  ghost predicate Apart(m: Blocks, limit: int) {
    && (forall a :: a in m ==> m[a].size >= MIN_BLOCK && 0 <= a && a + m[a].size <= limit)
    && (forall a, b :: a in m && b in m && a < b ==> a + m[a].size <= b)
  }

  ghost predicate Followed(m: Blocks, limit: int, a: int)
    requires a in m
  {
    End(m, a) == limit || End(m, a) in m
  }

  /** No gaps: the first block starts at 0, and where one ends the next starts,
      up to the sentinel. */
  ghost predicate Chained(m: Blocks, limit: int) {
    0 in m && (forall a {:trigger Followed(m, limit, a)} :: a in m ==> Followed(m, limit, a))
  }

  ghost predicate Quantised(m: Blocks) {
    forall a :: a in m ==> m[a].size % SIZE_QUANT == 0
  }

  ghost predicate Tiled(m: Blocks, limit: int) {
    Apart(m, limit) && Chained(m, limit)
  }

  /** No free block ends where another begins. */
  ghost predicate Coalesced(m: Blocks) {
    forall a, b :: a in m && b in m && m[a].free && m[b].free ==> a + m[a].size != b
  }

  /** order lists every free block, each once. */
  ghost predicate Lists(order: seq<int>, m: Blocks) {
    && Distinct(order)
    && (forall a :: a in order <==> a in m && m[a].free)
  }

  /** Holds between the two halves of a release as well. */
  ghost predicate Loose(h: Heap) {
    Tiled(h.blocks, h.limit) && Lists(h.order, h.blocks) && h.limit <= MAX_POOL - HEADER
  }

  ghost predicate Wf(h: Heap) {
    Loose(h) && Coalesced(h.blocks) && Quantised(h.blocks)
  }

  // ------------------------------------------- edits that keep a tiling

  function Merge(m: Blocks, a: int, n: int): Blocks
    requires a in m && n in m
  {
    (m - {n})[a := Block(m[a].size + m[n].size, true)]
  }

  function Split(m: Blocks, a: int, n: int): Blocks
    requires a in m
  {
    m[a := Block(m[a].size - n, true)][a + m[a].size - n := Block(n, false)]
  }

  lemma {:induction false} MergeTiled(m: Blocks, limit: int, a: int, n: int, d: Blocks)
    requires Tiled(m, limit) && a in m && n in m && n == End(m, a) && d == Merge(m, a, n)
    ensures Tiled(d, limit)
  {
    assert Apart(d, limit);
    MergeChained(m, limit, a, n, d);
  }

  lemma {:induction false} MergeChained(m: Blocks, limit: int, a: int, n: int, d: Blocks)
    requires Apart(m, limit) && Chained(m, limit) && a in m && n in m && n == End(m, a) && d == Merge(m, a, n)
    ensures Chained(d, limit)
  {
    forall x | x in d ensures Followed(d, limit, x) {
      assert Followed(m, limit, x) && Followed(m, limit, n);
    }
  }

  lemma {:induction false} FlagTiled(m: Blocks, limit: int, a: int, free: bool, d: Blocks)
    requires Tiled(m, limit) && a in m && d == m[a := m[a].(free := free)]
    ensures Tiled(d, limit)
  {
    forall x | x in d ensures Followed(d, limit, x) {
      assert Followed(m, limit, x);
    }
  }

  lemma {:induction false} SplitTiled(m: Blocks, limit: int, a: int, n: int, d: Blocks)
    requires Tiled(m, limit) && a in m && d == Split(m, a, n)
    requires n >= MIN_BLOCK && m[a].size - n >= MIN_BLOCK
    ensures Tiled(d, limit)
  {
    assert Apart(d, limit);
    SplitChained(m, limit, a, n, d);
  }

  lemma {:induction false} SplitChained(m: Blocks, limit: int, a: int, n: int, d: Blocks)
    requires Apart(m, limit) && Chained(m, limit) && a in m && d == Split(m, a, n)
    requires n >= MIN_BLOCK && m[a].size - n >= MIN_BLOCK
    ensures Chained(d, limit)
  {
    hide Apart;
    forall x | x in d ensures Followed(d, limit, x) {
      assert Followed(m, limit, a);
      assert x in m ==> Followed(m, limit, x);
    }
  }

  lemma {:induction false} QuantisedEdits(m: Blocks, a: int, n: int, need: int)
    requires Quantised(m) && a in m && need % SIZE_QUANT == 0
    ensures Quantised(Split(m, a, need))
    ensures n in m ==> Quantised(Merge(m, a, n))
  {
  }

  /** Order and list after the block at order[k] left the list. */
  lemma {:induction false} ListsDrop(order: seq<int>, m: Blocks, k: nat, d: Blocks)
    requires Lists(order, m) && k < |order|
    requires forall x :: x in d && d[x].free <==> x in m && m[x].free && x != order[k]
    ensures Lists(Drop(order, k), d)
  {
    forall x ensures x in Drop(order, k) <==> x in d && d[x].free {
      DropMembers(order, k, x);
    }
  }

  // ---------------------------------------------------------------- requests

  /** Bytes a request really takes: at least the two links, rounded up to the
      quantum, plus the header. */
  function Need(requested: int): (n: int)
    requires 0 < requested
  {
    var size := if requested < SIZE_Q then SIZE_Q else requested;
    (size + SIZE_QUANT - 1) / SIZE_QUANT * SIZE_QUANT + HEADER
  }

  /** What assigning to an int16_t keeps. */
  function Wrap16(x: int): int {
    (x + 32768) % 65536 - 32768
  }

  /** Need as bget computes it, in int16_t. */
  function Need16(requested: int): int
    requires 0 < requested
  {
    var size := if requested < SIZE_Q then SIZE_Q else requested;
    Wrap16(Wrap16((size + SIZE_QUANT - 1) / SIZE_QUANT * SIZE_QUANT) + HEADER)
  }

  /** Position in the free list of the block the scan settles on. */
  function Best(order: seq<int>, m: Blocks, need: int): (r: Option<nat>)
    requires forall j :: 0 <= j < |order| ==> order[j] in m
    ensures r.Some? ==> r.value < |order|
  {
    if order == [] then None else
      var n := |order| - 1;
      var p := Best(order[..n], m, need);
      if m[order[n]].size >= need && (p.None? || m[order[n]].size < m[order[p.value]].size) then Some(n) else p
  }

  /** The scan settles on the first of the smallest blocks that fit, and on none
      exactly when none fits. */
  lemma {:induction false} BestFits(order: seq<int>, m: Blocks, need: int)
    requires forall j :: 0 <= j < |order| ==> order[j] in m
    ensures match Best(order, m, need)
      case None => forall j :: 0 <= j < |order| ==> m[order[j]].size < need
      case Some(k) =>
        && m[order[k]].size >= need
        && (forall j :: 0 <= j < |order| && m[order[j]].size >= need ==> m[order[k]].size <= m[order[j]].size)
        && (forall j :: 0 <= j < k && m[order[j]].size >= need ==> m[order[k]].size < m[order[j]].size)
  {
    if order != [] {
      BestFits(order[..|order| - 1], m, need);
    }
  }

  /** The pool after the block at order[k] served a request for need bytes, and
      the address of the block handed out: the top of it if a block can be left
      below, else all of it. */
  function GetAt(h: Heap, k: nat, need: int): (Heap, int)
    requires k < |h.order| && h.order[k] in h.blocks
  {
    var a := h.order[k];
    var rest := h.blocks[a].size - need;
    if rest > SIZE_Q + HEADER then
      (Heap(Split(h.blocks, a, need), h.order, h.limit), a + rest)
    else
      (Heap(h.blocks[a := h.blocks[a].(free := false)], Drop(h.order, k), h.limit), a)
  }

  lemma {:induction false} Listed(h: Heap)
    requires Loose(h)
    ensures forall j :: 0 <= j < |h.order| ==> h.order[j] in h.blocks && h.blocks[h.order[j]].free
  {
    forall j | 0 <= j < |h.order| ensures h.order[j] in h.blocks && h.blocks[h.order[j]].free {
      var a := h.order[j];
      assert a in h.order;
    }
  }

  function Scan(h: Heap, need: int): (r: Option<nat>)
    requires Loose(h)
    ensures r.Some? ==> r.value < |h.order| && h.order[r.value] in h.blocks
  {
    Listed(h); Best(h.order, h.blocks, need)
  }

  /** What a request for need bytes does to the pool, and the address of the block
      it is given. */
  function Get(h: Heap, need: int): (Heap, Option<int>)
    requires Loose(h)
  {
    match Scan(h, need)
    case None => (h, None)
    case Some(k) => var (h', a) := GetAt(h, k, need); (h', Some(a))
  }

  lemma {:induction false} GetAtWf(h: Heap, k: nat, need: int)
    requires Wf(h) && k < |h.order| && need >= MIN_BLOCK && need % SIZE_QUANT == 0
    requires h.order[k] in h.blocks && h.blocks[h.order[k]].size >= need
    ensures Wf(GetAt(h, k, need).0)
  {
    var a := h.order[k];
    var (d, got) := GetAt(h, k, need);
    assert h.blocks[a].free by { assert a in h.order; }
    if h.blocks[a].size - need > SIZE_Q + HEADER {
      SplitTiled(h.blocks, h.limit, a, need, d.blocks);
      QuantisedEdits(h.blocks, a, a, need);
      assert a + h.blocks[a].size - need !in h.blocks;
    } else {
      FlagTiled(h.blocks, h.limit, a, false, d.blocks);
      ListsDrop(h.order, h.blocks, k, d.blocks);
    }
  }

  // ---------------------------------------------------------------- releases

  /** The free block q ends at a. */
  ghost predicate FreeBelow(m: Blocks, q: int, a: int) {
    q in m && m[q].free && End(m, q) == a
  }

  ghost function Below(m: Blocks, a: int): (p: Option<int>)
    ensures match p case Some(q) => FreeBelow(m, q, a) case None => forall q :: !FreeBelow(m, q, a)
  {
    if exists q :: FreeBelow(m, q, a) then
      var q :| FreeBelow(m, q, a); Some(q)
    else None
  }

  /** First half of a release: join the free block below, or enter the list at
      its end. Also the address of the freed block. */
  ghost function FreeDown(h: Heap, a: int): (Heap, int)
    requires a in h.blocks
  {
    match Below(h.blocks, a)
    case Some(q) => (Heap(Merge(h.blocks, q, a), h.order, h.limit), q)
    case None => (Heap(h.blocks[a := h.blocks[a].(free := true)], h.order + [a], h.limit), a)
  }

  /** Second half: swallow the block above if it is free. */
  ghost function JoinUp(h: Heap, b: int): Heap
    requires b in h.blocks
  {
    var n := End(h.blocks, b);
    if n in h.blocks && n in h.order then
      Heap(Merge(h.blocks, b, n), Drop(h.order, Pos(h.order, n)), h.limit)
    else h
  }

  ghost function Release(h: Heap, a: int): Heap
    requires a in h.blocks
  {
    var (d, b) := FreeDown(h, a); JoinUp(d, b)
  }

  /** Only the block at b may have a free block right above it. */
  ghost predicate CoalescedBut(m: Blocks, b: int) {
    forall x, y :: x in m && y in m && x != b && m[x].free && m[y].free ==> x + m[x].size != y
  }

  lemma {:induction false} FreeDownWf(h: Heap, a: int)
    requires Wf(h) && a in h.blocks && !h.blocks[a].free
    ensures var (d, b) := FreeDown(h, a);
      Loose(d) && Quantised(d.blocks) && b in d.blocks && d.blocks[b].free && CoalescedBut(d.blocks, b)
  {
    var (d, b) := FreeDown(h, a);
    match Below(h.blocks, a) {
      case Some(q) =>
        MergeTiled(h.blocks, h.limit, q, a, d.blocks);
        QuantisedEdits(h.blocks, q, a, 0);
      case None =>
        FlagTiled(h.blocks, h.limit, a, true, d.blocks);
        assert forall x :: x in h.blocks && h.blocks[x].free && !FreeBelow(h.blocks, x, a) ==>
          x + h.blocks[x].size != a;
    }
  }

  lemma {:induction false} JoinUpWf(h: Heap, b: int)
    requires Loose(h) && Quantised(h.blocks) && b in h.blocks && h.blocks[b].free && CoalescedBut(h.blocks, b)
    ensures Wf(JoinUp(h, b))
  {
    var n := End(h.blocks, b);
    if n in h.blocks && n in h.order {
      var d := Merge(h.blocks, b, n);
      MergeTiled(h.blocks, h.limit, b, n, d);
      QuantisedEdits(h.blocks, b, n, 0);
      ListsDrop(h.order, h.blocks, Pos(h.order, n), d);
    }
  }

  lemma {:induction false} ReleaseWf(h: Heap, a: int)
    requires Wf(h) && a in h.blocks && !h.blocks[a].free
    ensures Wf(Release(h, a))
  {
    FreeDownWf(h, a);
    var (d, b) := FreeDown(h, a);
    JoinUpWf(d, b);
  }
}
