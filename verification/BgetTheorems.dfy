/** What the abstract BGET pool promises over whole runs: bytes are conserved,
    coalescing is canonical, releases commute, a release undoes its request. */
module BgetTheorems {
  import opened Common
  import opened BgetHeap

  /** What the callers hold: address and size of every allocated block. */
  ghost function Live(m: Blocks): map<int, int> {
    map a | a in m && !m[a].free :: m[a].size
  }

  // ---------------------------------------------------------------- accounting

  /** The sum bstats forms along the free list. */
  function Sizes(order: seq<int>, m: Blocks): int
    requires forall j :: 0 <= j < |order| ==> order[j] in m
  {
    if order == [] then 0 else Sizes(order[..|order| - 1], m) + m[order[|order| - 1]].size
  }

  ghost function FreeBytes(h: Heap): int
    requires Loose(h)
  {
    Listed(h); Sizes(h.order, h.blocks)
  }

  lemma {:induction false} SizesAgree(order: seq<int>, m: Blocks, d: Blocks)
    requires forall j :: 0 <= j < |order| ==> order[j] in m && order[j] in d && m[order[j]].size == d[order[j]].size
    ensures Sizes(order, m) == Sizes(order, d)
  {
    if order != [] { SizesAgree(order[..|order| - 1], m, d); }
  }

  lemma {:induction false} SizesDrop(order: seq<int>, m: Blocks, k: nat)
    requires k < |order| && forall j :: 0 <= j < |order| ==> order[j] in m
    ensures Sizes(Drop(order, k), m) == Sizes(order, m) - m[order[k]].size
  {
    var n := |order| - 1;
    if k == n {
      assert Drop(order, k) == order[..n];
    } else {
      SizesDrop(order[..n], m, k);
      assert Drop(order, k)[..n - 1] == Drop(order[..n], k);
    }
  }

  lemma SizesChange(order: seq<int>, m: Blocks, d: Blocks, k: nat)
    requires k < |order| && Distinct(order)
    requires forall j :: 0 <= j < |order| ==>
      order[j] in m && order[j] in d && (j != k ==> m[order[j]].size == d[order[j]].size)
    ensures Sizes(order, d) - d[order[k]].size == Sizes(order, m) - m[order[k]].size
  {
    SizesDrop(order, m, k);
    SizesDrop(order, d, k);
    SizesAgree(Drop(order, k), m, d);
  }

  /** What the callers hold from the block at a on, counted along the pool. */
  ghost function HeldFrom(m: Blocks, limit: int, a: int): (r: nat)
    requires Tiled(m, limit) && (a == limit || a in m)
    decreases limit - a
  {
    if a == limit then 0 else
      assert Followed(m, limit, a);
      (if m[a].free then 0 else m[a].size) + HeldFrom(m, limit, End(m, a))
  }

  /** The sum of the sizes of all blocks that the callers hold. */
  ghost function LiveBytes(h: Heap): nat
    requires Loose(h)
  {
    HeldFrom(h.blocks, h.limit, 0)
  }

  /** The part of the sum along the free list that lies at a or above. */
  ghost function SizesFrom(order: seq<int>, m: Blocks, a: int): int
    requires forall j :: 0 <= j < |order| ==> order[j] in m
  {
    if order == [] then 0 else
      var x := order[|order| - 1];
      SizesFrom(order[..|order| - 1], m, a) + if a <= x then m[x].size else 0
  }

  lemma {:induction false} SizesFromStep(order: seq<int>, m: Blocks, limit: int, a: int)
    requires Apart(m, limit) && Distinct(order) && a in m && forall j :: 0 <= j < |order| ==> order[j] in m
    ensures SizesFrom(order, m, a) == SizesFrom(order, m, End(m, a)) + if a in order then m[a].size else 0
  {
    if order != [] {
      SizesFromStep(order[..|order| - 1], m, limit, a);
      assert order == order[..|order| - 1] + [order[|order| - 1]];
    }
  }

  lemma {:induction false} SizesFromEnds(order: seq<int>, m: Blocks, limit: int)
    requires Apart(m, limit) && forall j :: 0 <= j < |order| ==> order[j] in m
    ensures SizesFrom(order, m, limit) == 0 && SizesFrom(order, m, 0) == Sizes(order, m)
  {
    if order != [] {
      SizesFromEnds(order[..|order| - 1], m, limit);
    }
  }

  lemma {:induction false} AccountsFrom(h: Heap, a: int)
    requires Loose(h) && (a == h.limit || a in h.blocks) && forall j :: 0 <= j < |h.order| ==> h.order[j] in h.blocks
    ensures HeldFrom(h.blocks, h.limit, a) + SizesFrom(h.order, h.blocks, a) == h.limit - a
    decreases h.limit - a
  {
    SizesFromEnds(h.order, h.blocks, h.limit);
    if a != h.limit {
      assert Followed(h.blocks, h.limit, a);
      AccountsFrom(h, End(h.blocks, a));
      SizesFromStep(h.order, h.blocks, h.limit, a);
    }
  }

  /** What bstats sums along the free list and what the callers hold is the pool. */
  lemma Accounts(h: Heap)
    requires Loose(h)
    ensures LiveBytes(h) + FreeBytes(h) == h.limit
  {
    Listed(h);
    AccountsFrom(h, 0);
    SizesFromEnds(h.order, h.blocks, h.limit);
  }

  lemma {:induction false} HeldHas(m: Blocks, limit: int, x: int, a: int)
    requires Tiled(m, limit) && x in m && x <= a && a in m && !m[a].free
    ensures m[a].size <= HeldFrom(m, limit, x)
    decreases limit - x
  {
    if x < a {
      assert Followed(m, limit, x);
      HeldHas(m, limit, End(m, x), a);
    }
  }

  /** A block that is released has been counted. */
  lemma ReleaseCounted(h: Heap, a: int)
    requires Loose(h) && a in h.blocks && !h.blocks[a].free
    ensures FreeBytes(h) + h.blocks[a].size <= h.limit
  {
    Accounts(h);
    HeldHas(h.blocks, h.limit, 0, a);
  }

  // ---------------------------------------------------------------- one step

  /** Header and request fit, in multiples of 4; what is asked for in vain is less than 4
      bytes, or what the two links of a free block need. */
  lemma NeedFits(size: int)
    requires 0 < size
    ensures Need(size) >= MIN_BLOCK && Need(size) % SIZE_QUANT == 0 && size + HEADER <= Need(size)
    ensures Need(size) % 4 == 0 && size + 4 <= Need(size)
    ensures if 8 <= size then Need(size) < size + 8 else Need(size) == 12
  {
  }

  /** Honest best fit: the scan gives up exactly when no free block of the pool is
      large enough; otherwise no smaller free block would do, and of those as small
      it takes the one the list reaches first. */
  lemma ScanHonest(h: Heap, need: int)
    requires Loose(h)
    ensures Scan(h, need).None? <==> forall a :: a in h.blocks && h.blocks[a].free ==> h.blocks[a].size < need
    ensures match Scan(h, need)
      case None => true
      case Some(k) =>
        && h.blocks[h.order[k]].free && h.blocks[h.order[k]].size >= need
        && (forall a :: a in h.blocks && h.blocks[a].free && h.blocks[a].size >= need ==>
          h.blocks[h.order[k]].size <= h.blocks[a].size)
        && (forall j :: 0 <= j < k && h.order[j] in h.blocks && h.blocks[h.order[j]].size >= need ==>
          h.blocks[h.order[k]].size < h.blocks[h.order[j]].size)
  {
    Listed(h);
    BestFits(h.order, h.blocks, need);
    forall a | a in h.blocks && h.blocks[a].free ensures exists j :: 0 <= j < |h.order| && h.order[j] == a {
      assert a in h.order;
    }
  }

  /** The largest request whose rounded size fits an int16_t. */
  const MAX_REQUEST := 32760

  /** Above MAX_REQUEST the rounded size wraps to a negative number, which every
      free block satisfies: the scan is honest exactly up to MAX_REQUEST, or when
      nothing is free. */
  lemma HonestUpToWrap(h: Heap, size: int)
    requires Wf(h) && 0 < size <= 32767
    ensures Need16(size) == Need(size) <==> size <= MAX_REQUEST
    ensures Scan(h, Need16(size)) == Scan(h, Need(size)) <==> size <= MAX_REQUEST || h.order == []
  {
    if size > MAX_REQUEST {
      assert Need16(size) < 0;
      ScanHonest(h, Need(size));
      ScanHonest(h, Need16(size));
      Listed(h);
      assert forall a :: a in h.blocks ==> 0 <= h.blocks[a].size < Need(size);
    }
  }

  /** What the wrap does: with anything free the request is served all the same, and the
      address handed out lies behind the block it is cut from. */
  lemma WrapEscapes(h: Heap, size: int)
    requires Wf(h) && MAX_REQUEST < size <= 32767 && h.order != []
    ensures var need := Need16(size); var k := Scan(h, need);
      && need < 0 && k.Some? && GetAt(h, k.value, need).1 > h.order[k.value] + h.blocks[h.order[k.value]].size
  {
    var need := Need16(size);
    Listed(h);
    ScanHonest(h, need);
    assert need <= -32764;
    var b := h.order[0];
    assert b in h.blocks && h.blocks[b].free && h.blocks[b].size >= 0;
    assert Scan(h, need).Some?;
    var a := h.order[Scan(h, need).value];
    assert h.blocks[a].size >= 0;
  }

  /** A served request: the block handed out is new to the callers, overlaps none
      they hold, is at most 12 bytes larger than needed, and its bytes leave the
      free space. */
  lemma {:induction false} GetAtServes(h: Heap, k: nat, need: int)
    requires Wf(h) && k < |h.order| && need >= MIN_BLOCK && need % SIZE_QUANT == 0
    requires h.order[k] in h.blocks && h.blocks[h.order[k]].size >= need
    ensures var (d, a) := GetAt(h, k, need);
      && Wf(d) && a in d.blocks && !d.blocks[a].free && a !in Live(h.blocks)
      && need <= d.blocks[a].size <= need + SIZE_Q + HEADER
      && Live(d.blocks) == Live(h.blocks)[a := d.blocks[a].size]
      && (forall x :: x in Live(h.blocks) ==> x + Live(h.blocks)[x] <= a || a + d.blocks[a].size <= x)
      && FreeBytes(d) == FreeBytes(h) - d.blocks[a].size
  {
    GetAtWf(h, k, need);
    var b := h.order[k];
    var (d, a) := GetAt(h, k, need);
    Listed(h);
    Listed(d);
    if h.blocks[b].size - need > SIZE_Q + HEADER {
      assert a !in h.blocks;
      SizesChange(h.order, h.blocks, d.blocks, k);
    } else {
      SizesDrop(h.order, h.blocks, k);
      SizesAgree(Drop(h.order, k), h.blocks, d.blocks);
    }
  }

  /** The same for a request in bytes: what bget promises whoever calls it. */
  lemma {:induction false} GetServes(h: Heap, size: int)
    requires Wf(h) && 0 < size
    ensures var (d, r) := Get(h, Need(size));
      if r.None? then
        d == h && forall a :: a in h.blocks && h.blocks[a].free ==> h.blocks[a].size < Need(size)
      else var a := r.value;
        && Wf(d) && d.limit == h.limit && a in Live(d.blocks) && a !in Live(h.blocks)
        && size + HEADER <= Need(size) <= Live(d.blocks)[a] <= Need(size) + SIZE_Q + HEADER
        && Live(d.blocks) == Live(h.blocks)[a := Live(d.blocks)[a]]
        && (forall x :: x in Live(h.blocks) ==> x + Live(h.blocks)[x] <= a || a + Live(d.blocks)[a] <= x)
        && FreeBytes(d) == FreeBytes(h) - Live(d.blocks)[a]
  {
    NeedFits(size);
    ScanHonest(h, Need(size));
    if Scan(h, Need(size)).Some? {
      GetAtServes(h, Scan(h, Need(size)).value, Need(size));
    }
  }

  /** A release takes exactly its block from what the callers hold, and gives its
      bytes back. */
  lemma {:induction false} ReleaseFrees(h: Heap, a: int)
    requires Wf(h) && a in h.blocks && !h.blocks[a].free
    ensures Wf(Release(h, a))
    ensures Live(Release(h, a).blocks) == Live(h.blocks) - {a}
    ensures FreeBytes(Release(h, a)) == FreeBytes(h) + h.blocks[a].size
  {
    ReleaseWf(h, a);
    FreeDownWf(h, a);
    var (d, b) := FreeDown(h, a);
    FreeDownLive(h, a);
    FreeDownFrees(h, a);
    JoinUpFrees(d, b);
  }

  lemma {:induction false} FreeDownLive(h: Heap, a: int)
    requires Wf(h) && a in h.blocks && !h.blocks[a].free
    requires Loose(FreeDown(h, a).0)
    ensures Live(FreeDown(h, a).0.blocks) == Live(h.blocks) - {a}
  {
    hide Tiled, Lists;
  }

  lemma SwallowedFrees(h: Heap, a: int, q: int, d: Heap)
    requires Loose(h) && Loose(d) && a in h.blocks && q in h.order && q in h.blocks && q != a
    requires d.order == h.order && d.blocks == Merge(h.blocks, q, a) && a !in h.order
    ensures FreeBytes(d) == FreeBytes(h) + h.blocks[a].size
  {
    hide Tiled;
    Listed(h);
    Listed(d);
    SizesChange(h.order, h.blocks, d.blocks, Pos(h.order, q));
  }

  lemma EnteredFrees(h: Heap, a: int, d: Heap)
    requires Loose(h) && Loose(d) && a in h.blocks && a !in h.order
    requires d.order == h.order + [a] && d.blocks == h.blocks[a := h.blocks[a].(free := true)]
    ensures FreeBytes(d) == FreeBytes(h) + h.blocks[a].size
  {
    hide Tiled;
    Listed(h);
    Listed(d);
    assert d.order[..|h.order|] == h.order;
    SizesAgree(h.order, h.blocks, d.blocks);
  }

  lemma {:induction false} FreeDownFrees(h: Heap, a: int)
    requires Wf(h) && a in h.blocks && !h.blocks[a].free
    requires Loose(FreeDown(h, a).0)
    ensures FreeBytes(FreeDown(h, a).0) == FreeBytes(h) + h.blocks[a].size
  {
    hide Tiled, FreeBytes;
    match Below(h.blocks, a)
    case Some(q) => SwallowedFrees(h, a, q, FreeDown(h, a).0);
    case None => EnteredFrees(h, a, FreeDown(h, a).0);
  }

  lemma JoinUpFrees(h: Heap, b: int)
    requires Loose(h) && b in h.blocks && h.blocks[b].free && Loose(JoinUp(h, b))
    ensures Live(JoinUp(h, b).blocks) == Live(h.blocks)
    ensures FreeBytes(JoinUp(h, b)) == FreeBytes(h)
  {
    var n := End(h.blocks, b);
    var d := JoinUp(h, b);
    Listed(h);
    Listed(d);
    if n in h.blocks && n in h.order {
      var k := Pos(h.order, n);
      SizesDrop(h.order, h.blocks, k);
      assert b in d.order;
      SizesChange(d.order, h.blocks, d.blocks, Pos(d.order, b));
    }
  }

  // ---------------------------------------------------------------- canonical form

  /** From a on, two coalesced tilings that leave the callers the same blocks agree. */
  lemma {:induction false} SameFrom(m: Blocks, d: Blocks, limit: int, a: int)
    requires Tiled(m, limit) && Coalesced(m) && Tiled(d, limit) && Coalesced(d) && Live(m) == Live(d)
    requires a == limit || (a in m && a in d)
    ensures forall x :: a <= x ==> (x in m <==> x in d) && (x in m ==> m[x] == d[x])
    decreases limit - a
  {
    if a != limit {
      assert a in Live(m) <==> a in Live(d);
      assert Followed(m, limit, a) && Followed(d, limit, a);
      assert End(m, a) in Live(m) <==> End(m, a) in Live(d);
      assert End(d, a) in Live(m) <==> End(d, a) in Live(d);
      SameFrom(m, d, limit, End(m, a));
    }
  }

  /** Coalescing is canonical: the free blocks are exactly the gaps the live blocks
      leave, so what the callers hold determines the whole tiling. */
  lemma Canonical(h: Heap, g: Heap)
    requires Wf(h) && Wf(g) && h.limit == g.limit && Live(h.blocks) == Live(g.blocks)
    ensures h.blocks == g.blocks
    ensures multiset(h.order) == multiset(g.order)
  {
    SameFrom(h.blocks, g.blocks, h.limit, 0);
    forall x ensures x in h.blocks <==> x in g.blocks {
      assert x in h.blocks || x in g.blocks ==> 0 <= x;
    }
    assert h.blocks.Keys == g.blocks.Keys;
    forall x | x in h.blocks ensures h.blocks[x] == g.blocks[x] {}
    assert forall x :: x in h.order <==> x in g.order;
    SameBag(h.order, g.order);
  }

  lemma FirstIn<T>(t: seq<T>) returns (x: T)
    requires t != []
    ensures x in t
  {
    x := t[0];
  }

  lemma {:induction false} SameBag(s: seq<int>, t: seq<int>)
    requires Distinct(s) && Distinct(t) && forall x :: x in s <==> x in t
    ensures multiset(s) == multiset(t)
  {
    if s == [] {
      if t != [] {
        var x := FirstIn(t);
        assert false;
      }
    } else {
      var n := |s| - 1;
      assert s[n] in s;
      var k := Pos(t, s[n]);
      assert s == s[..n] + [s[n]];
      assert t == t[..k] + [t[k]] + t[k + 1..];
      forall x ensures x in s[..n] <==> x in Drop(t, k) {
        DropMembers(t, k, x);
        DropMembers(s, n, x);
        assert Drop(s, n) == s[..n];
      }
      SameBag(s[..n], Drop(t, k));
    }
  }

  /** Releasing a block just handed out restores the tiling, however the request
      split it. */
  lemma {:induction false} ReleaseUndoesGet(h: Heap, size: int)
    requires Wf(h) && 0 < size && Get(h, Need(size)).1.Some?
    ensures var (d, r) := Get(h, Need(size));
      && r.value in d.blocks && Release(d, r.value).blocks == h.blocks
      && multiset(Release(d, r.value).order) == multiset(h.order)
  {
    GetServes(h, size);
    var (d, r) := Get(h, Need(size));
    var a := r.value;
    ReleaseFrees(d, a);
    assert Live(Release(d, a).blocks) == Live(h.blocks) by {
      assert Live(h.blocks)[a := Live(d.blocks)[a]] - {a} == Live(h.blocks);
    }
    Canonical(Release(d, a), h);
  }

  // ---------------------------------------------------------------- runs

  /** The pool as bpool leaves it. */
  function Fresh(limit: int): Heap {
    Heap(map[0 := Block(limit, true)], [0], limit)
  }

  lemma FreshWf(limit: int)
    requires MIN_BLOCK <= limit <= MAX_POOL - HEADER && limit % SIZE_QUANT == 0
    ensures Wf(Fresh(limit)) && FreeBytes(Fresh(limit)) == limit && Live(Fresh(limit).blocks) == map[]
  {
    assert Followed(Fresh(limit).blocks, limit, 0);
    var h := Fresh(limit);
    assert h.order[..|h.order| - 1] == [];
    assert Sizes(h.order, h.blocks) == h.blocks[0].size;
    Listed(Fresh(limit));
  }

  ghost predicate Held(h: Heap, bufs: seq<int>) {
    Distinct(bufs) && forall a :: a in bufs ==> a in h.blocks && !h.blocks[a].free
  }

  ghost function ReleaseAll(h: Heap, bufs: seq<int>): Heap
    requires Wf(h) && Held(h, bufs)
    ensures Wf(ReleaseAll(h, bufs)) && ReleaseAll(h, bufs).limit == h.limit
    decreases |bufs|
  {
    if bufs == [] then h else
      var d := Release(h, bufs[0]);
      ReleaseFrees(h, bufs[0]);
      StillHeld(h, bufs);
      ReleaseAll(d, bufs[1..])
  }

  lemma StillHeld(h: Heap, bufs: seq<int>)
    requires Wf(h) && Held(h, bufs) && bufs != []
    ensures Held(Release(h, bufs[0]), bufs[1..])
  {
    ReleaseFrees(h, bufs[0]);
    forall a | a in bufs[1..] ensures a in Release(h, bufs[0]).blocks && !Release(h, bufs[0]).blocks[a].free {
      assert a in Live(h.blocks) && a != bufs[0];
      assert a in Live(Release(h, bufs[0]).blocks);
    }
  }

  lemma {:induction false} ReleaseAllFrees(h: Heap, bufs: seq<int>)
    requires Wf(h) && Held(h, bufs)
    ensures Live(ReleaseAll(h, bufs).blocks) == Live(h.blocks) - (set a | a in bufs)
    decreases |bufs|
  {
    hide Release;
    if bufs != [] {
      ReleaseFrees(h, bufs[0]);
      StillHeld(h, bufs);
      ReleaseAllFrees(Release(h, bufs[0]), bufs[1..]);
      assert (set a | a in bufs) == {bufs[0]} + (set a | a in bufs[1..]);
    }
  }

  /** Releases commute: the same buffers released in any order leave the same pool. */
  lemma {:induction false} ReleaseOrderIrrelevant(h: Heap, bufs: seq<int>, again: seq<int>)
    requires Wf(h) && Held(h, bufs) && Held(h, again) && multiset(bufs) == multiset(again)
    ensures ReleaseAll(h, bufs).blocks == ReleaseAll(h, again).blocks
    ensures multiset(ReleaseAll(h, bufs).order) == multiset(ReleaseAll(h, again).order)
  {
    ReleaseAllFrees(h, bufs);
    ReleaseAllFrees(h, again);
    assert forall a :: a in bufs <==> a in multiset(bufs);
    assert forall a :: a in again <==> a in multiset(again);
    assert (set a | a in bufs) == (set a | a in again);
    Canonical(ReleaseAll(h, bufs), ReleaseAll(h, again));
  }

  datatype Op = Request(size: int) | Free(a: int)

  /** A run of the allocator with the totalloc counter bget and brel keep. */
  datatype Run = Run(heap: Heap, totalloc: int)

  /** Requests are positive and do not wrap, and only a block that is held is released. */
  ghost predicate Legal(s: Run, op: Op) {
    match op
    case Request(size) => 0 < size <= MAX_REQUEST
    case Free(a) => a in s.heap.blocks && !s.heap.blocks[a].free
  }

  ghost function Step(s: Run, op: Op): Run
    requires Wf(s.heap) && Legal(s, op)
  {
    match op
    case Request(size) =>
      (match Get(s.heap, Need(size))
       case (_, None) => s
       case (d, Some(a)) => Run(d, s.totalloc + if a in d.blocks then d.blocks[a].size else 0))
    case Free(a) => Run(Release(s.heap, a), s.totalloc - s.heap.blocks[a].size)
  }

  ghost predicate Sound(s: Run) {
    Wf(s.heap) && s.totalloc + FreeBytes(s.heap) == s.heap.limit
  }

  lemma {:induction false} StepSound(s: Run, op: Op)
    requires Sound(s) && Legal(s, op)
    ensures Sound(Step(s, op)) && Step(s, op).heap.limit == s.heap.limit
  {
    match op {
      case Request(size) =>
        GetServes(s.heap, size);
      case Free(a) =>
        ReleaseFrees(s.heap, a);
    }
  }

  ghost predicate StepAt(ops: seq<Op>, ss: seq<Run>, i: nat)
    requires i < |ops| && |ss| == |ops| + 1
  {
    Wf(ss[i].heap) ==> Legal(ss[i], ops[i]) && ss[i + 1] == Step(ss[i], ops[i])
  }

  /** ss is a run from the pool bpool makes: it starts there, and each state but the
      first is the legal step ops names. */
  ghost predicate IsRun(limit: int, ops: seq<Op>, ss: seq<Run>) {
    && |ss| == |ops| + 1 && ss[0] == Run(Fresh(limit), 0)
    && (forall i :: 0 <= i < |ops| ==> StepAt(ops, ss, i))
  }

  /** Every state of every run is well formed and conserves the bytes: what
      totalloc counts and what bstats sums along the list is the pool, and
      totalloc is the sum of the blocks that the callers hold. */
  lemma {:induction false} RunSound(limit: int, ops: seq<Op>, ss: seq<Run>, i: nat)
    requires MIN_BLOCK <= limit <= MAX_POOL - HEADER && limit % SIZE_QUANT == 0
    requires IsRun(limit, ops, ss) && i < |ss|
    ensures Sound(ss[i]) && ss[i].heap.limit == limit && ss[i].totalloc == LiveBytes(ss[i].heap)
  {
    if i == 0 {
      FreshWf(limit);
    } else {
      RunSound(limit, ops, ss, i - 1);
      assert StepAt(ops, ss, i - 1);
      StepSound(ss[i - 1], ops[i - 1]);
    }
    Accounts(ss[i].heap);
  }

  /** Whenever everything has been released, the pool is one free block again and
      the counter is back at 0. */
  lemma AllReleasedIsFresh(limit: int, ops: seq<Op>, ss: seq<Run>, i: nat)
    requires MIN_BLOCK <= limit <= MAX_POOL - HEADER && limit % SIZE_QUANT == 0
    requires IsRun(limit, ops, ss) && i < |ss| && Live(ss[i].heap.blocks) == map[]
    ensures ss[i].heap.blocks == map[0 := Block(limit, true)] && ss[i].totalloc == 0
  {
    RunSound(limit, ops, ss, i);
    FreshWf(limit);
    var h := ss[i].heap;
    Canonical(h, Fresh(limit));
    Listed(h);
    assert 0 in h.order && |h.order| == 1 by {
      assert |multiset(h.order)| == |multiset([0])|;
      assert 0 in multiset([0]);
    }
  }
}
