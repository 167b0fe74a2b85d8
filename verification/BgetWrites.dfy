/** What each path through bget and brel writes into memory, and why the memory
    then holds the next abstract heap. */
module BgetWrites {
  import opened Common
  import opened BgetHeap
  import opened BgetTheorems
  import opened BgetMemory

  // ------------------------------------------------- what a path through bget writes

  function SplitWrites(m: seq<Cell>, b: int, got: int, n: int): seq<Cell>
    requires 0 <= b < |m| && 0 <= got < |m| && 0 <= n < |m| && m[b].Header? && m[n].Header?
    requires b != got && n != got && n != b
  {
    m[b := m[b].(bsize := got - b)][got := Header(got - b, got - n)][n := m[n].(prevfree := 0)]
  }

  lemma SplitKeeps(m: seq<Cell>, h: Heap, b: int, got: int, m': seq<Cell>)
    requires Loose(h) && |m| == h.limit + HEADER + MIN_BLOCK && Linked(m, h.order, h.limit + HEADER)
    requires b in h.blocks && h.blocks[b].free && b + MIN_BLOCK <= got < End(h.blocks, b)
    requires m[b].Header? && m[End(h.blocks, b)].Header?
    requires m' == SplitWrites(m, b, got, End(h.blocks, b))
    ensures Linked(m', h.order, h.limit + HEADER) && Kept(m, m', Live(h.blocks))
  {
    var n := End(h.blocks, b);
    assert Followed(h.blocks, h.limit, b);
    var m1 := m[b := m[b].(bsize := got - b)];
    var m2 := m1[got := Header(got - b, got - n)];
    TagWrite(m, h, b, m1[b]);
    TagWrite(m1, h, got, m2[got]);
    TagWrite(m2, h, n, m'[n]);
    KeptTwice(m, m1, m2, Live(h.blocks));
    KeptTwice(m, m2, m', Live(h.blocks));
  }

  lemma {:induction false} SplitRep(m: seq<Cell>, h: Heap, k: nat, need: int, m': seq<Cell>)
    requires Loose(h) && Rep(m, h, None) && k < |h.order| && need >= MIN_BLOCK
    requires h.order[k] in h.blocks && h.blocks[h.order[k]].free && h.blocks[h.order[k]].size - need > SIZE_Q + HEADER
    requires var b := h.order[k]; var n := b + h.blocks[b].size; var got := n - need;
      && SizeOk(m, h.blocks, h.limit, b) && SizeOk(m, h.blocks, h.limit, n)
      && m' == SplitWrites(m, b, got, n)
    ensures Rep(m', GetAt(h, k, need).0, None) && Kept(m, m', Live(h.blocks))
  {
    var b := h.order[k];
    TagSplit(m, h.blocks, h.limit, b, need, Split(h.blocks, b, need), m');
    SplitKeeps(m, h, b, b + h.blocks[b].size - need, m');
  }

  lemma {:induction false} UnlinkKeeps(m: seq<Cell>, h: Heap, k: nat, but: Option<int>)
    requires Loose(h) && Rep(m, h, but) && k < |h.order| && Spread(m, h.order, h.limit + HEADER)
    ensures var m' := Unlink(m, h.order, h.limit + HEADER, k);
      && Tagged(m', h.blocks, h.limit, but) && Linked(m', Drop(h.order, k), h.limit + HEADER)
      && Kept(m, m', Live(h.blocks))
  {
    var f := h.limit + HEADER;
    var p, n := Node(h.order, f, k), Node(h.order, f, k + 2);
    Listed(h);
    UnlinkLinked(m, h.order, f, k);
    var m1 := m[p + 4 := Link(n)];
    LinkWrite(m, h, p, p + 4, Link(n), but);
    LinkWrite(m1, h, n, n + 8, Link(p), but);
    KeptTwice(m, m1, m1[n + 8 := Link(p)], Live(h.blocks));
  }

  /** Unlinking leaves every tag. */
  lemma UnlinkTags(m: seq<Cell>, h: Heap, k: nat, a: int)
    requires Loose(h) && k < |h.order| && Spread(m, h.order, h.limit + HEADER) && |m| == h.limit + HEADER + MIN_BLOCK
    requires a in h.blocks || a == h.limit
    ensures 0 <= a < |m| && Unlink(m, h.order, h.limit + HEADER, k)[a] == m[a]
  {
    TagIsNoLink(h, a);
  }

  function TakeWrites(m: seq<Cell>, b: int, n: int): seq<Cell>
    requires 0 <= b < n < |m| && m[b].Header? && m[n].Header?
  {
    m[b := m[b].(bsize := -m[b].bsize)][n := m[n].(prevfree := 0)]
  }

  lemma TakeKeeps(m: seq<Cell>, h: Heap, b: int, m': seq<Cell>)
    requires Loose(h) && |m| == h.limit + HEADER + MIN_BLOCK && Linked(m, h.order, h.limit + HEADER)
    requires b in h.blocks && m[b].Header? && m[End(h.blocks, b)].Header?
    requires m' == TakeWrites(m, b, End(h.blocks, b))
    ensures Linked(m', h.order, h.limit + HEADER) && Kept(m, m', Live(h.blocks))
  {
    var n := End(h.blocks, b);
    assert Followed(h.blocks, h.limit, b);
    var m1 := m[b := m[b].(bsize := -m[b].bsize)];
    TagWrite(m, h, b, m1[b]);
    TagWrite(m1, h, n, m'[n]);
    KeptTwice(m, m1, m', Live(h.blocks));
  }

  lemma {:induction false} TakeRep(m: seq<Cell>, h: Heap, k: nat, d: Heap, m': seq<Cell>)
    requires Loose(h) && Rep(m, h, None) && k < |h.order| && Spread(m, h.order, h.limit + HEADER) && Loose(d)
    requires h.order[k] in h.blocks && h.blocks[h.order[k]].free
    requires var b := h.order[k]; var n := End(h.blocks, b); var m1 := Unlink(m, h.order, h.limit + HEADER, k);
      && SizeOk(m1, h.blocks, h.limit, b) && SizeOk(m1, h.blocks, h.limit, n)
      && d == Heap(h.blocks[b := h.blocks[b].(free := false)], Drop(h.order, k), h.limit)
      && m' == TakeWrites(m1, b, n)
    ensures Rep(m', d, None) && Kept(m, m', Live(h.blocks))
  {
    var b, m1 := h.order[k], Unlink(m, h.order, h.limit + HEADER, k);
    UnlinkKeeps(m, h, k, None);
    TagTake(m1, h.blocks, h.limit, b, d.blocks, m');
    TakeKeeps(m1, d, b, m');
    KeptTwice(m, m1, m', Live(h.blocks));
  }

  // ------------------------------------------------- what bget may rely on at a free block

  /** order[k] is b, between its neighbours on the list. */
  ghost predicate OnList(m: seq<Cell>, order: seq<int>, f: int, k: nat, b: int) {
    && k < |order| && order[k] == b && Spread(m, order, f)
    && var p, n := Node(order, f, k), Node(order, f, k + 2);
      m[b + 4] == Link(n) && m[b + 8] == Link(p) && m[p + 4] == Link(b) && m[n + 8] == Link(b)
  }

  /** The free block at b ends at n, and both are tagged so. */
  ghost predicate FreeTags(m: seq<Cell>, b: int, n: int) {
    0 <= b && b + MIN_BLOCK <= n < |m| && m[b].Header? && m[b].bsize == n - b && m[n].Header? && m[n].prevfree == n - b
  }

  lemma AtFree(m: seq<Cell>, h: Heap, k: nat)
    requires Loose(h) && Tagged(m, h.blocks, h.limit, None) && k < |h.order| && |m| == h.limit + HEADER + MIN_BLOCK
    ensures var b := h.order[k];
      && b in h.blocks && h.blocks[b].free && (End(h.blocks, b) in h.blocks || End(h.blocks, b) == h.limit)
      && SizeOk(m, h.blocks, h.limit, b) && SizeOk(m, h.blocks, h.limit, End(h.blocks, b))
      && FreeTags(m, b, End(h.blocks, b))
  {
    Listed(h);
    var b := h.order[k];
    assert Followed(h.blocks, h.limit, b);
    assert SizeOk(m, h.blocks, h.limit, b) && SizeOk(m, h.blocks, h.limit, End(h.blocks, b));
    assert PrevOk(h.blocks, End(h.blocks, b), m[End(h.blocks, b)].prevfree);
    assert FreeBelow(h.blocks, b, End(h.blocks, b));
  }

  lemma IsOnList(m: seq<Cell>, h: Heap, f: int, k: nat)
    requires Loose(h) && |m| == h.limit + HEADER + MIN_BLOCK && f == h.limit + HEADER && Linked(m, h.order, f)
    requires k < |h.order|
    ensures OnList(m, h.order, f, k, h.order[k])
  {
    OrderSpread(m, h);
    assert Node(h.order, f, k + 1) == h.order[k];
    assert Follows(m, Node(h.order, f, k), Node(h.order, f, k + 1)) &&
      Follows(m, Node(h.order, f, k + 1), Node(h.order, f, k + 2));
  }

  /** The whole effect of handing out the top of order[k]. */
  lemma {:induction false} ServeTopEffect(m: seq<Cell>, h: Heap, k: nat, need: int, d: Heap)
    requires Wf(h) && Rep(m, h, None) && k < |h.order| && need >= MIN_BLOCK && need % SIZE_QUANT == 0
    requires h.order[k] in h.blocks && h.blocks[h.order[k]].size - need > SIZE_Q + HEADER && d == GetAt(h, k, need).0
    ensures var b := h.order[k]; var n := End(h.blocks, b);
      && 0 <= b && b + MIN_BLOCK < n - need && n < |m| && m[b].Header? && m[b].bsize == h.blocks[b].size
      && m[n].Header? && m[n].prevfree == m[b].bsize
      && Wf(d) && FreeBytes(d) == FreeBytes(h) - need && d.limit == h.limit
      && Rep(SplitWrites(m, b, n - need, n), d, None) && Kept(m, SplitWrites(m, b, n - need, n), Live(h.blocks))
  {
    var b := h.order[k];
    AtFree(m, h, k);
    GetAtServes(h, k, need);
    SplitRep(m, h, k, need, SplitWrites(m, b, End(h.blocks, b) - need, End(h.blocks, b)));
  }

  /** The whole effect of handing out all of order[k]; m1 is the memory once it is unlinked. */
  lemma {:induction false} ServeWholeEffect(m: seq<Cell>, h: Heap, k: nat, need: int, d: Heap, m1: seq<Cell>, b: int,
      n: int)
    requires Wf(h) && Rep(m, h, None) && k < |h.order| && need >= MIN_BLOCK && need % SIZE_QUANT == 0
    requires b == h.order[k] && b in h.blocks && 0 <= h.blocks[b].size - need <= SIZE_Q + HEADER
    requires d == GetAt(h, k, need).0
    requires n == End(h.blocks, b) && 0 <= b < n < |m|
    requires Spread(m, h.order, h.limit + HEADER) && m1 == Unlink(m, h.order, h.limit + HEADER, k)
    requires SizeOk(m1, h.blocks, h.limit, b) && SizeOk(m1, h.blocks, h.limit, n)
    ensures Wf(d) && FreeBytes(d) == FreeBytes(h) - h.blocks[b].size && d.limit == h.limit
    ensures Rep(TakeWrites(m1, b, n), d, None) && Kept(m, TakeWrites(m1, b, n), Live(h.blocks))
  {
    GetAtServes(h, k, need);
    Listed(h);
    TakeRep(m, h, k, d, TakeWrites(m1, b, n));
  }

  // ------------------------------------------------- what a path through brel writes

  /** The four link writes of an entry, last being the node the list ended with. */
  lemma EnterWrites(m: seq<Cell>, h: Heap, last: int, b: int, but: Option<int>)
    requires Loose(h) && |m| == h.limit + HEADER + MIN_BLOCK && Tagged(m, h.blocks, h.limit, but)
    requires b in h.blocks && h.blocks[b].free
    requires last == h.limit + HEADER || (last in h.blocks && h.blocks[last].free)
    ensures var f := h.limit + HEADER;
      var m' := m[b + 4 := Link(f)][b + 8 := Link(last)][f + 8 := Link(b)][last + 4 := Link(b)];
      Tagged(m', h.blocks, h.limit, but) && Kept(m, m', Live(h.blocks))
  {
    hide Tagged;
    var f := h.limit + HEADER;
    var m1 := m[b + 4 := Link(f)];
    var m2 := m1[b + 8 := Link(last)];
    var m3 := m2[f + 8 := Link(b)];
    LinkWrite(m, h, b, b + 4, Link(f), but);
    LinkWrite(m1, h, b, b + 8, Link(last), but);
    LinkWrite(m2, h, f, f + 8, Link(b), but);
    LinkWrite(m3, h, last, last + 4, Link(b), but);
    KeptTwice(m, m1, m2, Live(h.blocks));
    KeptTwice(m, m2, m3, Live(h.blocks));
    KeptTwice(m, m3, m3[last + 4 := Link(b)], Live(h.blocks));
  }

  lemma {:induction false} EnterKeeps(m: seq<Cell>, h: Heap, before: seq<int>, b: int, but: Option<int>)
    requires Loose(h) && |m| == h.limit + HEADER + MIN_BLOCK && h.order == before + [b]
    requires Tagged(m, h.blocks, h.limit, but) && Spread(m, before, h.limit + HEADER)
    requires Linked(m, before, h.limit + HEADER) && 0 <= b && b + MIN_BLOCK <= h.limit + HEADER
    requires forall k :: 0 <= k < |before| ==> before[k] + MIN_BLOCK <= b || b + MIN_BLOCK <= before[k]
    ensures var m' := Enter(m, before, h.limit + HEADER, b); Rep(m', h, but) && Kept(m, m', Live(h.blocks))
  {
    EnterLinked(m, before, h.limit + HEADER, b);
    Listed(h);
    assert h.order[|before|] == b;
    assert |before| > 0 ==> before[|before| - 1] == h.order[|before| - 1];
    EnterWrites(m, h, Node(before, h.limit + HEADER, |before|), b, but);
  }

  /** Nothing free below: the block enters the list. */
  lemma {:induction false} EnterRep(m: seq<Cell>, h: Heap, a: int, d: Heap, m': seq<Cell>)
    requires Loose(h) && Rep(m, h, None) && Loose(d) && a in h.blocks && !h.blocks[a].free
    requires SizeOk(m, h.blocks, h.limit, a)
    requires d == Heap(h.blocks[a := h.blocks[a].(free := true)], h.order + [a], h.limit)
    requires Spread(m, h.order, h.limit + HEADER) && a + MIN_BLOCK <= h.limit + HEADER
    requires m' == Enter(m[a := m[a].(bsize := h.blocks[a].size)], h.order, h.limit + HEADER, a)
    ensures Rep(m', d, Some(End(h.blocks, a))) && Kept(m, m', Live(d.blocks))
  {
    hide Enter, Node, Lists;
    var m1 := m[a := m[a].(bsize := h.blocks[a].size)];
    TagFree(m, h.blocks, h.limit, a, d.blocks, m1);
    TagWrite(m, h, a, m1[a]);
    Listed(h);
    EnterKeeps(m1, d, h.order, a, Some(End(h.blocks, a)));
    KeptLess(m, m1, h, d);
    KeptTwice(m, m1, m', Live(d.blocks));
  }

  lemma KeptLess(m: seq<Cell>, m': seq<Cell>, h: Heap, d: Heap)
    requires Kept(m, m', Live(h.blocks))
    requires forall a :: a in d.blocks && !d.blocks[a].free ==> a in h.blocks && h.blocks[a] == d.blocks[a]
    ensures Kept(m, m', Live(d.blocks))
  {
    var less, more := Live(d.blocks), Live(h.blocks);
    forall a | a in less ensures a in more && more[a] == less[a] {}
  }

  /** The block below is free: it grows over the released one. */
  lemma {:induction false} GrowRep(m: seq<Cell>, h: Heap, q: int, a: int, d: Heap, m': seq<Cell>)
    requires Loose(h) && Rep(m, h, None) && Loose(d) && q in h.blocks && h.blocks[q].free
    requires a in h.blocks && a == End(h.blocks, q) && SizeOk(m, h.blocks, h.limit, q)
    requires d == Heap(Merge(h.blocks, q, a), h.order, h.limit)
    requires m' == m[q := m[q].(bsize := h.blocks[q].size + h.blocks[a].size)]
    ensures Rep(m', d, Some(End(h.blocks, a))) && Kept(m, m', Live(d.blocks))
  {
    TagMerge(m, h.blocks, h.limit, q, a, None, d.blocks, m');
    TagWrite(m, h, q, m'[q]);
    KeptLess(m, m', h, d);
  }

  lemma {:induction false} JoinGrows(m: seq<Cell>, h: Heap, b: int, n: int, d: Heap, m': seq<Cell>)
    requires Loose(h) && Loose(d) && n in h.blocks && b in h.blocks && h.blocks[b].free && n == End(h.blocks, b)
    requires Tagged(m, h.blocks, h.limit, Some(n)) && Linked(m, d.order, h.limit + HEADER)
    requires |m| == h.limit + HEADER + MIN_BLOCK
    requires d.blocks == Merge(h.blocks, b, n) && d.limit == h.limit
    requires SizeOk(m, h.blocks, h.limit, b) && m' == m[b := m[b].(bsize := h.blocks[b].size + h.blocks[n].size)]
    ensures Rep(m', d, Some(End(h.blocks, n))) && Kept(m, m', Live(d.blocks))
  {
    TagMerge(m, h.blocks, h.limit, b, n, Some(n), d.blocks, m');
    TagWrite(m, d, b, m'[b]);
  }

  /** The block above is free: it leaves the list and the lower one grows over it. */
  lemma {:induction false} JoinRep(m: seq<Cell>, h: Heap, b: int, n: int, k: nat, d: Heap, m1: seq<Cell>, m': seq<Cell>)
    requires Loose(h) && n in h.blocks && Rep(m, h, Some(n)) && Loose(d) && b in h.blocks && h.blocks[b].free
    requires n == End(h.blocks, b) && k < |h.order| && h.order[k] == n && Spread(m, h.order, h.limit + HEADER)
    requires d == Heap(Merge(h.blocks, b, n), Drop(h.order, k), h.limit)
    requires m1 == Unlink(m, h.order, h.limit + HEADER, k)
    requires SizeOk(m1, h.blocks, h.limit, b) && m' == m1[b := m1[b].(bsize := h.blocks[b].size + h.blocks[n].size)]
    ensures Rep(m', d, Some(End(h.blocks, n))) && Kept(m, m', Live(d.blocks))
  {
    UnlinkKeeps(m, h, k, Some(n));
    JoinGrows(m1, h, b, n, d, m');
    KeptLess(m, m1, h, d);
    KeptTwice(m, m1, m', Live(d.blocks));
  }

  /** The back link above the freed block is set: the heap is whole again. */
  lemma CloseRep(m: seq<Cell>, h: Heap, b: int, m': seq<Cell>)
    requires Loose(h) && b in h.blocks && h.blocks[b].free && Rep(m, h, Some(End(h.blocks, b)))
    requires SizeOk(m, h.blocks, h.limit, End(h.blocks, b))
    requires m' == m[End(h.blocks, b) := m[End(h.blocks, b)].(prevfree := h.blocks[b].size)]
    ensures Rep(m', h, None) && Kept(m, m', Live(h.blocks))
  {
    assert Followed(h.blocks, h.limit, b);
    TagClose(m, h.blocks, h.limit, b, m');
    TagWrite(m, h, End(h.blocks, b), m'[End(h.blocks, b)]);
  }

  /** A heap between the two halves of a release: only the block at b may have a
      free block above it, and only the back link above it may be stale. */
  ghost predicate Half(m: seq<Cell>, h: Heap, b: int) {
    && Loose(h) && Quantised(h.blocks) && b in h.blocks && h.blocks[b].free && CoalescedBut(h.blocks, b)
    && Rep(m, h, Some(End(h.blocks, b)))
  }

  /** What brel finds at an allocated block. */
  lemma AtLive(m: seq<Cell>, h: Heap, a: int)
    requires Wf(h) && Rep(m, h, None) && a in h.blocks && !h.blocks[a].free
    ensures var n := End(h.blocks, a);
      && 0 <= a < n < |m| && SizeOk(m, h.blocks, h.limit, a) && m[n].Header? && m[n].prevfree == 0
      && (if m[a].prevfree == 0 then Below(h.blocks, a) == None else
          && Below(h.blocks, a) == Some(a - m[a].prevfree)
          && SizeOk(m, h.blocks, h.limit, a - m[a].prevfree) && m[a - m[a].prevfree].bsize == m[a].prevfree)
  {
    var n := End(h.blocks, a);
    assert Followed(h.blocks, h.limit, a);
    assert SizeOk(m, h.blocks, h.limit, a) && SizeOk(m, h.blocks, h.limit, n);
    assert PrevOk(h.blocks, a, m[a].prevfree) && PrevOk(h.blocks, n, m[n].prevfree);
    if m[a].prevfree != 0 {
      assert SizeOk(m, h.blocks, h.limit, a - m[a].prevfree);
    }
  }

  lemma {:induction false} GrowEffect(m: seq<Cell>, h: Heap, a: int, q: int, d: Heap, m': seq<Cell>)
    requires Wf(h) && Rep(m, h, None) && a in h.blocks && !h.blocks[a].free && Below(h.blocks, a) == Some(q)
    requires SizeOk(m, h.blocks, h.limit, q) && d == FreeDown(h, a).0
    requires m' == m[q := m[q].(bsize := h.blocks[q].size + h.blocks[a].size)]
    ensures Half(m', d, q) && FreeBytes(d) == FreeBytes(h) + h.blocks[a].size && Kept(m, m', Live(d.blocks))
  {
    FreeDownWf(h, a);
    FreeDownFrees(h, a);
    GrowRep(m, h, q, a, d, m');
  }

  lemma {:induction false} EnterEffect(m: seq<Cell>, h: Heap, a: int, d: Heap, m': seq<Cell>)
    requires Wf(h) && Rep(m, h, None) && a in h.blocks && !h.blocks[a].free && Below(h.blocks, a) == None
    requires SizeOk(m, h.blocks, h.limit, a) && d == FreeDown(h, a).0 && Spread(m, h.order, h.limit + HEADER)
    requires 0 <= a && a + MIN_BLOCK <= h.limit + HEADER
    requires m' == Enter(m[a := m[a].(bsize := h.blocks[a].size)], h.order, h.limit + HEADER, a)
    ensures Half(m', d, a) && FreeBytes(d) == FreeBytes(h) + h.blocks[a].size && Kept(m, m', Live(d.blocks))
  {
    FreeDownWf(h, a);
    FreeDownFrees(h, a);
    EnterRep(m, h, a, d, m');
  }

  /** What brel finds above the block it freed. */
  lemma AtHalf(m: seq<Cell>, h: Heap, b: int)
    requires Half(m, h, b)
    ensures var n := End(h.blocks, b);
      && 0 <= b < n < |m| && SizeOk(m, h.blocks, h.limit, b) && SizeOk(m, h.blocks, h.limit, n)
      && (m[n].bsize > 0 <==> n in h.blocks && n in h.order)
      && (n in h.order ==> FreeTags(m, n, End(h.blocks, n)) && m[End(h.blocks, n)].bsize < 0)
  {
    var n := End(h.blocks, b);
    assert Followed(h.blocks, h.limit, b);
    assert SizeOk(m, h.blocks, h.limit, b) && SizeOk(m, h.blocks, h.limit, n);
    if n in h.order {
      var e := End(h.blocks, n);
      assert Followed(h.blocks, h.limit, n);
      assert SizeOk(m, h.blocks, h.limit, e) && FreeBelow(h.blocks, n, e);
      assert PrevOk(h.blocks, e, m[e].prevfree);
    }
  }

  /** What absorbing the free block above makes of the heap. */
  lemma {:induction false} AbsorbHeap(h: Heap, b: int, n: int, d: Heap)
    requires Loose(h) && Quantised(h.blocks) && b in h.blocks && h.blocks[b].free && CoalescedBut(h.blocks, b)
    requires n == End(h.blocks, b) && n in h.blocks && n in h.order && d == JoinUp(h, b)
    ensures Wf(d) && FreeBytes(d) == FreeBytes(h) && d.limit == h.limit
    ensures d == Heap(Merge(h.blocks, b, n), Drop(h.order, Pos(h.order, n)), h.limit)
    ensures b in d.blocks && d.blocks[b].free && CoalescedBut(d.blocks, b) && End(d.blocks, b) == End(h.blocks, n)
  {
    JoinUpWf(h, b);
    JoinUpFrees(h, b);
  }

  /** What brel finds there: the block on its list, and tags that unlinking leaves. */
  lemma {:induction false} AbsorbStart(m: seq<Cell>, h: Heap, f: int, b: int, n: int, k: nat)
    requires Half(m, h, b) && n == End(h.blocks, b) && n in h.blocks && n in h.order && f == h.limit + HEADER
    requires k == Pos(h.order, n)
    ensures OnList(m, h.order, f, k, n) && FreeTags(m, n, End(h.blocks, n))
    ensures SizeOk(m, h.blocks, h.limit, b) && 0 <= n < |m|
    ensures Unlink(m, h.order, f, k)[b] == m[b] && Unlink(m, h.order, f, k)[n] == m[n]
  {
    AtHalf(m, h, b);
    IsOnList(m, h, f, k);
    UnlinkTags(m, h, k, b);
    UnlinkTags(m, h, k, n);
  }

  /** And of the memory; m1 is the memory once the block above is unlinked. */
  lemma {:induction false} AbsorbEffect(m: seq<Cell>, h: Heap, b: int, n: int, k: nat, d: Heap, m1: seq<Cell>,
      m': seq<Cell>)
    requires Half(m, h, b) && n == End(h.blocks, b) && n in h.blocks && n in h.order && k == Pos(h.order, n)
    requires Wf(d) && d == Heap(Merge(h.blocks, b, n), Drop(h.order, k), h.limit)
    requires b in d.blocks && d.blocks[b].free && CoalescedBut(d.blocks, b) && End(d.blocks, b) == End(h.blocks, n)
    requires Spread(m, h.order, h.limit + HEADER) && m1 == Unlink(m, h.order, h.limit + HEADER, k)
    requires SizeOk(m1, h.blocks, h.limit, b) && m' == m1[b := m1[b].(bsize := h.blocks[b].size + h.blocks[n].size)]
    ensures Half(m', d, b) && Kept(m, m', Live(d.blocks))
  {
    JoinRep(m, h, b, n, k, d, m1, m');
  }

  /** What absorbing the free block above writes, and what that makes of the heap. */
  lemma {:induction false} AbsorbPlan(m: seq<Cell>, h: Heap, f: int, b: int, n: int)
      returns (k: nat, end: int, m1: seq<Cell>, m': seq<Cell>, d: Heap)
    requires Half(m, h, b) && n == End(h.blocks, b) && n in h.blocks && n in h.order && f == h.limit + HEADER
    ensures OnList(m, h.order, f, k, n) && FreeTags(m, n, end)
    ensures 0 <= b < |m| && m[b].Header? && m1 == Unlink(m, h.order, f, k) && m1[b] == m[b] && m1[n] == m[n]
    ensures m' == m1[b := m1[b].(bsize := m1[b].bsize + (end - n))]
    ensures d == JoinUp(h, b) && d.limit == h.limit && Wf(d) && FreeBytes(d) == FreeBytes(h)
    ensures Half(m', d, b) && Kept(m, m', Live(d.blocks))
  {
    hide Loose, Sizes;
    k, end, d := Pos(h.order, n), End(h.blocks, n), JoinUp(h, b);
    AbsorbStart(m, h, f, b, n, k);
    m1 := Unlink(m, h.order, f, k);
    m' := m1[b := m1[b].(bsize := h.blocks[b].size + h.blocks[n].size)];
    AbsorbHeap(h, b, n, d);
    AbsorbEffect(m, h, b, n, k, d, m1, m');
  }
}
