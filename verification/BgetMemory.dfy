/** How an abstract heap lies in memory: boundary tags in front of every block,
    links in the first bytes of every free one, the callers' bytes everywhere
    else, all in one address space. */
module BgetMemory {
  import opened Common
  import opened BgetHeap
  import opened BgetTheorems

  const E_SENT := -32768

  /** What a byte address holds: the first byte of a struct bhead, the first byte
      of a link, or a byte of somebody's data. */
  datatype Cell = Header(prevfree: int, bsize: int) | Link(addr: int) | Data(value: byte)

  // ---------------------------------------------------------------- tags

  function Signed(bs: Blocks, limit: int, a: int): int {
    if a !in bs then E_SENT else if bs[a].free then bs[a].size else -bs[a].size
  }

  /** pf is the back link that belongs at a. */
  ghost predicate PrevOk(bs: Blocks, a: int, pf: int) {
    if pf == 0 then forall q :: !FreeBelow(bs, q, a) else FreeBelow(bs, a - pf, a)
  }

  ghost predicate SizeOk(m: seq<Cell>, bs: Blocks, limit: int, a: int) {
    0 <= a < |m| && m[a].Header? && m[a].bsize == Signed(bs, limit, a)
  }

  /** Every block and the sentinel is tagged; the back link at but may be stale. */
  ghost predicate Tagged(m: seq<Cell>, bs: Blocks, limit: int, but: Option<int>) {
    && (forall a {:trigger SizeOk(m, bs, limit, a)} :: a in bs || a == limit ==> SizeOk(m, bs, limit, a))
    && (forall a {:trigger PrevOk(bs, a, m[a].prevfree)} :: (a in bs || a == limit) && but != Some(a) ==>
      SizeOk(m, bs, limit, a) && PrevOk(bs, a, m[a].prevfree))
  }

  // ---------------------------------------------------------------- links

  /** The list seen from the sentinel at f and back to it. */
  function Node(order: seq<int>, f: int, k: int): int {
    if 1 <= k <= |order| then order[k - 1] else f
  }

  /** y follows x. */
  ghost predicate Follows(m: seq<Cell>, x: int, y: int) {
    0 <= x && x + 4 < |m| && m[x + 4] == Link(y) && 0 <= y && y + 8 < |m| && m[y + 8] == Link(x)
  }

  ghost predicate Linked(m: seq<Cell>, order: seq<int>, f: int) {
    forall k, l {:trigger Node(order, f, k), Node(order, f, l)} :: 0 <= k && l == k + 1 && l <= |order| + 1 ==>
      Follows(m, Node(order, f, k), Node(order, f, l))
  }

  /** The nodes do not overlap, and lie in memory. */
  ghost predicate Spread(m: seq<Cell>, order: seq<int>, f: int) {
    && 0 <= f && f + 8 < |m|
    && (forall k :: 0 <= k < |order| ==> 0 <= order[k] && order[k] + MIN_BLOCK <= f)
    && (forall k, l :: 0 <= k < l < |order| ==> order[k] + MIN_BLOCK <= order[l] || order[l] + MIN_BLOCK <= order[k])
  }

  /** What unlinking order[k] writes. */
  function Unlink(m: seq<Cell>, order: seq<int>, f: int, k: nat): seq<Cell>
    requires Spread(m, order, f) && k < |order|
  {
    m[Node(order, f, k) + 4 := Link(Node(order, f, k + 2))][Node(order, f, k + 2) + 8 := Link(Node(order, f, k))]
  }

  lemma UnlinkLinked(m: seq<Cell>, order: seq<int>, f: int, k: nat)
    requires Linked(m, order, f) && Spread(m, order, f) && k < |order|
    ensures Linked(Unlink(m, order, f, k), Drop(order, k), f)
  {
    var d, m' := Drop(order, k), Unlink(m, order, f, k);
    forall i, j {:trigger Node(d, f, i), Node(d, f, j)} | 0 <= i && j == i + 1 && j <= |d| + 1
      ensures Follows(m', Node(d, f, i), Node(d, f, j))
    {
      if i != k {
        var i' := if i < k then i else i + 1;
        assert Node(d, f, i) == Node(order, f, i') && Node(d, f, j) == Node(order, f, i' + 1);
        assert Follows(m, Node(order, f, i'), Node(order, f, i' + 1));
      } else {
        assert Node(d, f, i) == Node(order, f, k) && Node(d, f, j) == Node(order, f, k + 2);
      }
    }
  }

  /** What entering b at the end of the list writes. */
  function Enter(m: seq<Cell>, order: seq<int>, f: int, b: int): seq<Cell>
    requires Spread(m, order, f) && 0 <= b && b + MIN_BLOCK <= f
  {
    var last := Node(order, f, |order|);
    m[b + 4 := Link(f)][b + 8 := Link(last)][f + 8 := Link(b)][last + 4 := Link(b)]
  }

  lemma EnterLinked(m: seq<Cell>, order: seq<int>, f: int, b: int)
    requires Linked(m, order, f) && Spread(m, order, f) && 0 <= b && b + MIN_BLOCK <= f
    requires forall k :: 0 <= k < |order| ==> order[k] + MIN_BLOCK <= b || b + MIN_BLOCK <= order[k]
    ensures Linked(Enter(m, order, f, b), order + [b], f)
  {
    var d, m' := order + [b], Enter(m, order, f, b);
    forall i, j {:trigger Node(d, f, i), Node(d, f, j)} | 0 <= i && j == i + 1 && j <= |d| + 1
      ensures Follows(m', Node(d, f, i), Node(d, f, j))
    {
      if j <= |order| {
        assert Node(d, f, i) == Node(order, f, i) && Node(d, f, j) == Node(order, f, j);
        assert Follows(m, Node(order, f, i), Node(order, f, j));
      } else if j == |d| {
        assert Node(d, f, j) == b && Node(d, f, i) == Node(order, f, i);
      } else {
        assert Node(d, f, i) == b && Node(d, f, j) == f;
      }
    }
  }

  // ---------------------------------------------------------------- tag edits

  /** The same free blocks end at a. */
  ghost predicate SameBelow(bs: Blocks, d: Blocks, a: int) {
    forall q :: FreeBelow(bs, q, a) <==> FreeBelow(d, q, a)
  }

  lemma BelowSplit(bs: Blocks, limit: int, b: int, need: int, d: Blocks, a: int)
    requires Apart(bs, limit) && b in bs && bs[b].free && d == Split(bs, b, need)
    requires MIN_BLOCK <= need && need + MIN_BLOCK <= bs[b].size && (a in d || a == limit)
    ensures a != End(bs, b) && a != b + bs[b].size - need ==> SameBelow(bs, d, a)
    ensures a == End(bs, b) ==> PrevOk(d, a, 0)
    ensures FreeBelow(d, b, b + bs[b].size - need)
  {
  }

  lemma BelowMerge(bs: Blocks, limit: int, b: int, n: int, d: Blocks, a: int)
    requires Apart(bs, limit) && b in bs && n in bs && n == End(bs, b) && d == Merge(bs, b, n)
    requires (a in d || a == limit) && a != End(bs, n)
    ensures a != n && SameBelow(bs, d, a)
  {
  }

  lemma TagSplit(m: seq<Cell>, bs: Blocks, limit: int, b: int, need: int, d: Blocks, m': seq<Cell>)
    requires Tiled(bs, limit) && Tagged(m, bs, limit, None) && b in bs && bs[b].free
    requires MIN_BLOCK <= need && need + MIN_BLOCK <= bs[b].size && d == Split(bs, b, need) && limit < |m|
    requires SizeOk(m, bs, limit, b) && SizeOk(m, bs, limit, End(bs, b))
    requires var got := b + bs[b].size - need;
      m' == m[b := m[b].(bsize := bs[b].size - need)][got := Header(bs[b].size - need, -need)]
        [End(bs, b) := m[End(bs, b)].(prevfree := 0)]
    ensures Tagged(m', d, limit, None)
  {
    var got, n := b + bs[b].size - need, End(bs, b);
    forall a | a in d || a == limit ensures SizeOk(m', d, limit, a) && PrevOk(d, a, m'[a].prevfree) {
      BelowSplit(bs, limit, b, need, d, a);
      if a != got {
        assert SizeOk(m, bs, limit, a) && PrevOk(bs, a, m[a].prevfree);
      }
    }
  }

  lemma TagTake(m: seq<Cell>, bs: Blocks, limit: int, b: int, d: Blocks, m': seq<Cell>)
    requires Tiled(bs, limit) && Tagged(m, bs, limit, None) && b in bs && bs[b].free
    requires d == bs[b := bs[b].(free := false)] && limit < |m|
    requires SizeOk(m, bs, limit, b) && SizeOk(m, bs, limit, End(bs, b))
    requires m' == m[b := m[b].(bsize := -bs[b].size)][End(bs, b) := m[End(bs, b)].(prevfree := 0)]
    ensures Tagged(m', d, limit, None)
  {
    var n := End(bs, b);
    forall a | a in d || a == limit ensures SizeOk(m', d, limit, a) && PrevOk(d, a, m'[a].prevfree) {
      assert SizeOk(m, bs, limit, a) && PrevOk(bs, a, m[a].prevfree);
      if a != n { assert SameBelow(bs, d, a); }
    }
  }

  lemma TagFree(m: seq<Cell>, bs: Blocks, limit: int, b: int, d: Blocks, m': seq<Cell>)
    requires Tiled(bs, limit) && Tagged(m, bs, limit, None) && b in bs && !bs[b].free
    requires d == bs[b := bs[b].(free := true)] && limit < |m| && SizeOk(m, bs, limit, b)
    requires m' == m[b := m[b].(bsize := bs[b].size)]
    ensures Tagged(m', d, limit, Some(End(bs, b)))
  {
    forall a | a in d || a == limit
      ensures SizeOk(m', d, limit, a) && (a != End(bs, b) ==> PrevOk(d, a, m'[a].prevfree))
    {
      assert SizeOk(m, bs, limit, a) && PrevOk(bs, a, m[a].prevfree);
      if a != End(bs, b) { assert SameBelow(bs, d, a); }
    }
  }

  /** Two neighbours become one: the tag of the upper one is no tag any more, and
      the back link above them is stale. */
  lemma TagMerge(m: seq<Cell>, bs: Blocks, limit: int, b: int, n: int, but: Option<int>, d: Blocks, m': seq<Cell>)
    requires Tiled(bs, limit) && Tagged(m, bs, limit, but) && b in bs && bs[b].free && n in bs && n == End(bs, b)
    requires but == None || but == Some(n)
    requires d == Merge(bs, b, n) && limit < |m| && SizeOk(m, bs, limit, b)
    requires m' == m[b := m[b].(bsize := bs[b].size + bs[n].size)]
    ensures Tagged(m', d, limit, Some(End(bs, n)))
  {
    forall a | a in d || a == limit
      ensures SizeOk(m', d, limit, a) && (a != End(bs, n) ==> PrevOk(d, a, m'[a].prevfree))
    {
      assert SizeOk(m, bs, limit, a);
      if a != End(bs, n) {
        BelowMerge(bs, limit, b, n, d, a);
        assert PrevOk(bs, a, m[a].prevfree);
      }
    }
  }

  lemma TagClose(m: seq<Cell>, bs: Blocks, limit: int, b: int, m': seq<Cell>)
    requires Tiled(bs, limit) && b in bs && bs[b].free && Tagged(m, bs, limit, Some(End(bs, b)))
    requires limit < |m| && SizeOk(m, bs, limit, End(bs, b))
    requires m' == m[End(bs, b) := m[End(bs, b)].(prevfree := bs[b].size)]
    ensures Tagged(m', bs, limit, None)
  {
    forall a | a in bs || a == limit ensures SizeOk(m', bs, limit, a) && PrevOk(bs, a, m'[a].prevfree) {
      assert SizeOk(m, bs, limit, a);
      assert a != End(bs, b) ==> PrevOk(bs, a, m[a].prevfree);
    }
  }

  // ---------------------------------------------------------------- representation

  /** m holds h: tags, links, and the static freelist struct right after the
      sentinel, at h.limit + HEADER. */
  ghost predicate Rep(m: seq<Cell>, h: Heap, but: Option<int>) {
    && |m| == h.limit + HEADER + MIN_BLOCK
    && Tagged(m, h.blocks, h.limit, but)
    && Linked(m, h.order, h.limit + HEADER)
  }

  lemma OrderSpread(m: seq<Cell>, h: Heap)
    requires Loose(h) && |m| == h.limit + HEADER + MIN_BLOCK
    ensures Spread(m, h.order, h.limit + HEADER)
  {
    Listed(h);
  }

  /** Writing where no tag is leaves the tags. */
  lemma TagsKept(m: seq<Cell>, m': seq<Cell>, bs: Blocks, limit: int, but: Option<int>)
    requires Tagged(m, bs, limit, but) && |m| == |m'|
    requires forall a :: (a in bs || a == limit) && 0 <= a < |m| ==> m[a] == m'[a]
    ensures Tagged(m', bs, limit, but)
  {
    forall a | a in bs || a == limit
      ensures SizeOk(m', bs, limit, a) && (but != Some(a) ==> PrevOk(bs, a, m'[a].prevfree))
    {
      assert SizeOk(m, bs, limit, a);
      assert but != Some(a) ==> PrevOk(bs, a, m[a].prevfree);
    }
  }

  /** Writing where no link is leaves the links. */
  lemma LinksKept(m: seq<Cell>, m': seq<Cell>, order: seq<int>, f: int)
    requires Linked(m, order, f) && Spread(m, order, f) && |m| == |m'|
    requires m'[f + 4] == m[f + 4] && m'[f + 8] == m[f + 8]
    requires forall k :: 0 <= k < |order| ==> m'[order[k] + 4] == m[order[k] + 4] && m'[order[k] + 8] == m[order[k] + 8]
    ensures Linked(m', order, f)
  {
    forall k, l {:trigger Node(order, f, k), Node(order, f, l)} | 0 <= k && l == k + 1 && l <= |order| + 1
      ensures Follows(m', Node(order, f, k), Node(order, f, l))
    {
      assert Follows(m, Node(order, f, k), Node(order, f, l));
    }
  }

  /** What the callers may rely on: the bytes of the buffers in live. */
  ghost predicate Kept(m: seq<Cell>, m': seq<Cell>, live: map<int, int>) {
    |m| == |m'| && forall a, x :: a in live && a + HEADER <= x < a + live[a] && 0 <= x < |m| ==> m'[x] == m[x]
  }

  /** Writing a tag touches neither the links nor the callers' bytes. */
  lemma TagWrite(m: seq<Cell>, h: Heap, t: int, c: Cell)
    requires Loose(h) && |m| == h.limit + HEADER + MIN_BLOCK && 0 <= t <= h.limit
    requires t in h.blocks || t == h.limit ||
      exists b :: b in h.blocks && h.blocks[b].free && b + MIN_BLOCK <= t < End(h.blocks, b)
    ensures Linked(m, h.order, h.limit + HEADER) ==> Linked(m[t := c], h.order, h.limit + HEADER)
    ensures Kept(m, m[t := c], Live(h.blocks))
  {
    OrderSpread(m, h);
    TagIsNoLink(h, t);
    if Linked(m, h.order, h.limit + HEADER) {
      LinksKept(m, m[t := c], h.order, h.limit + HEADER);
    }
  }

  lemma TagIsNoLink(h: Heap, t: int)
    requires Loose(h)
    requires t in h.blocks || t == h.limit ||
      exists b :: b in h.blocks && h.blocks[b].free && b + MIN_BLOCK <= t < End(h.blocks, b)
    ensures forall k :: 0 <= k < |h.order| ==> t != h.order[k] + 4 && t != h.order[k] + 8
  {
    Listed(h);
  }

  /** Writing a link touches neither the tags nor the callers' bytes. */
  lemma LinkWrite(m: seq<Cell>, h: Heap, x: int, t: int, c: Cell, but: Option<int>)
    requires Loose(h) && |m| == h.limit + HEADER + MIN_BLOCK && (t == x + 4 || t == x + 8)
    requires x == h.limit + HEADER || (x in h.blocks && h.blocks[x].free)
    ensures Tagged(m, h.blocks, h.limit, but) ==> Tagged(m[t := c], h.blocks, h.limit, but)
    ensures Kept(m, m[t := c], Live(h.blocks))
  {
    if Tagged(m, h.blocks, h.limit, but) {
      TagsKept(m, m[t := c], h.blocks, h.limit, but);
    }
  }

  lemma KeptTwice(m: seq<Cell>, m': seq<Cell>, m'': seq<Cell>, live: map<int, int>)
    requires Kept(m, m', live) && Kept(m', m'', live)
    ensures Kept(m, m'', live)
  {
  }

  /** A caller may write what he likes into his buffer. */
  lemma ClientWriteKeepsRep(m: seq<Cell>, h: Heap, a: int, x: int, c: Cell)
    requires Loose(h) && Rep(m, h, None) && a in h.blocks && !h.blocks[a].free
    requires a + HEADER <= x < a + h.blocks[a].size
    ensures Rep(m[x := c], h, None)
  {
    OrderSpread(m, h);
    Listed(h);
    TagsKept(m, m[x := c], h.blocks, h.limit, None);
    LinksKept(m, m[x := c], h.order, h.limit + HEADER);
  }
}