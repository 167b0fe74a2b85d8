/** The allocator itself: coap_mem.c over one pool, rewriting tags and links in
    place. Addresses count bytes from the start of the pool; the static freelist
    struct sits right behind the sentinel. The asserts of these functions are here
    as asserts that verify. Only those on arguments are preconditions, assert(0) of
    bpoolv is in branches that its contract rules out, and the one about the binary
    form of negative numbers has no counterpart. */
module Bget {
  import opened Common
  import opened BgetHeap
  import opened BgetTheorems
  import opened BgetMemory
  import opened BgetWrites

  class Pool {
    const mem: array<Cell>
    const freelist: int
    var totalloc: int
    var numget: int
    var numrel: int
    ghost var heap: Heap

    ghost predicate Valid()
      reads this, mem
    {
      && Wf(heap) && Rep(mem[..], heap, None) && freelist == heap.limit + HEADER
      && totalloc + FreeBytes(heap) == heap.limit
    }

    /** bpool on the statically initialised freelist. */
    constructor (len: int)
      requires MIN_BLOCK + HEADER <= len <= MAX_POOL
      ensures Valid() && fresh(mem)
      ensures heap == Fresh(len / SIZE_QUANT * SIZE_QUANT - HEADER) && totalloc == 0
    {
      var size := len / SIZE_QUANT * SIZE_QUANT;
      mem := new Cell[size + MIN_BLOCK];
      freelist := size;
      totalloc, numget, numrel := 0, 0, 0;
      heap := Fresh(size - HEADER);
      new;
      assert size - HEADER <= -(E_SENT + 1);
      mem[freelist + 4], mem[freelist + 8] := Link(freelist), Link(freelist);
      var b := 0;
      mem[b] := Header(0, 0);
      assert mem[mem[freelist + 8].addr + 4] == Link(freelist);
      assert mem[mem[freelist + 4].addr + 8] == Link(freelist);
      mem[b + 4] := Link(freelist);
      mem[b + 8] := mem[freelist + 8];
      mem[freelist + 8] := Link(b);
      mem[mem[b + 8].addr + 4] := Link(b);
      size := size - HEADER;
      mem[b] := mem[b].(bsize := size);
      var bn := b + size;
      mem[bn] := Header(size, E_SENT);
      FreshWf(size);
      FreshRep(mem[..], size);
    }

    lemma {:induction false} AtNode(k: nat)
      requires Valid() && k <= |heap.order|
      ensures var x, y := Node(heap.order, freelist, k), Node(heap.order, freelist, k + 1);
        0 <= x && x + 4 < mem.Length && mem[x + 4] == Link(y) && 0 <= y && y + 8 < mem.Length && mem[y + 8] == Link(x)
    {
      assert Follows(mem[..], Node(heap.order, freelist, k), Node(heap.order, freelist, k + 1));
    }

    lemma {:induction false} AtTag(a: int)
      requires Valid() && (a in heap.blocks || a == heap.limit)
      ensures 0 <= a < mem.Length && mem[a].Header? && mem[a].bsize == Signed(heap.blocks, heap.limit, a)
      ensures PrevOk(heap.blocks, a, mem[a].prevfree)
    {
      assert SizeOk(mem[..], heap.blocks, heap.limit, a);
      assert PrevOk(heap.blocks, a, mem[..][a].prevfree);
    }

    /** The best-fit scan of bget: the freelist itself when nothing fits. */
    method BestFit(size: int) returns (best: int)
      requires Valid()
      ensures best == match Scan(heap, size) case None => freelist case Some(k) => heap.order[k]
    {
      hide Chained, FreeBytes, SizeOk, Coalesced;
      Listed(heap);
      ghost var k := 0;
      AtNode(0);
      var b := mem[freelist + 4].addr;
      best := freelist;
      while b != freelist
        invariant k <= |heap.order| && b == Node(heap.order, freelist, k + 1)
        invariant best == match Best(heap.order[..k], heap.blocks, size)
          case None => freelist case Some(j) => heap.order[j]
        decreases |heap.order| - k
      {
        AtTag(b);
        AtNode(k + 1);
        assert heap.order[..k + 1][..k] == heap.order[..k];
        if best != freelist { AtTag(best); }
        if mem[b].bsize >= size {
          if best == freelist || mem[b].bsize < mem[best].bsize {
            best := b;
          }
        }
        b := mem[b + 4].addr;
        k := k + 1;
      }
      assert heap.order[..k] == heap.order;
    }

    /** bget's branch for a block large enough to split: the top of it is handed out. */
    method ServeTop(b: int, size: int, ghost k: nat) returns (buf: int)
      requires Valid() && k < |heap.order| && b == heap.order[k] && size >= MIN_BLOCK && size % SIZE_QUANT == 0
      requires b in heap.blocks && heap.blocks[b].free && heap.blocks[b].size - size > SIZE_Q + HEADER
      modifies this, mem
      ensures Valid()
      ensures var (d, a) := GetAt(old(heap), k, size); heap == d && buf == a + HEADER
      ensures numget == old(numget) + 1 && numrel == old(numrel)
      ensures Kept(old(mem[..]), mem[..], Live(old(heap).blocks))
    {
      ghost var h, m := heap, mem[..];
      ghost var d := GetAt(h, k, size).0;
      ServeTopEffect(m, h, k, size, d);
      var ba := b + (mem[b].bsize - size);
      var bn := ba + size;
      assert mem[bn].prevfree == mem[b].bsize;
      mem[b] := mem[b].(bsize := mem[b].bsize - size);
      mem[ba] := Header(mem[b].bsize, -size);
      mem[bn] := mem[bn].(prevfree := 0);
      totalloc := totalloc + size;
      numget := numget + 1;
      assert mem[..] == SplitWrites(m, b, ba, bn);
      heap := d;
      buf := ba + HEADER;
    }

    /** Take the node at b = order[k] out of the list, as bget and brel both do. */
    method UnlinkNode(b: int, ghost m: seq<Cell>, ghost order: seq<int>, ghost k: nat)
      requires mem[..] == m && OnList(m, order, freelist, k, b)
      modifies mem
      ensures mem[..] == Unlink(m, order, freelist, k)
    {
      assert mem[mem[b + 8].addr + 4] == Link(b);
      assert mem[mem[b + 4].addr + 8] == Link(b);
      mem[mem[b + 8].addr + 4] := mem[b + 4];
      mem[mem[b + 4].addr + 8] := mem[b + 8];
    }

    /** bget's branch for a block too small to split: all of it is handed out.
        order and f-free facts only; ServeWhole puts them together. */
    method TakeWhole(b: int, ghost m: seq<Cell>, ghost order: seq<int>, ghost k: nat, ghost m1: seq<Cell>, ghost n: int)
      requires mem[..] == m && OnList(m, order, freelist, k, b) && FreeTags(m, b, n)
      requires m1 == Unlink(m, order, freelist, k) && m1[b] == m[b] && m1[n] == m[n]
      modifies mem, this`totalloc, this`numget
      ensures mem[..] == TakeWrites(m1, b, n)
      ensures totalloc == old(totalloc) + n - b && numget == old(numget) + 1
    {
      var ba := b + mem[b].bsize;
      assert mem[ba].prevfree == mem[b].bsize;
      UnlinkNode(b, m, order, k);
      assert mem[b] == m1[b] && mem[n] == m1[n];
      totalloc := totalloc + mem[b].bsize;
      numget := numget + 1;
      mem[b] := mem[b].(bsize := -mem[b].bsize);
      mem[ba] := mem[ba].(prevfree := 0);
    }

    method ServeWhole(b: int, ghost size: int, ghost k: nat) returns (buf: int)
      requires Valid() && k < |heap.order| && b == heap.order[k] && size >= MIN_BLOCK && size % SIZE_QUANT == 0
      requires b in heap.blocks && heap.blocks[b].free && 0 <= heap.blocks[b].size - size <= SIZE_Q + HEADER
      modifies this, mem
      ensures Valid()
      ensures var (d, a) := GetAt(old(heap), k, size); heap == d && buf == a + HEADER
      ensures numget == old(numget) + 1 && numrel == old(numrel)
      ensures Kept(old(mem[..]), mem[..], Live(old(heap).blocks))
    {
      hide Sizes;
      ghost var h, m, n := heap, mem[..], End(heap.blocks, b);
      ghost var d := GetAt(h, k, size).0;
      AtFree(m, h, k);
      IsOnList(m, h, freelist, k);
      UnlinkTags(m, h, k, b);
      UnlinkTags(m, h, k, n);
      ghost var m1 := Unlink(m, h.order, freelist, k);
      ServeWholeEffect(m, h, k, size, d, m1, b, n);
      TakeWhole(b, m, h.order, k, m1, n);
      heap := d;
      buf := b + HEADER;
    }

    /** The block at b is split or handed out whole. */
    method Serve(b: int, size: int, ghost k: nat) returns (got: int)
      requires Valid() && k < |heap.order| && b == heap.order[k] && size >= MIN_BLOCK && size % SIZE_QUANT == 0
      requires b in heap.blocks && heap.blocks[b].free && heap.blocks[b].size >= size
      modifies this, mem
      ensures Valid()
      ensures var (d, a) := GetAt(old(heap), k, size); heap == d && got == a + HEADER
      ensures numget == old(numget) + 1 && numrel == old(numrel)
      ensures Kept(old(mem[..]), mem[..], Live(old(heap).blocks))
    {
      AtTag(b);
      if mem[b].bsize - size > SIZE_Q + HEADER {
        got := ServeTop(b, size, k);
      } else {
        got := ServeWhole(b, size, k);
      }
    }

    /** bget. */
    method Bget(requested: int) returns (buf: Option<int>)
      requires Valid() && 0 < requested <= MAX_REQUEST
      modifies this, mem
      ensures Valid()
      ensures var (d, r) := Get(old(heap), Need(requested));
        heap == d && buf == match r case None => None case Some(a) => Some(a + HEADER)
      ensures numget == old(numget) + (if buf.Some? then 1 else 0) && numrel == old(numrel)
      ensures Kept(old(mem[..]), mem[..], Live(old(heap).blocks))
    {
      var size := requested;
      if size < SIZE_Q { size := SIZE_Q; }
      size := (size + SIZE_QUANT - 1) / SIZE_QUANT * SIZE_QUANT;
      size := size + HEADER;
      NeedFits(requested);
      ScanHonest(heap, size);
      var b := BestFit(size);
      Listed(heap);
      if b == freelist {
        return None;
      }
      var got := Serve(b, size, Scan(heap, size).value);
      return Some(got);
    }

    // ------------------------------------------------------------ brel

    ghost predicate Releasing(b: int)
      reads this, mem
    {
      Half(mem[..], heap, b) && freelist == heap.limit + HEADER && totalloc + FreeBytes(heap) == heap.limit
    }

    /** Enter b at the end of the list. */
    method EnterNode(b: int, ghost m: seq<Cell>, ghost order: seq<int>)
      requires mem[..] == m && Spread(m, order, freelist) && 0 <= b && b + MIN_BLOCK <= freelist
      requires m[freelist + 8] == Link(Node(order, freelist, |order|))
      requires m[freelist + 4] == Link(Node(order, freelist, 1))
      requires m[Node(order, freelist, |order|) + 4] == Link(freelist)
      requires m[Node(order, freelist, 1) + 8] == Link(freelist)
      requires forall k :: 0 <= k < |order| ==> order[k] + MIN_BLOCK <= b || b + MIN_BLOCK <= order[k]
      modifies mem
      ensures mem[..] == Enter(m, order, freelist, b)
    {
      assert mem[mem[freelist + 8].addr + 4] == Link(freelist);
      assert mem[mem[freelist + 4].addr + 8] == Link(freelist);
      mem[b + 4] := Link(freelist);
      mem[b + 8] := mem[freelist + 8];
      mem[freelist + 8] := Link(b);
      mem[mem[b + 8].addr + 4] := Link(b);
    }

    /** brel with a free block below: that block swallows the released one. */
    method ReleaseDown(a: int) returns (b: int)
      requires Valid() && a in heap.blocks && !heap.blocks[a].free && Below(heap.blocks, a).Some?
      modifies this, mem
      ensures b == FreeDown(old(heap), a).1 && heap == FreeDown(old(heap), a).0 && Releasing(b)
      ensures numget == old(numget) && numrel == old(numrel) && Kept(old(mem[..]), mem[..], Live(heap.blocks))
    {
      ghost var h, m, d := heap, mem[..], FreeDown(heap, a).0;
      AtLive(m, h, a);
      totalloc := totalloc + mem[a].bsize;
      ReleaseCounted(h, a);
      assert totalloc >= 0;
      var size := mem[a].bsize;
      assert mem[a - mem[a].prevfree].bsize == mem[a].prevfree;
      b := a - mem[a].prevfree;
      GrowEffect(m, h, a, b, d, m[b := m[b].(bsize := h.blocks[b].size + h.blocks[a].size)]);
      mem[b] := mem[b].(bsize := mem[b].bsize - size);
      heap := d;
    }

    /** brel with nothing free below: the released block enters the list. */
    method ReleaseAlone(a: int)
      requires Valid() && a in heap.blocks && !heap.blocks[a].free && Below(heap.blocks, a).None?
      modifies this, mem
      ensures a == FreeDown(old(heap), a).1 && heap == FreeDown(old(heap), a).0 && Releasing(a)
      ensures numget == old(numget) && numrel == old(numrel) && Kept(old(mem[..]), mem[..], Live(heap.blocks))
    {
      hide Sizes, Loose, FreeBytes, Apart;
      ghost var h, m, d := heap, mem[..], FreeDown(heap, a).0;
      AtLive(m, h, a);
      AtNode(0);
      AtNode(|heap.order|);
      OrderSpread(m, h);
      ReleasedApart(h, a);
      totalloc := totalloc + mem[a].bsize;
      ReleaseCounted(h, a);
      assert totalloc >= 0;
      EnterNode(a, m, h.order);
      ghost var m' := Enter(m[a := m[a].(bsize := h.blocks[a].size)], h.order, freelist, a);
      mem[a] := mem[a].(bsize := -mem[a].bsize);
      EnterCommutes(m, h.order, freelist, a, m[a].(bsize := h.blocks[a].size), mem[..]);
      EnterEffect(m, h, a, d, m');
      heap := d;
    }

    /** The second half of brel. */
    method ReleaseUp(b: int)
      requires Releasing(b)
      modifies this, mem
      ensures heap == JoinUp(old(heap), b) && Valid()
      ensures numget == old(numget) && numrel == old(numrel) && Kept(old(mem[..]), mem[..], Live(heap.blocks))
    {
      AtHalf(mem[..], heap, b);
      var bn := b + mem[b].bsize;
      if mem[bn].bsize > 0 {
        Absorb(b, bn);
        AtHalf(mem[..], heap, b);
        bn := b + mem[b].bsize;
      } else {
        JoinUpWf(heap, b);
      }
      assert mem[bn].bsize < 0;
      ghost var m := mem[..];
      CloseRep(m, heap, b, m[bn := m[bn].(prevfree := heap.blocks[b].size)]);
      mem[bn] := mem[bn].(prevfree := mem[b].bsize);
      assert mem[..] == m[bn := m[bn].(prevfree := heap.blocks[b].size)];
    }

    method UnlinkAndGrow(b: int, bn: int, ghost m: seq<Cell>, ghost order: seq<int>, ghost k: nat, ghost m1: seq<Cell>,
        ghost end: int, ghost m': seq<Cell>)
      requires mem[..] == m && OnList(m, order, freelist, k, bn) && FreeTags(m, bn, end)
      requires 0 <= b < |m| && m[b].Header? && m1 == Unlink(m, order, freelist, k) && m1[b] == m[b] && m1[bn] == m[bn]
      requires m' == m1[b := m1[b].(bsize := m1[b].bsize + (end - bn))]
      modifies mem
      ensures mem[..] == m'
    {
      assert mem[bn + mem[bn].bsize].prevfree == mem[bn].bsize;
      UnlinkNode(bn, m, order, k);
      assert mem[b] == m1[b] && mem[bn] == m1[bn];
      mem[b] := mem[b].(bsize := mem[b].bsize + mem[bn].bsize);
    }

    /** The free block above leaves the list and is absorbed. */
    method Absorb(b: int, bn: int)
      requires Releasing(b) && bn == End(heap.blocks, b) && bn in heap.blocks && bn in heap.order
      modifies this, mem
      ensures heap == JoinUp(old(heap), b) && Releasing(b) && Wf(heap)
      ensures numget == old(numget) && numrel == old(numrel) && Kept(old(mem[..]), mem[..], Live(heap.blocks))
    {
      ghost var h, m := heap, mem[..];
      ghost var k, end, m1, m', d := AbsorbPlan(m, h, freelist, b, bn);
      UnlinkAndGrow(b, bn, m, h.order, k, m1, end, m');
      heap := d;
    }

    /** brel. */
    method Brel(buf: int)
      requires Valid() && buf - HEADER in heap.blocks && !heap.blocks[buf - HEADER].free
      modifies this, mem
      ensures Valid()
      ensures heap == Release(old(heap), buf - HEADER)
      ensures numget == old(numget) && numrel == old(numrel) + 1
      ensures Kept(old(mem[..]), mem[..], Live(heap.blocks))
    {
      var b := buf - HEADER;
      AtLive(mem[..], heap, b);
      ReleaseFrees(heap, b);
      numrel := numrel + 1;
      assert mem[b].bsize < 0;
      assert mem[b - mem[b].bsize].prevfree == 0;
      ghost var m := mem[..];
      if mem[b].prevfree != 0 {
        b := ReleaseDown(b);
      } else {
        ReleaseAlone(b);
      }
      ghost var m1, live := mem[..], Live(heap.blocks);
      JoinUpFrees(heap, b) by { JoinUpWf(heap, b); }
      ReleaseUp(b);
      KeptTwice(m, m1, mem[..], live);
    }

    // ------------------------------------------------------------ on top of bget and brel

    /** A write by whoever holds the block at a. */
    method Poke(a: int, x: int, c: Cell)
      requires Valid() && a in heap.blocks && !heap.blocks[a].free && a + HEADER <= x < a + heap.blocks[a].size
      modifies mem
      ensures Valid() && 0 <= x < mem.Length && mem[..] == old(mem[..])[x := c]
      ensures Kept(old(mem[..]), mem[..], Live(heap.blocks) - {a})
    {
      ClientWriteKeepsRep(mem[..], heap, a, x, c);
      ghost var m := mem[..];
      mem[x] := c;
      assert mem[..] == m[x := c];
      PokeKept(m, heap, a, x, c);
    }

    /** The memset of bgetz. */
    method Clear(a: int, rsize: int)
      requires Valid() && a in heap.blocks && !heap.blocks[a].free && rsize == heap.blocks[a].size - HEADER
      modifies mem
      ensures Valid() && Kept(old(mem[..]), mem[..], Live(heap.blocks) - {a})
      ensures forall x :: a + HEADER <= x < a + heap.blocks[a].size ==> 0 <= x < mem.Length && mem[x] == Data(0)
    {
      ghost var m, others := mem[..], Live(heap.blocks) - {a};
      BlockInside(heap, a);
      var i := 0;
      while i < rsize
        invariant 0 <= i <= rsize && Valid() && Kept(m, mem[..], others)
        invariant forall x :: a + HEADER <= x < a + HEADER + i ==> 0 <= x < mem.Length && mem[x] == Data(0)
      {
        ghost var m1 := mem[..];
        Poke(a, a + HEADER + i, Data(0));
        KeptTwice(m, m1, mem[..], others);
        i := i + 1;
      }
    }

    /** bgetz: the whole block is cleared, not just what was asked for. */
    method Bgetz(requested: int) returns (buf: Option<int>)
      requires Valid() && 0 < requested <= MAX_REQUEST
      modifies this, mem
      ensures Valid()
      ensures var (d, r) := Get(old(heap), Need(requested));
        heap == d && buf == match r case None => None case Some(a) => Some(a + HEADER)
      ensures buf.Some? ==> var a := buf.value - HEADER;
        && a in heap.blocks && heap.blocks[a].size >= requested + HEADER
        && forall x :: buf.value <= x < a + heap.blocks[a].size ==> 0 <= x < mem.Length && mem[x] == Data(0)
      ensures Kept(old(mem[..]), mem[..], Live(old(heap).blocks))
    {
      ghost var h, m := heap, mem[..];
      GetServes(heap, requested);
      buf := Bget(requested);
      if buf.Some? {
        ghost var m1 := mem[..];
        var a := buf.value - HEADER;
        AtTag(a);
        var rsize := -mem[a].bsize;
        rsize := rsize - HEADER;
        assert rsize >= requested;
        Clear(a, rsize);
        assert Live(heap.blocks) - {a} == Live(h.blocks);
        KeptTwice(m, m1, mem[..], Live(h.blocks));
      }
    }

    /** One byte of the copy in bgetr, from the block at b to the block at a. */
    method CopyByte(b: int, a: int, i: int, ghost m: seq<Cell>)
      requires Valid() && a != b && 0 <= i && Kept(m, mem[..], Live(heap.blocks) - {a}) && |m| == mem.Length
      requires b in Live(heap.blocks) && i + HEADER < Live(heap.blocks)[b] && 0 <= b && b + HEADER + i < |m|
      requires a in heap.blocks && !heap.blocks[a].free && i + HEADER < heap.blocks[a].size && 0 <= a
      requires a + HEADER + i < |m|
      requires mem[..][a + HEADER..a + HEADER + i] == m[b + HEADER..b + HEADER + i]
      modifies mem
      ensures Valid() && Kept(m, mem[..], Live(heap.blocks) - {a})
      ensures mem[..][a + HEADER..a + HEADER + i + 1] == m[b + HEADER..b + HEADER + i + 1]
    {
      hide Wf;
      ghost var m1, others := mem[..], Live(heap.blocks) - {a};
      assert b in others && m1[b + HEADER + i] == m[b + HEADER + i];
      Poke(a, a + HEADER + i, mem[b + HEADER + i]);
      KeptTwice(m, m1, mem[..], others);
      assert mem[..][a + HEADER..a + HEADER + i + 1] == m1[a + HEADER..a + HEADER + i] + [m[b + HEADER + i]];
    }

    /** The copy of bgetr, from the block at b to the block at a. */
    method Copy(b: int, a: int, n: int)
      requires Valid() && a != b && 0 <= n
      requires b in Live(heap.blocks) && n + HEADER <= Live(heap.blocks)[b]
      requires a in heap.blocks && !heap.blocks[a].free && n + HEADER <= heap.blocks[a].size
      modifies mem
      ensures Valid() && Moved(old(mem[..]), mem[..], b, a, n)
      ensures Kept(old(mem[..]), mem[..], Live(heap.blocks) - {a})
    {
      hide Loose, End;
      ghost var m := mem[..];
      BlockInside(heap, a);
      BlockInside(heap, b);
      var i := 0;
      while i < n
        invariant 0 <= i <= n && Valid() && Kept(m, mem[..], Live(heap.blocks) - {a})
        invariant mem[..][a + HEADER..a + HEADER + i] == m[b + HEADER..b + HEADER + i]
      {
        CopyByte(b, a, i, m);
        i := i + 1;
      }
    }

    /** The tail of bgetr: copy the block at b into the block at a, then release b. */
    method Move(b: int, a: int, size: int)
      requires Valid() && a != b && 0 < size
      requires b in Live(heap.blocks) && a in Live(heap.blocks) && size + HEADER <= Live(heap.blocks)[a]
      modifies this, mem
      ensures Valid() && b in old(heap).blocks && heap == Release(old(heap), b)
      ensures Moved(old(mem[..]), mem[..], b, a, Copied(old(heap).blocks, b, size))
      ensures Kept(old(mem[..]), mem[..], Live(old(heap).blocks) - {a, b})
    {
      ghost var h, m := heap, mem[..];
      AtTag(b);
      var osize := -mem[b].bsize;
      osize := osize - HEADER;
      assert osize > 0;
      var n := Min(size, osize);
      assert n == Copied(h.blocks, b, size);
      Copy(b, a, n);
      ghost var m1 := mem[..];
      ReleaseFrees(h, b);
      Brel(b + HEADER);
      KeptMove(m, m1, mem[..], h.blocks, heap.blocks, b, a, size);
    }

    /** bgetr: the data moves to a new block, and the old one is released. */
    method Bgetr(buf: Option<int>, size: int) returns (nbuf: Option<int>)
      requires Valid() && 0 < size <= MAX_REQUEST
      requires buf.Some? ==> buf.value - HEADER in Live(heap.blocks)
      modifies this, mem
      ensures Valid()
      ensures var (d, r) := Get(old(heap), Need(size));
        nbuf == match r case None => None case Some(a) => Some(a + HEADER)
      ensures nbuf.None? || buf.None? ==>
        heap == Get(old(heap), Need(size)).0 && Kept(old(mem[..]), mem[..], Live(old(heap).blocks))
      ensures nbuf.Some? && buf.Some? ==> var b := buf.value - HEADER; var d := Get(old(heap), Need(size)).0;
        && b in d.blocks && heap == Release(d, b)
        && Kept(old(mem[..]), mem[..], Live(old(heap).blocks) - {b}) && b in old(heap).blocks
        && Moved(old(mem[..]), mem[..], b, nbuf.value - HEADER, Min(size, old(heap).blocks[b].size - HEADER))
    {
      hide Wf, Need, Coalesced;
      ghost var h, m := heap, mem[..];
      GetServes(h, size);
      nbuf := Bget(size);
      if nbuf.None? || buf.None? {
        return;
      }
      ghost var d, m1, a, b := heap, mem[..], nbuf.value - HEADER, buf.value - HEADER;
      StillLive(h.blocks, d.blocks, b, a, size);
      Move(buf.value - HEADER, nbuf.value - HEADER, size);
      KeptRealloc(m, m1, mem[..], h.blocks, d.blocks, b, a, size);
    }

    // ------------------------------------------------------------ bstats and bpoolv

    /** bstats: with every block accounted for, allocated and free bytes are the pool. */
    method Bstats() returns (curalloc: int, totfree: int, maxfree: int, nget: int, nrel: int)
      requires Valid()
      ensures nget == numget && nrel == numrel && curalloc == totalloc
      ensures curalloc == LiveBytes(heap)
      ensures totfree == FreeBytes(heap) && curalloc + totfree == heap.limit
      ensures forall a :: a in heap.blocks && heap.blocks[a].free ==> heap.blocks[a].size <= maxfree
      ensures maxfree == -1 || exists a :: a in heap.blocks && heap.blocks[a].free && heap.blocks[a].size == maxfree
    {
      nget, nrel, curalloc, totfree, maxfree := numget, numrel, totalloc, 0, -1;
      Accounts(heap);
      Listed(heap);
      ghost var k := 0;
      AtNode(0);
      var b := mem[freelist + 4].addr;
      while b != freelist
        invariant k <= |heap.order| && b == Node(heap.order, freelist, k + 1)
        invariant totfree == Sizes(heap.order[..k], heap.blocks)
        invariant forall j :: 0 <= j < k ==> heap.blocks[heap.order[j]].size <= maxfree
        invariant maxfree == -1 || exists a :: a in heap.blocks && heap.blocks[a].free && heap.blocks[a].size == maxfree
        decreases |heap.order| - k
      {
        AtTag(b);
        AtNode(k + 1);
        assert mem[b].bsize > 0;
        assert heap.order[..k + 1][..k] == heap.order[..k];
        totfree := totfree + mem[b].bsize;
        if mem[b].bsize > maxfree {
          maxfree := mem[b].bsize;
        }
        b := mem[b + 4].addr;
        k := k + 1;
      }
      assert heap.order[..k] == heap.order;
      forall a | a in heap.blocks && heap.blocks[a].free ensures heap.blocks[a].size <= maxfree {
        assert a in heap.order;
      }
    }

    /** bpoolv: on a valid pool it ends at the sentinel and returns 1. */
    method Bpoolv() returns (ok: int)
      requires Valid()
      ensures ok == 1
    {
      var b := 0;
      AtTag(0);
      while mem[b].bsize != E_SENT
        invariant b in heap.blocks || b == heap.limit
        invariant 0 <= b < mem.Length && mem[b].Header? && mem[b].bsize == Signed(heap.blocks, heap.limit, b)
        decreases heap.limit - b
      {
        assert Followed(heap.blocks, heap.limit, b);
        AtTag(End(heap.blocks, b));
        var bs := mem[b].bsize;
        if bs < 0 {
          bs := -bs;
        } else {
          assert bs > 0;
          assert b in heap.order;
          ghost var k := Pos(heap.order, b);
          AtNode(k);
          AtNode(k + 1);
          if mem[mem[b + 8].addr + 4] != Link(b) || mem[mem[b + 4].addr + 8] != Link(b) {
            return 0;
          }
        }
        b := b + bs;
      }
      return 1;
    }
  }

  lemma {:induction false} FreshRep(m: seq<Cell>, limit: int)
    requires MIN_BLOCK <= limit && |m| == limit + HEADER + MIN_BLOCK
    requires m[0] == Header(0, limit) && m[limit] == Header(limit, E_SENT)
    requires var f := limit + HEADER; m[4] == m[8] == Link(f) && m[f + 4] == m[f + 8] == Link(0)
    ensures Rep(m, Fresh(limit), None)
  {
    var h := Fresh(limit);
    forall a | a in h.blocks || a == limit ensures SizeOk(m, h.blocks, limit, a) && PrevOk(h.blocks, a, m[a].prevfree) {
      assert a == limit ==> FreeBelow(h.blocks, 0, a);
    }
  }

  /** A live block overlaps no node of the list, nor the freelist. */
  lemma {:induction false} ReleasedApart(h: Heap, a: int)
    requires Loose(h) && a in h.blocks && !h.blocks[a].free
    ensures a + MIN_BLOCK <= h.limit + HEADER
    ensures forall k :: 0 <= k < |h.order| ==> h.order[k] + MIN_BLOCK <= a || a + MIN_BLOCK <= h.order[k]
  {
    Listed(h);
  }

  /** Tagging the block before or after its entry is the same. */
  lemma {:induction false} EnterCommutes(m: seq<Cell>, order: seq<int>, f: int, b: int, c: Cell, m': seq<Cell>)
    requires Spread(m, order, f) && 0 <= b && b + MIN_BLOCK <= f
    requires forall k :: 0 <= k < |order| ==> order[k] + MIN_BLOCK <= b || b + MIN_BLOCK <= order[k]
    requires m' == Enter(m, order, f, b)[b := c]
    ensures Spread(m[b := c], order, f) && m' == Enter(m[b := c], order, f, b)
  {
  }

  /** A write into the block at a keeps every other buffer. */
  lemma {:induction false} PokeKept(m: seq<Cell>, h: Heap, a: int, x: int, c: Cell)
    requires Loose(h) && a in h.blocks && a <= x < a + h.blocks[a].size && 0 <= x < |m|
    ensures Kept(m, m[x := c], Live(h.blocks) - {a})
  {
  }

  lemma {:induction false} BlockInside(h: Heap, a: int)
    requires Loose(h) && a in h.blocks
    ensures 0 <= a && a + h.blocks[a].size <= h.limit
  {
  }

  lemma {:induction false} KeptSlice(m: seq<Cell>, m': seq<Cell>, live: map<int, int>, a: int, n: int)
    requires Kept(m, m', live) && a in live && 0 <= n && n + HEADER <= live[a] && 0 <= a && a + HEADER + n <= |m|
    ensures m'[a + HEADER..a + HEADER + n] == m[a + HEADER..a + HEADER + n]
  {
  }

  lemma {:induction false} KeptPart(m: seq<Cell>, m': seq<Cell>, live: map<int, int>, part: map<int, int>)
    requires Kept(m, m', live) && forall a :: a in part ==> a in live && live[a] == part[a]
    ensures Kept(m, m', part)
  {
  }

  /** How many bytes bgetr carries over from the block at b. */
  function Copied(m: Blocks, b: int, size: int): int {
    if b in m then Min(size, m[b].size - HEADER) else 0
  }

  /** The first n bytes of the buffer of b went to the buffer of a. */
  ghost predicate Moved(m: seq<Cell>, m': seq<Cell>, b: int, a: int, n: int) {
    && 0 <= n && 0 <= a && a + HEADER + n <= |m'| && 0 <= b && b + HEADER + n <= |m|
    && m'[a + HEADER..a + HEADER + n] == m[b + HEADER..b + HEADER + n]
  }

  lemma {:induction false} KeptMove(m: seq<Cell>, m1: seq<Cell>, m2: seq<Cell>, h: Blocks, g: Blocks, b: int, a: int,
      size: int)
    requires Kept(m, m1, Live(h) - {a}) && Kept(m1, m2, Live(g)) && Live(g) == Live(h) - {b} && a != b
    requires b in Live(h) && a in Live(h) && size + HEADER <= Live(h)[a] && Moved(m, m1, b, a, Copied(h, b, size))
    ensures Kept(m, m2, Live(h) - {a, b}) && Moved(m, m2, b, a, Copied(h, b, size))
  {
    var part, n := Live(h) - {a, b}, Copied(h, b, size);
    assert Live(g)[a] == Live(h)[a] && n <= size;
    KeptSlice(m1, m2, Live(g), a, n);
    KeptPart(m, m1, Live(h) - {a}, part);
    KeptPart(m1, m2, Live(g), part);
    KeptTwice(m, m1, m2, part);
  }

  lemma {:induction false} StillLive(h: Blocks, d: Blocks, b: int, a: int, size: int)
    requires b in Live(h) && a !in Live(h) && a in Live(d) && Live(d) == Live(h)[a := Live(d)[a]]
    ensures b in Live(d) && Copied(d, b, size) == Copied(h, b, size)
  {
    assert Live(d)[b] == Live(h)[b];
  }

  lemma {:induction false} KeptRealloc(m: seq<Cell>, m1: seq<Cell>, m2: seq<Cell>, h: Blocks, d: Blocks, b: int,
      a: int, size: int)
    requires Kept(m, m1, Live(h)) && Kept(m1, m2, Live(d) - {a, b}) && a !in Live(h)
    requires a in Live(d) && Live(d) == Live(h)[a := Live(d)[a]]
    requires b in Live(h) && Moved(m1, m2, b, a, Copied(h, b, size))
    ensures Kept(m, m2, Live(h) - {b}) && Moved(m, m2, b, a, Copied(h, b, size))
  {
    var part, n := Live(h) - {b}, Copied(h, b, size);
    KeptSlice(m, m1, Live(h), b, n);
    KeptPart(m, m1, Live(h), part);
    KeptPart(m1, m2, Live(d) - {a, b}, part);
    KeptTwice(m, m1, m2, part);
  }
}
