/** The block chain of the debugging allocator in dbug/malloc as a value: the
    bytes of the arena, the headers in it by address, and malloc_end.

    A pointer is an address and a header is reached through its address, so
    aliasing and pointer comparison are as in the program.  sbrk() hands out
    contiguous memory and does not fail, and sizes do not overflow. */
module HeapState {

  /** Header of a block (struct mlist); every header here carries M_MAGIC. */
  datatype Header = Header(next: int, prev: int, inuse: bool, rsize: int, size: int)

  datatype Heap = Heap(base: int, mem: seq<int>, hdr: map<int, Header>, end: int)

  const NULL := 0
  const M_SIZE := 32            // offset of the data in a block, 64-bit layout
  const M_RND := 8
  const M_BLOCKSIZE := 8192
  const M_FILL := 1
  const M_FREE_FILL := 2
  const START := 64             // address of malloc_start, outside the arena

  // ---- Addresses ----

  function Limit(h: Heap): int {
    h.base + |h.mem|
  }

  /** The address after a block. */
  function After(h: Heap, a: int): int
    requires a in h.hdr
  {
    a + M_SIZE + h.hdr[a].size
  }

  /** Index in `mem` of the first data byte of a block. */
  function Index(h: Heap, a: int): int {
    a + M_SIZE - h.base
  }

  // ---- The chain ----

  /** The arena block at `a` lies in the arena. */
  predicate Placed(h: Heap, a: int)
    requires a in h.hdr
  {
    var b := h.hdr[a];
    && h.base <= a && 0 <= b.size && b.size % M_RND == 0 && After(h, a) <= Limit(h)
    && (b.inuse ==> 0 <= b.rsize <= b.size)
  }

  /** Where the block after `a` starts, if there is one. */
  function Next(h: Heap, a: int): int
    requires a in h.hdr
  {
    if a == START then h.base else After(h, a)
  }

  /** The links at `a` are right in both directions: blocks follow each other
      without a gap up to the end of the arena. */
  ghost predicate Linked(h: Heap, a: int)
    requires a in h.hdr
  {
    var n := Next(h, a);
    && h.hdr[a].next == (if n == Limit(h) then NULL else n)
    && (n != Limit(h) ==> n in h.hdr && h.hdr[n].prev == a)
    && (a != START ==> h.hdr[a].prev in h.hdr && h.hdr[h.hdr[a].prev].next == a)
  }

  /** malloc_start, which is never handed out. */
  ghost predicate StartOk(h: Heap) {
    && h.base > START + M_SIZE && START in h.hdr
    && h.hdr[START] == Header(h.hdr[START].next, NULL, false, 0, 0)
  }

  ghost predicate AllPlaced(h: Heap) {
    forall a {:trigger Placed(h, a)} :: a in h.hdr && a != START ==> Placed(h, a)
  }

  ghost predicate Ordered(h: Heap) {
    forall a, b :: a in h.hdr && b in h.hdr && a != START && a < b ==> After(h, a) <= b
  }

  ghost predicate AllLinked(h: Heap) {
    forall a {:trigger Linked(h, a)} :: a in h.hdr ==> Linked(h, a)
  }

  ghost predicate EndOk(h: Heap) {
    h.end in h.hdr && h.hdr[h.end].next == NULL
  }

  /** The chain is address-ordered, rightly linked both ways and ends at
      malloc_end, and its blocks fill the arena without a gap. */
  ghost predicate Structure(h: Heap) {
    StartOk(h) && AllPlaced(h) && Ordered(h) && AllLinked(h) && EndOk(h)
  }

  // ---- What a client sees ----

  /** A block as a client sees it.  `rsize` counts the bytes that are the
      client's, so it is 0 when the block is free. */
  datatype Block = Block(inuse: bool, rsize: int, contents: seq<int>)

  function View(h: Heap, a: int): Block
    requires a in h.hdr && Placed(h, a)
  {
    var b := h.hdr[a];
    Block(b.inuse, if b.inuse then b.rsize else 0, h.mem[Index(h, a)..Index(h, a) + b.size])
  }

  /** The fill pattern is intact: M_FILL behind the client's bytes of a live
      block, M_FREE_FILL all over a free one. */
  ghost predicate Clean(b: Block) {
    forall i :: 0 <= i < |b.contents| && b.rsize <= i ==> b.contents[i] == if b.inuse then M_FILL else M_FREE_FILL
  }

  ghost predicate AllClean(h: Heap)
    requires AllPlaced(h)
  {
    forall a {:trigger View(h, a)} :: a in h.hdr && a != START ==> Placed(h, a) && Clean(View(h, a))
  }

  /** The blocks outside `touched` are the same in both heaps. */
  ghost predicate Same(s: Heap, t: Heap, touched: set<int>)
    requires AllPlaced(s) && AllPlaced(t)
  {
    forall a {:trigger a in t.hdr} {:trigger a in s.hdr} :: a !in touched && a != START ==>
      (a in s.hdr <==> a in t.hdr) && (a in s.hdr ==> Placed(s, a) && Placed(t, a) && View(s, a) == View(t, a))
  }

  /** No two neighbouring arena blocks are free, unless the first is in
      `except`. */
  ghost predicate Coalesced(h: Heap, except: set<int>) {
    forall a {:trigger a in h.hdr} :: a in h.hdr && a != START && a !in except && h.hdr[a].next in h.hdr ==>
      h.hdr[a].inuse || h.hdr[h.hdr[a].next].inuse
  }

  ghost predicate Live(h: Heap, a: int) {
    a in h.hdr && h.hdr[a].inuse
  }

  function RoundUp(n: nat): (r: nat)
    ensures n <= r < n + M_RND && r % M_RND == 0
  {
    if n % M_RND != 0 then n - n % M_RND + M_RND else n
  }

  // ---- Cutting, merging and growing ----

  /** The tail of block `p` behind its first `size` bytes becomes a free block. */
  function Cut(h: Heap, p: int, size: int): Heap
    requires p in h.hdr
  {
    var t, n := p + M_SIZE + size, h.hdr[p].next;
    var hdr1 := h.hdr[p := h.hdr[p].(next := t, size := size)]
                [t := Header(n, p, false, 0, h.hdr[p].size - size - M_SIZE)];
    h.(hdr := if n in hdr1 then hdr1[n := hdr1[n].(prev := t)] else hdr1,
       end := if h.end == p then t else h.end)
  }

  /** When the tail of `p` can be cut off. */
  ghost predicate Cuttable(h: Heap, p: int, size: int) {
    && p in h.hdr && p != START
    && 0 <= size && size % M_RND == 0 && size + M_SIZE <= h.hdr[p].size
    && (h.hdr[p].inuse ==> h.hdr[p].rsize <= size)
  }

  /** The new block does not collide with another, and the block after `p`
      is where the end of the new block is. */
  lemma CutSite(h: Heap, p: int, size: int)
    requires Structure(h) && Cuttable(h, p, size)
    ensures p + M_SIZE + size !in h.hdr && NULL !in h.hdr && p >= h.base && Placed(h, p) && Linked(h, p)
    ensures h.hdr[p].next != p && h.hdr[p].next != START && h.hdr[p].prev != h.hdr[p].next && h.hdr[p].prev != p
    ensures forall a :: a in h.hdr && a != START && a != p ==> a + M_SIZE <= p || p + M_SIZE + h.hdr[p].size <= a
  {
    assert Placed(h, p) && Linked(h, p);
    var q := h.hdr[p].prev;
    assert Linked(h, q);
    assert q != START ==> Placed(h, q);
    assert NULL in h.hdr ==> Placed(h, NULL);
    forall a | a in h.hdr && a != START && a != p
      ensures a + M_SIZE <= p || p + M_SIZE + h.hdr[p].size <= a
    {
      assert Placed(h, a);
    }
  }

  lemma CutKeepsStart(h: Heap, p: int, size: int)
    requires Structure(h) && Cuttable(h, p, size)
    ensures StartOk(Cut(h, p, size)) && EndOk(Cut(h, p, size))
    ensures Cut(h, p, size).hdr.Keys == h.hdr.Keys + {p + M_SIZE + size}
  {
    hide AllPlaced, AllLinked, Ordered, Placed;
    CutSite(h, p, size);
  }

  lemma CutKeepsPlaced(h: Heap, p: int, size: int)
    requires Structure(h) && Cuttable(h, p, size)
    ensures AllPlaced(Cut(h, p, size))
  {
    hide AllLinked, Ordered, Linked;
    CutSite(h, p, size);
    var u := Cut(h, p, size);
    forall a | a in u.hdr && a != START ensures Placed(u, a) {
      assert a != p + M_SIZE + size ==> Placed(h, a);
    }
  }

  lemma CutKeepsOrder(h: Heap, p: int, size: int)
    requires Structure(h) && Cuttable(h, p, size)
    ensures Ordered(Cut(h, p, size))
  {
    hide AllLinked, AllPlaced, Linked;
    CutSite(h, p, size);
  }

  lemma CutKeepsLinks(h: Heap, p: int, size: int)
    requires Structure(h) && Cuttable(h, p, size)
    ensures AllLinked(Cut(h, p, size))
  {
    hide AllPlaced, Ordered, Linked;
    var u := Cut(h, p, size);
    forall a | a in u.hdr ensures Linked(u, a) {
      CutKeepsLink(h, p, size, a);
    }
  }

  lemma CutKeepsLink(h: Heap, p: int, size: int, a: int)
    requires Structure(h) && Cuttable(h, p, size) && a in Cut(h, p, size).hdr
    ensures Linked(Cut(h, p, size), a)
  {
    hide AllPlaced, Ordered;
    CutSite(h, p, size);
    var t, u, n := p + M_SIZE + size, Cut(h, p, size), h.hdr[p].next;
    if n in h.hdr {
      assert Linked(h, n);
    }
    if a != t {
      assert Linked(h, a);
    }
  }

  lemma CutKeepsStructure(h: Heap, p: int, size: int)
    requires Structure(h) && Cuttable(h, p, size)
    ensures Structure(Cut(h, p, size)) && p + M_SIZE + size !in h.hdr
    ensures Cut(h, p, size).hdr.Keys == h.hdr.Keys + {p + M_SIZE + size}
  {
    hide Placed, Linked, AllPlaced, AllLinked, Ordered, Cut, Cuttable, StartOk, EndOk;
    CutSite(h, p, size);
    CutKeepsStart(h, p, size);
    CutKeepsPlaced(h, p, size);
    CutKeepsOrder(h, p, size);
    CutKeepsLinks(h, p, size);
  }

  /** Block `a` swallows the block after it. */
  function Merge(h: Heap, a: int): Heap
    requires a in h.hdr && h.hdr[a].next in h.hdr
  {
    var n := h.hdr[a].next;
    var m := h.hdr[n].next;
    var hdr1 := (h.hdr - {n})[a := h.hdr[a].(next := m, size := h.hdr[a].size + h.hdr[n].size + M_SIZE)];
    h.(hdr := if m in hdr1 then hdr1[m := hdr1[m].(prev := a)] else hdr1,
       end := if h.end == n then a else h.end)
  }

  /** Around a merge: where the three blocks are. */
  lemma MergeSite(h: Heap, a: int)
    requires Structure(h) && a in h.hdr && a != START && h.hdr[a].next in h.hdr
    ensures NULL !in h.hdr && Placed(h, a) && Linked(h, a) && START !in {h.hdr[a].next, h.hdr[h.hdr[a].next].next}
    ensures h.hdr[a].next == After(h, a) && Placed(h, h.hdr[a].next) && Linked(h, h.hdr[a].next)
    ensures h.hdr[a].prev < a && h.hdr[h.hdr[a].next].next !in {h.hdr[a].next, a}
    ensures forall b :: b in h.hdr && b !in {a, h.hdr[a].next, START} ==>
      b + M_SIZE <= a || After(h, h.hdr[a].next) <= b
  {
    assert Placed(h, a) && Linked(h, a);
    var n, q := h.hdr[a].next, h.hdr[a].prev;
    assert Linked(h, n) && Linked(h, q);
    assert q != START ==> Placed(h, q);
    assert NULL in h.hdr ==> Placed(h, NULL);
    assert n != START;
    assert Placed(h, n);
    forall b | b in h.hdr && b !in {a, n, START}
      ensures b + M_SIZE <= a || After(h, n) <= b
    {
      assert Placed(h, b);
    }
  }

  lemma MergeKeepsStart(h: Heap, a: int)
    requires Structure(h) && a in h.hdr && a != START && h.hdr[a].next in h.hdr
    ensures StartOk(Merge(h, a)) && EndOk(Merge(h, a))
    ensures Merge(h, a).hdr.Keys == h.hdr.Keys - {h.hdr[a].next}
  {
    hide AllPlaced, AllLinked, Ordered, Placed;
    MergeSite(h, a);
  }

  lemma MergeKeepsPlaced(h: Heap, a: int)
    requires Structure(h) && a in h.hdr && a != START && h.hdr[a].next in h.hdr
    ensures AllPlaced(Merge(h, a))
  {
    hide AllLinked, Ordered, Linked;
    MergeSite(h, a);
    forall b | b in Merge(h, a).hdr && b != START ensures Placed(Merge(h, a), b) {
      assert Placed(h, b);
    }
  }

  lemma MergeKeepsOrder(h: Heap, a: int)
    requires Structure(h) && a in h.hdr && a != START && h.hdr[a].next in h.hdr
    ensures Ordered(Merge(h, a))
  {
    hide AllLinked, AllPlaced, Linked;
    MergeSite(h, a);
  }

  lemma MergeKeepsLinks(h: Heap, a: int)
    requires Structure(h) && a in h.hdr && a != START && h.hdr[a].next in h.hdr
    ensures AllLinked(Merge(h, a))
  {
    hide AllPlaced, Ordered;
    MergeSite(h, a);
    var u, m := Merge(h, a), h.hdr[h.hdr[a].next].next;
    forall b | b in u.hdr ensures Linked(u, b) {
      assert Linked(h, b);
      assert m in h.hdr ==> Linked(h, m);
    }
  }

  lemma MergeKeepsStructure(h: Heap, a: int)
    requires Structure(h) && a in h.hdr && a != START && h.hdr[a].next in h.hdr
    ensures Structure(Merge(h, a)) && h.hdr[a].next == After(h, a)
    ensures Merge(h, a).hdr.Keys == h.hdr.Keys - {h.hdr[a].next}
  {
    hide Placed, Linked, AllPlaced, AllLinked, Ordered, Merge, StartOk, EndOk;
    MergeSite(h, a);
    MergeKeepsStart(h, a);
    MergeKeepsPlaced(h, a);
    MergeKeepsOrder(h, a);
    MergeKeepsLinks(h, a);
  }

  /** sbrk(): a free block at the end of the arena. */
  function Grow(h: Heap, need: nat): Heap
    requires h.end in h.hdr
  {
    var p := Limit(h);
    h.(mem := h.mem + seq(need, _ => 0),
       hdr := h.hdr[h.end := h.hdr[h.end].(next := p)][p := Header(NULL, h.end, false, 0, need - M_SIZE)],
       end := p)
  }

  lemma GrowSite(h: Heap)
    requires Structure(h)
    ensures Limit(h) !in h.hdr && NULL !in h.hdr && Linked(h, h.end) && Next(h, h.end) == Limit(h) && h.base > START + M_SIZE
    ensures forall a :: a in h.hdr && a != START ==> h.base <= a && After(h, a) <= Limit(h) && a < Limit(h)
  {
    assert Linked(h, h.end);
    assert NULL in h.hdr ==> Placed(h, NULL);
    forall a | a in h.hdr && a != START ensures h.base <= a && After(h, a) <= Limit(h) && a < Limit(h) {
      assert Placed(h, a);
    }
  }

  lemma GrowKeepsLinks(h: Heap, need: nat)
    requires Structure(h) && need >= M_SIZE
    ensures AllLinked(Grow(h, need))
  {
    hide AllPlaced, Ordered, Placed;
    GrowSite(h);
    var u := Grow(h, need);
    forall a | a in u.hdr ensures Linked(u, a) {
      if a in h.hdr {
        assert Linked(h, a);
        if Next(h, a) == Limit(h) {
          LastIsEnd(h, a);
        }
      }
    }
  }

  /** The only block with nothing behind it is malloc_end. */
  lemma LastIsEnd(h: Heap, a: int)
    requires Structure(h) && a in h.hdr && Next(h, a) == Limit(h)
    ensures a == h.end
  {
    GrowSite(h);
    assert a != START ==> Placed(h, a);
    assert h.end != START ==> Placed(h, h.end);
  }

  lemma GrowKeepsStructure(h: Heap, need: nat)
    requires Structure(h) && need >= M_SIZE && need % M_RND == 0
    ensures Structure(Grow(h, need)) && Limit(h) !in h.hdr
    ensures Grow(h, need).hdr.Keys == h.hdr.Keys + {Limit(h)}
  {
    hide AllLinked, Linked;
    GrowSite(h);
    GrowKeepsLinks(h, need);
    var u := Grow(h, need);
    forall a | a in u.hdr && a != START ensures Placed(u, a) {
      assert a in h.hdr ==> Placed(h, a);
    }
  }

  /** A block is handed out, taken back, or its recorded size changed. */
  function Mark(h: Heap, a: int, inuse: bool, rsize: int): Heap
    requires a in h.hdr
  {
    h.(hdr := h.hdr[a := h.hdr[a].(inuse := inuse, rsize := rsize)])
  }

  lemma MarkKeepsStructure(h: Heap, a: int, inuse: bool, rsize: int)
    requires Structure(h) && a in h.hdr && a != START
    requires inuse ==> 0 <= rsize <= h.hdr[a].size
    ensures Structure(Mark(h, a, inuse, rsize))
  {
    var u := Mark(h, a, inuse, rsize);
    assert Ordered(u);
    forall b | b in u.hdr && b != START ensures Placed(u, b) {
      assert Placed(h, b);
    }
    forall b | b in u.hdr ensures Linked(u, b) {
      assert Linked(h, b);
    }
  }

  /** malloc_memset() on the bytes from `lo` up to `hi`. */
  function FillRange(mem: seq<int>, lo: int, hi: int, byte: int): (r: seq<int>)
    ensures |r| == |mem|
    ensures forall i :: 0 <= i < |mem| ==> r[i] == if lo <= i < hi then byte else mem[i]
  {
    seq(|mem|, i requires 0 <= i < |mem| => if lo <= i < hi then byte else mem[i])
  }

  /** Structure does not depend on the contents. */
  lemma BytesKeepStructure(h: Heap, mem: seq<int>)
    requires Structure(h) && |mem| == |h.mem|
    ensures Structure(h.(mem := mem))
  {
    var u := h.(mem := mem);
    assert Ordered(u);
    forall b | b in u.hdr && b != START ensures Placed(u, b) {
      assert Placed(h, b);
    }
    forall b | b in u.hdr ensures Linked(u, b) {
      assert Linked(h, b);
    }
  }

  // ---- What the steps do to contents and to free neighbours ----

  lemma SameTrans(s: Heap, t: Heap, u: Heap, d: set<int>, e: set<int>)
    requires AllPlaced(s) && AllPlaced(t) && AllPlaced(u) && Same(s, t, d) && Same(t, u, e)
    ensures Same(s, u, d + e)
  {
    hide Placed, View;
  }

  lemma MarkIsLocal(h: Heap, a: int, inuse: bool, rsize: int)
    requires Structure(h) && a in h.hdr && a != START && Structure(Mark(h, a, inuse, rsize))
    ensures Same(h, Mark(h, a, inuse, rsize), {a})
  {
    hide Ordered, AllLinked, Linked;
    forall b | b in h.hdr && b != START ensures Placed(h, b) && Placed(Mark(h, a, inuse, rsize), b) {
    }
  }

  lemma MarkAndNeighbours(h: Heap, a: int, inuse: bool, rsize: int, except: set<int>)
    requires Structure(h) && a in h.hdr && a != START && Coalesced(h, except)
    ensures inuse ==> Coalesced(Mark(h, a, inuse, rsize), except - {a, h.hdr[a].prev})
    ensures !inuse ==> Coalesced(Mark(h, a, inuse, rsize), except + {a, h.hdr[a].prev})
  {
    hide Ordered;
    assert NULL in h.hdr ==> Placed(h, NULL);
    assert Linked(h, a);
    forall b | b in h.hdr && b != START && h.hdr[b].next == a ensures b == h.hdr[a].prev {
      assert Linked(h, b);
      assert Linked(h, a);
    }
  }

  lemma CutIsLocal(h: Heap, p: int, size: int)
    requires Structure(h) && Cuttable(h, p, size)
    ensures Structure(Cut(h, p, size)) && Same(h, Cut(h, p, size), {p, p + M_SIZE + size})
    ensures Placed(h, p) && Placed(Cut(h, p, size), p)
    ensures View(Cut(h, p, size), p) == View(h, p).(contents := View(h, p).contents[..size])
  {
    hide StartOk, EndOk, Ordered, AllLinked, Linked, AllPlaced, Placed, View, Cut;
    CutKeepsStructure(h, p, size);
    var u := Cut(h, p, size);
    forall b | b in h.hdr && b != START ensures Placed(h, b) && Placed(u, b) && (b != p ==> View(h, b) == View(u, b)) {
      CutView(h, u, p, size, b);
    }
    CutView(h, u, p, size, p);
  }

  lemma CutView(h: Heap, u: Heap, p: int, size: int, b: int)
    requires Structure(h) && Cuttable(h, p, size) && u == Cut(h, p, size) && AllPlaced(u) && b in h.hdr && b != START
    ensures b in u.hdr && Placed(h, b) && Placed(u, b)
    ensures View(u, b) == if b == p then View(h, p).(contents := View(h, p).contents[..size]) else View(h, b)
  {
    hide StartOk, EndOk, Ordered, AllLinked, Linked;
    CutSite(h, p, size);
    assert Placed(h, b) && Placed(u, b);
  }

  lemma CutAndNeighbours(h: Heap, p: int, size: int, except: set<int>)
    requires Structure(h) && Cuttable(h, p, size) && Coalesced(h, except) && h.hdr[p].inuse
    ensures Coalesced(Cut(h, p, size), except + {p + M_SIZE + size})
  {
    CutSite(h, p, size);
    hide Ordered, AllPlaced, AllLinked, Linked, Placed;
    CutPoint(h, p, size);
  }

  /** No block had its successor at the cut point. */
  lemma CutPoint(h: Heap, p: int, size: int)
    requires Structure(h) && Cuttable(h, p, size)
    ensures forall b :: b in h.hdr ==> h.hdr[b].next != p + M_SIZE + size
  {
    CutSite(h, p, size);
    forall b | b in h.hdr ensures h.hdr[b].next != p + M_SIZE + size {
      assert Linked(h, b);
    }
  }

  lemma MergeIsLocal(h: Heap, a: int)
    requires Structure(h) && a in h.hdr && a != START && h.hdr[a].next in h.hdr
    ensures Structure(Merge(h, a)) && Same(h, Merge(h, a), {a, h.hdr[a].next})
  {
    hide StartOk, EndOk, Ordered, AllLinked, Linked, AllPlaced, Placed, View, Merge;
    MergeKeepsStructure(h, a);
    var u := Merge(h, a);
    forall b | b in h.hdr && b !in {a, h.hdr[a].next, START} ensures Placed(h, b) && Placed(u, b) && View(h, b) == View(u, b) {
      MergeView(h, u, a, b);
    }
  }

  lemma MergeView(h: Heap, u: Heap, a: int, b: int)
    requires Structure(h) && a in h.hdr && a != START && h.hdr[a].next in h.hdr && u == Merge(h, a) && AllPlaced(u)
    requires b in h.hdr && b in u.hdr && b !in {a, h.hdr[a].next, START}
    ensures Placed(h, b) && Placed(u, b) && View(h, b) == View(u, b)
  {
    hide StartOk, EndOk, Ordered, AllLinked, Linked;
    assert Placed(h, b) && Placed(u, b);
  }

  lemma MergeAndNeighbours(h: Heap, a: int, except: set<int>)
    requires Structure(h) && a in h.hdr && a != START && h.hdr[a].next in h.hdr
    requires Coalesced(h, except) && h.hdr[a].next !in except && !h.hdr[h.hdr[a].next].inuse
    ensures Coalesced(Merge(h, a), except - {a})
  {
    MergeSite(h, a);
    var n := h.hdr[a].next;
    assert n in h.hdr;
    forall b | b in h.hdr && h.hdr[b].next == n ensures b == a {
      assert Linked(h, b);
      assert Linked(h, n);
    }
    hide Ordered, AllPlaced, AllLinked, Linked, Placed;
  }

  lemma GrowIsLocal(h: Heap, need: nat, except: set<int>)
    requires Structure(h) && need >= M_SIZE && need % M_RND == 0 && Coalesced(h, except)
    ensures Structure(Grow(h, need)) && Same(h, Grow(h, need), {Limit(h)})
    ensures Coalesced(Grow(h, need), except + {h.end})
  {
    hide StartOk, Ordered, AllLinked, Linked, AllPlaced, Placed, View;
    GrowKeepsStructure(h, need);
    var u := Grow(h, need);
    forall b | b in h.hdr ensures b in u.hdr && h.hdr[b].next != Limit(h) && u.hdr[b].inuse == h.hdr[b].inuse {
      GrowView(h, u, need, b);
    }
    forall b | b in h.hdr && b != START ensures Placed(h, b) && Placed(u, b) && View(h, b) == View(u, b) {
      GrowView(h, u, need, b);
    }
    assert u.hdr.Keys == h.hdr.Keys + {Limit(h)};
    GrowNext(h, u, need);
  }

  lemma GrowView(h: Heap, u: Heap, need: nat, b: int)
    requires Structure(h) && need >= M_SIZE && u == Grow(h, need) && AllPlaced(u) && b in h.hdr
    ensures b in u.hdr && h.hdr[b].next != Limit(h) && u.hdr[b].inuse == h.hdr[b].inuse
    ensures b != START ==> Placed(h, b) && Placed(u, b) && View(h, b) == View(u, b)
  {
    assert Linked(h, b);
    GrowSite(h);
    hide StartOk, EndOk, Ordered, AllLinked, Linked;
    assert b != START ==> Placed(h, b) && Placed(u, b);
  }

  lemma GrowNext(h: Heap, u: Heap, need: nat)
    requires Structure(h) && u == Grow(h, need)
    ensures Limit(h) in u.hdr && u.hdr[Limit(h)].next == NULL && NULL !in u.hdr
    ensures forall b :: b in h.hdr && b != h.end ==> u.hdr[b].next == h.hdr[b].next
  {
    GrowSite(h);
    assert NULL != Limit(h);
  }

  /** Writing inside one block leaves the others alone. */
  lemma BytesAreLocal(h: Heap, a: int, mem: seq<int>)
    requires Structure(h) && a in h.hdr && a != START && |mem| == |h.mem|
    requires forall i :: 0 <= i < |mem| && !(a <= h.base + i < After(h, a)) ==> mem[i] == h.mem[i]
    ensures Structure(h.(mem := mem)) && Same(h, h.(mem := mem), {a})
  {
    var u := h.(mem := mem);
    BytesKeepStructure(h, mem);
    hide AllLinked, Linked;
    forall b | b in h.hdr && b != START ensures Placed(h, b) && Placed(u, b) {
    }
  }

  lemma FillIsLocal(h: Heap, a: int, lo: int, hi: int, byte: int)
    requires Structure(h) && a in h.hdr && a != START && a <= h.base + lo && h.base + hi <= After(h, a)
    ensures Structure(h.(mem := FillRange(h.mem, lo, hi, byte)))
    ensures Same(h, h.(mem := FillRange(h.mem, lo, hi, byte)), {a})
  {
    hide Structure, Same;
    BytesAreLocal(h, a, FillRange(h.mem, lo, hi, byte));
  }

  // ---- What an operation does as a whole ----

  /** Outside `touched`, live blocks stay as they are, and every other block is
      an old one or a free, clean one. */
  ghost predicate Evolves(s: Heap, t: Heap, touched: set<int>)
    requires AllPlaced(s) && AllPlaced(t)
  {
    && (forall a {:trigger a in t.hdr} :: a in t.hdr && a != START && a !in touched ==>
         Placed(t, a) && (Kept(s, t, a) || (!t.hdr[a].inuse && Clean(View(t, a)))))
    && (forall a {:trigger a in s.hdr} :: a in s.hdr && a != START && a !in touched && s.hdr[a].inuse ==>
         Kept(s, t, a))
  }

  ghost predicate Kept(s: Heap, t: Heap, a: int) {
    a in s.hdr && a in t.hdr && Placed(s, a) && Placed(t, a) && View(s, a) == View(t, a)
  }

  lemma EvolvesTrans(s: Heap, t: Heap, u: Heap, d: set<int>, e: set<int>)
    requires AllPlaced(s) && AllPlaced(t) && AllPlaced(u) && Evolves(s, t, d) && Evolves(t, u, e)
    ensures Evolves(s, u, d + e)
  {
    hide Placed, Clean;
  }

  /** Blocks that are free before, and gone or clean after, need no mention. */
  lemma SameEvolves(s: Heap, t: Heap, touched: set<int>, rest: set<int>)
    requires AllPlaced(s) && AllPlaced(t) && Same(s, t, touched)
    requires forall a :: a in touched && a !in rest && a in s.hdr && a != START ==> !s.hdr[a].inuse
    requires forall a :: a in touched && a !in rest && a in t.hdr && a != START ==>
               Placed(t, a) && !t.hdr[a].inuse && Clean(View(t, a))
    ensures Evolves(s, t, rest)
  {
    hide Placed, Clean, View;
  }

  lemma EvolvesKeepsClean(s: Heap, t: Heap, touched: set<int>)
    requires AllPlaced(s) && AllPlaced(t) && Evolves(s, t, touched) && AllClean(s)
    requires forall a :: a in touched && a in t.hdr && a != START ==> Placed(t, a) && Clean(View(t, a))
    ensures AllClean(t)
  {
    hide Clean, Placed;
    forall a | a in t.hdr && a != START ensures Placed(t, a) && Clean(View(t, a)) {
      if a !in touched && Kept(s, t, a) {
        assert Clean(View(s, a));
      }
    }
  }

  /** The client's memory: the bytes of every live block, by block. */
  ghost function Store(h: Heap): map<int, seq<int>>
    requires AllPlaced(h)
  {
    map a | a in h.hdr && a != START && h.hdr[a].inuse :: Data(h, a)
  }

  ghost function Data(h: Heap, a: int): seq<int>
    requires AllPlaced(h) && a in h.hdr && a != START && h.hdr[a].inuse
  {
    assert Placed(h, a);
    View(h, a).contents[..h.hdr[a].rsize]
  }

  lemma EvolvesKeepsStore(s: Heap, t: Heap, touched: set<int>)
    requires AllPlaced(s) && AllPlaced(t) && Evolves(s, t, touched)
    ensures Store(t) - touched == Store(s) - touched
  {
    hide Clean, Placed, View;
    forall a | a !in touched && a != START
      ensures a in Store(t) <==> a in Store(s)
      ensures a in Store(s) ==> Store(s)[a] == Store(t)[a]
    {
      if a in s.hdr && s.hdr[a].inuse {
        assert Kept(s, t, a);
        ViewFields(s, a);
        ViewFields(t, a);
      }
      if a in t.hdr && t.hdr[a].inuse {
        assert Kept(s, t, a);
        ViewFields(s, a);
        ViewFields(t, a);
      }
    }
  }

  lemma ViewFields(h: Heap, a: int)
    requires a in h.hdr && Placed(h, a)
    ensures View(h, a).inuse == h.hdr[a].inuse && |View(h, a).contents| == h.hdr[a].size
    ensures h.hdr[a].inuse ==> View(h, a).rsize == h.hdr[a].rsize
  {
  }
}
