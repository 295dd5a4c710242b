/** The debugging allocator of dbug/malloc: malloc(), free(), realloc() and
    malloc_chain_check(), each proved against the block chain of HeapState. */
module Malloc {
  import opened HeapState
  import opened HeapSteps

  /** Why a pointer is refused (M_CODE_ numbers in malloc.h). */
  datatype Fault = NoFault | BadPtr | BadMagic | NotInUse | BadConnect

  /** The checks at the head of free() and realloc(), in their order. */
  function PointerFault(h: Heap, cptr: int): Fault {
    var a := cptr - M_SIZE;
    if cptr < h.base || cptr > Limit(h) then BadPtr
    else if a !in h.hdr then BadMagic
    else if !h.hdr[a].inuse then NotInUse
    else if Disconnected(h, a) then BadConnect
    else NoFault
  }

  /** The test for M_CODE_BAD_CONNECT. */
  predicate Disconnected(h: Heap, a: int)
    requires a in h.hdr
  {
    || (h.hdr[a].prev in h.hdr && h.hdr[h.hdr[a].prev].next != a)
    || (h.hdr[a].next in h.hdr && h.hdr[h.hdr[a].next].prev != a)
    || (h.hdr[a].next == NULL && h.hdr[a].prev == NULL)
  }

  /** In a sound heap the checks accept exactly the pointers to live blocks,
      and the one for bad connections never fires. */
  lemma FaultsAreExact(h: Heap, cptr: int)
    requires Structure(h)
    ensures PointerFault(h, cptr) == NoFault <==> Live(h, cptr - M_SIZE)
    ensures PointerFault(h, cptr) != BadConnect
  {
    var a := cptr - M_SIZE;
    if a in h.hdr && h.hdr[a].inuse {
      assert Placed(h, a) && Linked(h, a);
      assert NULL in h.hdr ==> Placed(h, NULL);
    }
  }

  /** A block that malloc() may hand out for `n` bytes. */
  ghost predicate Fits(h: Heap, a: int, n: int) {
    a in h.hdr && !h.hdr[a].inuse && h.hdr[a].size >= n
  }

  ghost predicate NoFit(h: Heap, n: int) {
    forall a :: !Fits(h, a, n)
  }

  ghost predicate LowestFit(h: Heap, a: int, n: int) {
    Fits(h, a, n) && forall b :: Fits(h, b, n) ==> a <= b
  }

  lemma FitsAreBlocks(h: Heap, n: int)
    requires Structure(h) && n > 0
    ensures forall a :: Fits(h, a, n) ==> h.base <= a && a != START && START < a
    ensures START in h.hdr && START < Limit(h)
  {
    forall a | Fits(h, a, n) ensures h.base <= a && a != START {
      assert a != START ==> Placed(h, a);
    }
  }

  /** How much malloc() asks sbrk() for. */
  function Need(size: nat): (need: nat)
    ensures need % M_BLOCKSIZE == 0 && need % M_RND == 0
    ensures need >= size + M_SIZE && (size <= 10 * 1024 ==> need >= 2 * (size + M_SIZE))
    ensures need == M_BLOCKSIZE || need - M_BLOCKSIZE < size + M_SIZE || (size <= 10 * 1024 && need - M_BLOCKSIZE < 2 * (size + M_SIZE))
  {
    var need := (size + M_SIZE) * (if size > 10 * 1024 then 1 else 2);
    if need < M_BLOCKSIZE then M_BLOCKSIZE
    else if need % M_BLOCKSIZE != 0 then need - need % M_BLOCKSIZE + M_BLOCKSIZE
    else need
  }

  /** The order in which malloc_join() writes the headers makes no difference. */
  lemma MergeInPlace(h: Heap, a: int, n: int, linked: map<int, Header>)
    requires a in h.hdr && n == h.hdr[a].next && n in h.hdr && n != a && NULL !in h.hdr
    requires h.hdr[n].next != NULL ==> h.hdr[n].next in h.hdr && h.hdr[n].next != n
    requires var passed := h.hdr[a := h.hdr[a].(next := h.hdr[n].next)];
             var grown := passed[a := passed[a].(size := passed[a].size + (h.hdr[n].size + M_SIZE))];
             linked == if h.hdr[n].next == NULL then grown
                       else grown[h.hdr[n].next := grown[h.hdr[n].next].(prev := a)]
    ensures Merge(h, a) == Heap(h.base, h.mem, linked - {n}, if h.end == n then a else h.end)
  {
  }

  /** One step down the chain skips nothing and goes upwards. */
  lemma ChainStep(h: Heap, a: int)
    requires Structure(h) && a in h.hdr
    ensures h.hdr[a].next == NULL ==> a == h.end && forall b :: b in h.hdr ==> b <= a
    ensures h.hdr[a].next != NULL ==>
              a < h.hdr[a].next < Limit(h) && h.hdr[a].next in h.hdr && h.hdr[a].next != START
              && forall b :: b in h.hdr && b > a ==> b >= h.hdr[a].next
  {
    assert Linked(h, a) && (a != START ==> Placed(h, a));
    assert NULL in h.hdr ==> Placed(h, NULL);
    forall b | b in h.hdr
      ensures b == START < h.base || (h.base <= b < b + M_SIZE <= After(h, b) <= Limit(h))
    {
      assert b != START ==> Placed(h, b);
    }
    if h.hdr[a].next == NULL {
      LastIsEnd(h, a);
    }
  }

  /** The heap in which malloc() prepares its block: as found, or extended. */
  ghost predicate Prepared(h: Heap, g: Heap, a: int, size: nat)
    requires Structure(h)
  {
    || (g == h && LowestFit(h, a, size + 1))
    || (NoFit(h, size + 1) && g == Grow(h, Need(size + 1)) && a == Limit(h))
  }

  /** Block `a` may be marked and split for `size` bytes. */
  ghost predicate Allotable(g: Heap, a: int, size: nat) {
    && a in g.hdr
    && var m := Mark(g, a, true, size + 1);
    && Structure(m) && Coalesced(m, {}) && Live(m, a)
    && Live(Trimmed(m, a), a) && Placed(Trimmed(m, a), a) && Trimmed(m, a).hdr[a].rsize == size + 1
  }

  lemma HandSite(h: Heap, g: Heap, a: int, size: nat)
    requires Structure(h) && Coalesced(h, {}) && Prepared(h, g, a, size)
    ensures Structure(g) && a in g.hdr && a != START && !g.hdr[a].inuse && size < g.hdr[a].size
    ensures Coalesced(g, {g.hdr[a].prev}) && Evolves(h, g, {a}) && !Live(h, a) && g.base == h.base
    ensures Allotable(g, a, size)
  {
    HandGround(h, g, a, size);
    var m := Mark(g, a, true, size + 1);
    MarkKeepsStructure(g, a, true, size + 1);
    MarkAndNeighbours(g, a, true, size + 1, {g.hdr[a].prev});
    assert {g.hdr[a].prev} - {a, g.hdr[a].prev} == {};
    hide Structure, Coalesced, Evolves, Prepared, Placed, Trimmed, View;
    TrimKeeps(m, a);
    ViewFields(m, a);
    ViewFields(Trimmed(m, a), a);
  }

  lemma HandGround(h: Heap, g: Heap, a: int, size: nat)
    requires Structure(h) && Coalesced(h, {}) && Prepared(h, g, a, size)
    ensures Structure(g) && a in g.hdr && a != START && !g.hdr[a].inuse && size < g.hdr[a].size
    ensures Coalesced(g, {g.hdr[a].prev}) && Evolves(h, g, {a}) && !Live(h, a) && g.base == h.base
  {
    FitsAreBlocks(h, size + 1);
    GrowSite(h);
    if g == h {
      Unchanged(h);
      SameEvolves(h, h, {}, {a});
    } else {
      GrowIsLocal(h, Need(size + 1), {});
      assert {} + {h.end} == {h.end};
      SameEvolves(h, g, {a}, {a});
    }
  }

  lemma TrimLength(h: Heap, a: int)
    requires a in h.hdr
    ensures |Trimmed(h, a).mem| == |h.mem|
  {
  }

  lemma HandDone(h: Heap, g: Heap, w: Heap, a: int, size: nat)
    requires Structure(h) && Coalesced(h, {}) && Prepared(h, g, a, size) && a in g.hdr && w == Handed(g, a, size)
    ensures Structure(w) && Coalesced(w, {}) && Evolves(h, w, {a}) && Handout(w, a, size)
    ensures !Live(h, a) && (AllClean(h) ==> AllClean(w))
    ensures a !in Store(h) && Store(w) == Store(h)[a := seq(size, _ => M_FILL)]
    ensures if NoFit(h, size + 1) then a == Limit(h) && |w.mem| == |h.mem| + Need(size + 1)
            else LowestFit(h, a, size + 1) && |w.mem| == |h.mem|
  {
    TrimLength(Mark(g, a, true, size + 1), a);
    assert LowestFit(h, a, size + 1) ==> !NoFit(h, size + 1);
    HandGround(h, g, a, size);
    hide Coalesced, Prepared, Trimmed, Mark, Handed;
    HandKeeps(g, a, size);
    EvolvesTrans(h, g, w, {a}, {a});
    assert {a} + {a} == {a};
    hide AllLinked, AllPlaced, Ordered, StartOk, EndOk, Linked, Evolves;
    EvolvesKeepsStore(h, w, {a});
    ViewFields(w, a);
    if AllClean(h) {
      assert Clean(View(w, a));
      EvolvesKeepsClean(h, w, {a});
    }
    StoreUpdate(h, w, a, size);
  }

  lemma StoreUpdate(h: Heap, w: Heap, a: int, size: nat)
    requires Structure(h) && Structure(w) && Store(w) - {a} == Store(h) - {a} && !Live(h, a) && Handout(w, a, size)
    ensures a !in Store(h) && Store(w) == Store(h)[a := seq(size, _ => M_FILL)]
  {
    assert Store(h) - {a} == Store(h);
    assert a != START;
    assert Store(w)[a] == Data(w, a);
    assert Data(w, a) == seq(size, _ => M_FILL);
    assert Store(w) == (Store(w) - {a})[a := Data(w, a)];
  }

  /** malloc_split() writes the new header first and joins before it links: the
      header in the middle of block `p`. */
  ghost function Planted(h: Heap, p: int, t: int, size: int): Heap
    requires p in h.hdr
  {
    h.(hdr := h.hdr[t := Header(h.hdr[p].next, p, false, 0, h.hdr[p].size - size - M_SIZE)])
  }

  /** The pointers that malloc_join() follows lead to headers. */
  ghost predicate LinksAt(h: Heap, ptr: int, nextptr: int) {
    && NULL !in h.hdr && (ptr != NULL ==> ptr in h.hdr && h.hdr[ptr].next == nextptr)
    && (nextptr != NULL ==> nextptr in h.hdr && nextptr != ptr)
    && (nextptr != NULL && h.hdr[nextptr].next != NULL ==> h.hdr[nextptr].next in h.hdr && h.hdr[nextptr].next != nextptr)
  }

  lemma LinksKnown(h: Heap, a: int)
    requires Structure(h) && a in h.hdr
    ensures LinksAt(h, a, h.hdr[a].next)
  {
    ChainStep(h, a);
    if h.hdr[a].next in h.hdr {
      ChainStep(h, h.hdr[a].next);
    }
    assert NULL in h.hdr ==> Placed(h, NULL);
  }

  lemma PlantedSite(h: Heap, p: int, t: int, size: int)
    requires Structure(h) && Cuttable(h, p, size) && t == p + M_SIZE + size
    ensures var n := h.hdr[p].next;
            && NULL !in h.hdr && t != NULL && t !in h.hdr && n !in {p, t} && p != t
            && (n != NULL ==> n in h.hdr && (h.hdr[n].next != NULL ==> h.hdr[n].next in h.hdr && h.hdr[n].next !in {n, p, t}))
            && h.base <= t && t + h.hdr[p].size - size <= Limit(h)
            && (n != NULL ==> t + h.hdr[p].size - size == n && Placed(h, n))
  {
    CutSite(h, p, size);
    var n := h.hdr[p].next;
    assert n in h.hdr ==> Placed(h, n) && Linked(h, n);
  }

  /** ... and the outcome is that of cutting first and joining then. */
  lemma PlantedIsCut(h: Heap, p: int, t: int, size: int, j: Heap)
    requires Structure(h) && Cuttable(h, p, size) && t == p + M_SIZE + size
    requires j == Joined(Planted(h, p, t, size), t, false)
    ensures t in j.hdr && p in j.hdr && j.hdr[t].next !in {p, t} && (j.hdr[t].next != NULL ==> j.hdr[t].next in j.hdr)
    ensures j.mem == h.mem && h.base <= t && Index(h, t) + j.hdr[t].size <= |h.mem|
    ensures var m := j.hdr[t].next;
            var linked := if m == NULL then j.hdr else j.hdr[m := j.hdr[m].(prev := t)];
            var v := Joined(Cut(h, p, size), t, false);
            v == Heap(h.base, h.mem, linked[p := linked[p].(next := t, size := size)], if j.end == p then t else j.end)
  {
    PlantedSite(h, p, t, size);
    hide Structure, Placed, Cuttable;
    var k, c, n := Planted(h, p, t, size), Cut(h, p, size), h.hdr[p].next;
    assert Joins(k, t, false) <==> Joins(c, t, false);
    var v := Joined(c, t, false);
    assert n == NULL || n in h.hdr;
    if Joins(k, t, false) {
      var m := h.hdr[n].next;
      assert v.hdr == Merge(c, t).hdr && j.hdr == Merge(k, t).hdr;
      assert j.hdr[t].next == m;
    }
  }

  ghost predicate CleanAt(h: Heap, a: int) {
    a in h.hdr && Placed(h, a) && Clean(View(h, a))
  }

  /** What free() does to block `p`: no longer live, its bytes in a free block
      full of M_FREE_FILL, everybody else's memory as before. */
  ghost predicate Disposed(h: Heap, t: Heap, p: int)
    requires Structure(h) && Structure(t)
  {
    && !Live(t, p) && Evolves(h, t, {p}) && Reclaimed(h, t, p)
    && (AllCleanBut(h, p) ==> AllClean(t))
    && Store(t) == Store(h) - {p}
  }

  ghost predicate AllCleanBut(h: Heap, p: int)
    requires AllPlaced(h)
  {
    forall a {:trigger View(h, a)} :: a in h.hdr && a != START && a != p ==> Placed(h, a) && Clean(View(h, a))
  }

  lemma FreeDone(h: Heap, w: Heap, p: int)
    requires Structure(h) && Coalesced(h, {}) && Live(h, p) && w == Freed(h, p)
    ensures Structure(w) && Coalesced(w, {}) && Disposed(h, w, p)
  {
    FreeKeeps(h, p);
    EvolvesKeepsStore(h, w, {p});
    assert Store(w) - {p} == Store(w);
    hide AllLinked, Ordered, StartOk, EndOk, Linked, Evolves, Freed, Reclaimed, Store, Coalesced;
    if AllCleanBut(h, p) {
      FreeKeepsClean(h, w, p);
    }
  }

  lemma FreeKeepsClean(h: Heap, w: Heap, p: int)
    requires AllPlaced(h) && AllPlaced(w) && Evolves(h, w, {p}) && AllCleanBut(h, p)
    requires p in w.hdr ==> Placed(w, p) && Clean(View(w, p))
    ensures AllClean(w)
  {
    hide Clean, Placed;
    forall a | a in w.hdr && a != START ensures Placed(w, a) && Clean(View(w, a)) {
      if a != p && Kept(h, w, a) {
        assert Clean(View(h, a));
      }
    }
  }

  lemma LiveSite(h: Heap, p: int)
    requires Structure(h) && Live(h, p)
    ensures p != START && Placed(h, p) && 0 <= h.hdr[p].rsize <= h.hdr[p].size
  {
  }

  /** The stages of free(). */
  lemma FreeSite(h: Heap, p: int, m: Heap, t: Heap, j: Heap)
    requires Structure(h) && Coalesced(h, {}) && Live(h, p)
    requires m == Mark(h, p, false, h.hdr[p].rsize) && t == Joined(m, p, false)
    requires j == Joined(t, h.hdr[p].prev, false)
    ensures LinksAt(m, p, m.hdr[p].next) && p in t.hdr && t.hdr[p].prev == h.hdr[p].prev && h.hdr[p].prev != NULL
    ensures LinksAt(t, h.hdr[p].prev, p) && h.hdr[p].prev in j.hdr
    ensures var q := Remains(j, p, h.hdr[p].prev);
            q in j.hdr && j.base == h.base && h.base <= q && Index(h, q) + j.hdr[q].size <= |j.mem| == |h.mem|
  {
    var prev := h.hdr[p].prev;
    FreeNext(h, p, t);
    MarkKeepsStructure(h, p, false, h.hdr[p].rsize);
    LinksKnown(m, p);
    FreePrev(t, p, prev, j, Remains(j, p, prev));
    assert Linked(t, p);
    LinksKnown(t, prev);
    assert Placed(j, Remains(j, p, prev));
  }

  // ---- realloc() ----

  /** realloc() need not move the block: it is large enough as it is. */
  ghost predicate EnoughRoom(h: Heap, p: int, size: nat)
    requires p in h.hdr
  {
    RoundUp(size + 1) <= h.hdr[p].size
  }

  lemma EmptyArena(h: Heap, n: int)
    requires Structure(h) && h.mem == [] && n > 0
    ensures NoFit(h, n)
  {
    forall a ensures !Fits(h, a, n) {
      assert a in h.hdr && a != START ==> Placed(h, a);
    }
  }

  /** In an arena of which only block `a` is in use, at its start, the rest is
      one free block. */
  lemma RoomBehind(h: Heap, a: int)
    requires Structure(h) && Coalesced(h, {}) && Live(h, a) && a == h.base && h.hdr[a].size + 2 * M_SIZE < |h.mem|
    requires forall b :: b in h.hdr && h.hdr[b].inuse ==> b == a
    ensures var n := h.hdr[a].next;
            n in h.hdr && !h.hdr[n].inuse && After(h, a) == n && h.hdr[a].size + M_SIZE + h.hdr[n].size + M_SIZE == |h.mem|
  {
    assert Linked(h, a) && a != START;
    var n := h.hdr[a].next;
    assert n in h.hdr && Linked(h, n) && n != START;
    assert Placed(h, a) && Placed(h, n);
    ChainStep(h, n);
  }

  /** realloc() has turned block `p` into block `a`: the first bytes are kept,
      fill follows, everybody else's memory is as before, and what is no longer
      needed is free. */
  ghost predicate Reallocated(h: Heap, t: Heap, p: int, a: int, size: nat)
    requires Structure(h) && Structure(t)
  {
    && Live(h, p) && Live(t, a) && Placed(h, p) && Placed(t, a) && Evolves(h, t, {p, a})
    && (a != p ==> !Live(t, p) && !Live(h, a))
    && View(t, a).rsize == (if a == p then size + 1 else RoundUp(size + 1))
    && Moved(View(h, p), View(t, a), Min(h.hdr[p].rsize, size + 1))
    && (AllCleanBut(h, p) ==> AllClean(t))
    && if a == p then GivesBack(h, t, p, size + 1)
       else Reclaimed(h, t, p) && t.hdr[a].size <= RoundUp(size + 1) + M_SIZE + 2 * M_RND
  }

  lemma DataOf(h: Heap, a: int)
    requires Structure(h) && Live(h, a)
    ensures a in Store(h) && Store(h)[a] == Data(h, a) && a != START && Placed(h, a)
    ensures |Data(h, a)| == h.hdr[a].rsize == View(h, a).rsize <= |View(h, a).contents|
    ensures Data(h, a) == View(h, a).contents[..View(h, a).rsize]
  {
    LiveSite(h, a);
  }

  lemma MovedBytes(from: Block, to: Block, kept: int, was: seq<int>, now: seq<int>, size: nat)
    requires Moved(from, to, kept) && kept == Min(|was|, size + 1) && |now| <= |to.contents| && |was| <= |from.contents|
    requires was == from.contents[..|was|] && now == to.contents[..|now|]
    ensures forall i :: 0 <= i < |now| ==> now[i] == if i < |was| && i <= size then was[i] else M_FILL
  {
    forall i | 0 <= i < |now| ensures now[i] == if i < |was| && i <= size then was[i] else M_FILL {
      if i < kept {
        assert to.contents[..kept][i] == from.contents[..kept][i];
      }
    }
  }

  /** ... in terms of the client's memory. */
  lemma ReallocatedStore(h: Heap, t: Heap, p: int, a: int, size: nat)
    requires Structure(h) && Structure(t) && Reallocated(h, t, p, a, size)
    ensures p in Store(h) && a in Store(t) && |Store(t)[a]| == if a == p then size + 1 else RoundUp(size + 1)
    ensures Store(t) == (Store(h) - {p})[a := Store(t)[a]] && (a == p || a !in Store(h))
    ensures forall i :: 0 <= i < |Store(t)[a]| ==>
              Store(t)[a][i] == if i < |Store(h)[p]| && i <= size then Store(h)[p][i] else M_FILL
  {
    hide AllLinked, Ordered, StartOk, EndOk, AllPlaced, Placed, Evolves, View, AllClean, AllCleanBut, Data, Moved;
    DataOf(h, p);
    DataOf(t, a);
    EvolvesKeepsStore(h, t, {p, a});
    assert a != p ==> a !in Store(h) && p !in Store(t);
    hide Store, Live;
    assert Store(t) == (Store(t) - {p, a})[a := Data(t, a)];
    assert (Store(h) - {p}) - {a} == Store(h) - {p, a};
    MovedBytes(View(h, p), View(t, a), Min(h.hdr[p].rsize, size + 1), Data(h, p), Data(t, a), size);
  }

  lemma CleanButKept(s: Heap, t: Heap, touched: set<int>, p: int)
    requires AllPlaced(s) && AllPlaced(t) && Evolves(s, t, touched)
    requires forall a :: a in touched && a != p && a in t.hdr && a != START ==> Placed(t, a) && Clean(View(t, a))
    ensures AllCleanBut(s, p) ==> AllCleanBut(t, p)
  {
    hide Clean, Placed;
    if AllCleanBut(s, p) {
      forall a | a in t.hdr && a != START && a != p ensures Placed(t, a) && Clean(View(t, a)) {
        if a !in touched && Kept(s, t, a) {
          assert Clean(View(s, a));
        }
      }
    }
  }

  lemma ReallocInPlace(h: Heap, p: int, size: nat)
    requires Structure(h) && Coalesced(h, {}) && Live(h, p) && EnoughRoom(h, p, size)
    ensures var w := Resized(h, p, size);
            Structure(w) && Coalesced(w, {}) && Reallocated(h, w, p, p, size)
  {
    hide Resized, AllLinked, AllPlaced, Ordered, StartOk, EndOk, Linked, View, Placed, Evolves, Coalesced, Clean, AllClean, AllCleanBut, Moved;
    LiveSite(h, p);
    ResizeKeeps(h, p, size);
    assert {p, p} == {p};
    PaddedIsClean(h, Resized(h, p, size), p, size);
  }

  lemma PaddedIsClean(g: Heap, w: Heap, p: int, size: nat)
    requires AllPlaced(g) && AllPlaced(w) && Evolves(g, w, {p}) && p in g.hdr && Live(w, p) && Placed(g, p) && Placed(w, p)
    requires View(w, p).rsize == size + 1 && Moved(View(g, p), View(w, p), Min(g.hdr[p].rsize, size + 1))
    ensures AllCleanBut(g, p) ==> AllClean(w)
  {
    CleanButKept(g, w, {p}, p);
  }

  /** The `n` bytes at `from` copied to `to`, as if at once. */
  function CopyRange(mem: seq<int>, to: int, from: int, n: int): (r: seq<int>)
    requires 0 <= to <= |mem| - n && 0 <= from <= |mem| - n
    ensures |r| == |mem|
    ensures forall i :: 0 <= i < |mem| ==> r[i] == if to <= i < to + n then mem[from + i - to] else mem[i]
  {
    seq(|mem|, i requires 0 <= i < |mem| => if to <= i < to + n then mem[from + i - to] else mem[i])
  }

  lemma CopyNothing(mem: seq<int>, to: int, from: int)
    requires 0 <= to <= |mem| && 0 <= from <= |mem|
    ensures CopyRange(mem, to, from, 0) == mem
  {
  }

  /** Copying upwards never reads a byte already written, unless the target
      begins inside the source. */
  lemma CopyForward(mem: seq<int>, to: int, from: int, k: nat, n: nat)
    requires 0 <= to <= |mem| - n && 0 <= from <= |mem| - n && k < n && (to <= from || to >= from + n)
    ensures var r := CopyRange(mem, to, from, k); r[to + k := r[from + k]] == CopyRange(mem, to, from, k + 1)
  {
  }

  /** ... and then copying downwards does not either. */
  lemma CopyBackward(mem: seq<int>, to: int, from: int, left: nat, n: nat)
    requires 0 <= to <= |mem| - n && 0 <= from <= |mem| - n && 0 < left <= n && from < to
    ensures var r := CopyRange(mem, to + left, from + left, n - left);
            r[to + left - 1 := r[from + left - 1]] == CopyRange(mem, to + left - 1, from + left - 1, n - left + 1)
  {
  }

  /** memcpy() of `n` bytes from block `p` to block `a`. */
  ghost function Copied(h: Heap, p: int, a: int, n: int): Heap
    requires 0 <= n && 0 <= Index(h, p) <= |h.mem| - n && 0 <= Index(h, a) <= |h.mem| - n
  {
    h.(mem := CopyRange(h.mem, Index(h, a), Index(h, p), n))
  }

  lemma CopiedIs(h: Heap, w: Heap, p: int, a: int, n: int)
    requires 0 <= n && 0 <= Index(h, p) <= |h.mem| - n && 0 <= Index(h, a) <= |h.mem| - n
    requires w == h.(mem := CopyRange(h.mem, a + M_SIZE - h.base, p + M_SIZE - h.base, n))
    ensures w == Copied(h, p, a, n)
  {
  }

  lemma CopyKeeps(h: Heap, p: int, a: int, n: int)
    requires Structure(h) && Coalesced(h, {}) && Live(h, p) && Live(h, a) && a != p
    requires 0 <= n <= h.hdr[p].size && n <= h.hdr[a].size
    ensures 0 <= Index(h, p) <= |h.mem| - n && 0 <= Index(h, a) <= |h.mem| - n
    ensures var w := Copied(h, p, a, n);
            Structure(w) && Coalesced(w, {}) && Evolves(h, w, {a}) && w.hdr == h.hdr
  {
    LiveSite(h, p);
    LiveSite(h, a);
    var w := Copied(h, p, a, n);
    BytesAreLocal(h, a, w.mem);
    CoalescedBytes(h, w, {});
    hide AllLinked, AllPlaced, Ordered, StartOk, EndOk, Linked, Coalesced, Clean, Evolves, Same, Copied, Placed, View;
    SameEvolves(h, w, {a}, {a});
  }

  lemma ViewBytes(h: Heap, a: int)
    requires a in h.hdr && Placed(h, a)
    ensures |View(h, a).contents| == h.hdr[a].size && 0 <= Index(h, a) && Index(h, a) + h.hdr[a].size <= |h.mem|
    ensures forall i :: 0 <= i < |View(h, a).contents| ==> View(h, a).contents[i] == h.mem[Index(h, a) + i]
  {
  }

  lemma CopiedView(h: Heap, w: Heap, p: int, a: int, n: int)
    requires p in h.hdr && a in h.hdr && Placed(h, p) && Placed(h, a) && 0 <= n <= h.hdr[p].size && n <= h.hdr[a].size
    requires View(h, a).contents == seq(h.hdr[a].size, _ => M_FILL)
    requires 0 <= Index(h, p) <= |h.mem| - n && 0 <= Index(h, a) <= |h.mem| - n && w == Copied(h, p, a, n)
    ensures Placed(w, a) && View(w, a).rsize == View(h, a).rsize && Moved(View(h, p), View(w, a), n)
  {
    CopiedSite(h, w, p, a, n);
    hide Placed, View, Copied, CopyRange, Index;
    ViewBytes(h, p);
    ViewBytes(h, a);
    ViewBytes(w, a);
    var c := View(w, a).contents;
    forall i | n <= i < |c| ensures c[i] == M_FILL {
      assert c[i] == h.mem[Index(h, a) + i] == View(h, a).contents[i];
    }
    assert c[..n] == View(h, p).contents[..n];
  }

  lemma CopiedSite(h: Heap, w: Heap, p: int, a: int, n: int)
    requires p in h.hdr && a in h.hdr && Placed(h, p) && Placed(h, a) && 0 <= n <= h.hdr[p].size && n <= h.hdr[a].size
    requires 0 <= Index(h, p) <= |h.mem| - n && 0 <= Index(h, a) <= |h.mem| - n && w == Copied(h, p, a, n)
    ensures Placed(w, a) && View(w, a).rsize == View(h, a).rsize && w.hdr == h.hdr && Index(w, a) == Index(h, a)
    ensures |w.mem| == |h.mem| && Index(h, a) + h.hdr[a].size <= |h.mem|
    ensures forall i {:trigger w.mem[Index(h, a) + i]} :: 0 <= i < h.hdr[a].size ==>
              w.mem[Index(h, a) + i] == if i < n then h.mem[Index(h, p) + i] else h.mem[Index(h, a) + i]
  {
    assert Placed(w, a);
  }

  lemma KeptLive(s: Heap, t: Heap, touched: set<int>, a: int)
    requires Structure(s) && Structure(t) && Evolves(s, t, touched) && Live(s, a) && a !in touched
    ensures Placed(s, a) && Live(t, a) && Placed(t, a) && View(t, a) == View(s, a)
    ensures t.hdr[a].rsize == s.hdr[a].rsize && t.hdr[a].size == s.hdr[a].size
  {
    LiveSite(s, a);
    assert Kept(s, t, a);
    ViewFields(s, a);
    ViewFields(t, a);
  }

  /** realloc() moving block `p`: stretched, a new block, the bytes copied, the
      old block freed. */
  lemma ReallocMoved(h: Heap, c: Heap, w: Heap, p: int, a: int, size: nat)
    requires Structure(h) && Live(h, p) && Placed(h, p) && !Live(h, a) && a != p
    requires Structure(c) && Evolves(h, c, {a})
    requires Live(c, a) && Placed(c, a) && View(c, a).rsize == RoundUp(size + 1)
    requires Moved(View(h, p), View(c, a), Min(h.hdr[p].rsize, size + 1))
    requires AllCleanBut(h, p) ==> AllCleanBut(c, p)
    requires c.hdr[a].size <= RoundUp(size + 1) + M_SIZE + 2 * M_RND
    requires Structure(w) && Disposed(c, w, p)
    ensures Reallocated(h, w, p, a, size)
  {
    hide AllLinked, AllPlaced, Ordered, StartOk, EndOk, Linked, View, Placed, Coalesced, Clean, AllClean, AllCleanBut, Moved, Evolves, Live;
    KeptLive(c, w, {p}, a);
    KeptLive(h, c, {a}, p);
    ReclaimedToo(h, c, w, p);
    EvolvesTrans(h, c, w, {a}, {p});
    assert {a} + {p} == {p, a};
  }

  lemma ReclaimedToo(h: Heap, c: Heap, w: Heap, p: int)
    requires Live(h, p) && p in c.hdr && c.hdr[p].size == h.hdr[p].size && Reclaimed(c, w, p)
    ensures Reclaimed(h, w, p)
  {
    hide Placed, View, Clean;
  }

  /** ... up to the copy. */
  lemma MovedCopy(h: Heap, k: Heap, c: Heap, p: int, a: int, size: nat)
    requires Structure(h) && Coalesced(h, {}) && Live(h, p)
    requires Structure(k) && Coalesced(k, {}) && Evolves(h, k, {a}) && !Live(h, a) && Handout(k, a, RoundUp(size + 1))
    requires var n := Min(h.hdr[p].rsize, size + 1);
             0 <= n && 0 <= Index(k, p) <= |k.mem| - n && 0 <= Index(k, a) <= |k.mem| - n && c == Copied(k, p, a, n)
    ensures Structure(c) && Coalesced(c, {}) && Live(c, p) && Live(c, a) && Placed(c, a) && Placed(h, p) && a != p
    ensures Evolves(h, c, {a})
    ensures View(c, a).rsize == RoundUp(size + 1) && Moved(View(h, p), View(c, a), Min(h.hdr[p].rsize, size + 1))
    ensures c.hdr[a].size <= RoundUp(size + 1) + M_SIZE + 2 * M_RND
    ensures AllCleanBut(h, p) ==> AllCleanBut(c, p)
  {
    var n := Min(h.hdr[p].rsize, size + 1);
    hide AllLinked, AllPlaced, Ordered, StartOk, EndOk, Linked, View, Placed, Coalesced, Clean, AllClean, AllCleanBut, Evolves, Moved, CopyRange, Copied;
    LiveSite(h, p);
    KeptLive(h, k, {a}, p);
    ViewFields(h, p);
    ViewFields(k, p);
    ViewFields(k, a);
    CopyKeeps(k, p, a, n);
    CopiedView(k, c, p, a, n);
    ViewFields(c, a);
    EvolvesTrans(h, k, c, {a}, {a});
    assert {a} + {a} == {a};
    MovedIsClean(h, c, p, a, RoundUp(size + 1), n);
  }

  lemma MovedIsClean(g: Heap, c: Heap, p: int, a: int, size: nat, kept: int)
    requires AllPlaced(g) && AllPlaced(c) && Evolves(g, c, {a}) && p in g.hdr && Placed(g, p)
    requires a in c.hdr && Placed(c, a) && Live(c, a)
    requires View(c, a).rsize == size && kept <= size && Moved(View(g, p), View(c, a), kept)
    ensures AllCleanBut(g, p) ==> AllCleanBut(c, p)
  {
    CleanButKept(g, c, {a}, p);
  }

  lemma TrimSite(m: Heap, p: int)
    requires Structure(m) && Coalesced(m, {}) && Live(m, p)
    ensures p in Trimmed(m, p).hdr && m.base == Trimmed(m, p).base <= p
    ensures Index(m, p) + Trimmed(m, p).hdr[p].size <= |Trimmed(m, p).mem|
    ensures m.hdr[p].rsize <= Trimmed(m, p).hdr[p].size
  {
    TrimKeeps(m, p);
    LiveSite(Trimmed(m, p), p);
    LiveSite(m, p);
    ViewFields(m, p);
    ViewFields(Trimmed(m, p), p);
  }

  lemma MoveSite(g: Heap, k: Heap, p: int, a: int, size: nat)
    requires Structure(g) && Structure(k) && Coalesced(k, {}) && Evolves(g, k, {a}) && Live(g, p) && !Live(g, a)
    requires Handout(k, a, RoundUp(size + 1))
    ensures var n := Min(g.hdr[p].rsize, size + 1);
            && Live(k, p) && a != p && 0 <= n <= g.hdr[p].rsize && 0 <= Index(k, p) <= |k.mem| - n && 0 <= Index(k, a) <= |k.mem| - n
            && Structure(Copied(k, p, a, n)) && Coalesced(Copied(k, p, a, n), {}) && Live(Copied(k, p, a, n), p)
  {
    hide Ordered, AllLinked, StartOk, EndOk, Evolves, View, Placed, Clean;
    LiveSite(g, p);
    KeptLive(g, k, {a}, p);
    CopyKeeps(k, p, a, Min(g.hdr[p].rsize, size + 1));
  }

  // ---- malloc_chain_check() ----

  /** The blocks whose fill pattern has been written over. */
  ghost function Spoilt(h: Heap): set<int>
    requires AllPlaced(h)
  {
    set a | a in h.hdr && a != START && !CleanAt(h, a)
  }

  ghost function SpoiltBelow(h: Heap, limit: int): set<int>
    requires AllPlaced(h)
  {
    set a | a in Spoilt(h) && a < limit
  }

  lemma SpoiltNone(h: Heap)
    requires Structure(h)
    ensures h.hdr[START].next != NULL ==> SpoiltBelow(h, h.hdr[START].next) == {}
    ensures h.hdr[START].next == NULL ==> Spoilt(h) == {}
  {
    ChainStep(h, START);
    forall a | a in h.hdr && a != START ensures a > START {
      assert Placed(h, a);
    }
  }

  lemma SpoiltStep(h: Heap, a: int)
    requires Structure(h) && a in h.hdr && a != START
    ensures a !in SpoiltBelow(h, a)
    ensures SpoiltBelow(h, a) + (if CleanAt(h, a) then {} else {a}) ==
            if h.hdr[a].next == NULL then Spoilt(h) else SpoiltBelow(h, h.hdr[a].next)
  {
    ChainStep(h, a);
    hide CleanAt, AllLinked, Ordered, Placed;
  }

  lemma NeverDisconnected(h: Heap, a: int)
    requires Structure(h) && a in h.hdr && a != START
    ensures !Disconnected(h, a) && h.base <= a <= Limit(h) && Placed(h, a)
  {
    assert Placed(h, a) && Linked(h, a);
    assert NULL in h.hdr ==> Placed(h, NULL);
  }

  lemma SpoiltZero(h: Heap)
    requires AllPlaced(h)
    ensures |Spoilt(h)| == 0 <==> AllClean(h)
  {
    hide Clean;
    if AllClean(h) {
      forall a | a in h.hdr && a != START ensures CleanAt(h, a) {
        assert Placed(h, a);
        assert Clean(View(h, a));
      }
    } else {
      var a :| a in h.hdr && a != START && !(Placed(h, a) && Clean(View(h, a)));
      assert a in Spoilt(h);
    }
  }

  // ---- The client's writes ----

  /** Byte `i` of the data area of block `a` is overwritten. */
  ghost function Written(h: Heap, a: int, i: int, byte: int): Heap
    requires 0 <= Index(h, a) + i < |h.mem|
  {
    h.(mem := h.mem[Index(h, a) + i := byte])
  }

  lemma WriteView(h: Heap, a: int, i: int, byte: int)
    requires Structure(h) && a in h.hdr && a != START && 0 <= i < h.hdr[a].size
    ensures 0 <= Index(h, a) + i < |h.mem|
    ensures var w := Written(h, a, i, byte);
            && Structure(w) && Same(h, w, {a}) && Placed(w, a) && Placed(h, a) && w.hdr == h.hdr
            && View(w, a) == View(h, a).(contents := View(h, a).contents[i := byte])
  {
    assert Placed(h, a);
    var w := Written(h, a, i, byte);
    BytesAreLocal(h, a, w.mem);
    assert Placed(w, a);
  }

  lemma WrittenElsewhere(h: Heap, w: Heap, a: int)
    requires Structure(h) && Structure(w) && Same(h, w, {a})
    ensures Spoilt(w) - {a} == Spoilt(h) - {a}
  {
    hide Clean, View, Placed;
  }

  /** A write into the client's own bytes changes just that byte of the client's
      memory, and malloc_chain_check() does not see it. */
  lemma WriteInside(h: Heap, a: int, i: int, byte: int)
    requires Structure(h) && Coalesced(h, {}) && Live(h, a) && 0 <= i < h.hdr[a].rsize
    ensures 0 <= Index(h, a) + i < |h.mem|
    ensures var w := Written(h, a, i, byte);
            && Structure(w) && Coalesced(w, {}) && Spoilt(w) == Spoilt(h)
            && a in Store(h) && |Store(h)[a]| == h.hdr[a].rsize
            && Store(w) == Store(h)[a := Store(h)[a][i := byte]]
  {
    LiveSite(h, a);
    WriteView(h, a, i, byte);
    var w := Written(h, a, i, byte);
    hide Clean, Spoilt, Placed, View, AllPlaced, AllLinked, Ordered, StartOk, EndOk, Same, Store, Written;
    ViewFields(h, a);
    CoalescedBytes(h, w, {});
    WriteUnseen(h, w, a, i, byte);
    WriteStore(h, w, a, i, byte);
  }

  lemma WriteUnseen(h: Heap, w: Heap, a: int, i: int, byte: int)
    requires Structure(h) && Structure(w) && Same(h, w, {a}) && w.hdr == h.hdr && a in h.hdr && Placed(h, a) && Placed(w, a)
    requires 0 <= i < |View(h, a).contents| && i < View(h, a).rsize
    requires View(w, a) == View(h, a).(contents := View(h, a).contents[i := byte])
    ensures Spoilt(w) == Spoilt(h)
  {
    hide Clean, Placed, View, Same;
    WrittenElsewhere(h, w, a);
    CleanIgnores(View(h, a), i, byte);
    assert a in Spoilt(h) <==> a in Spoilt(w);
    forall b ensures b in Spoilt(w) <==> b in Spoilt(h) {
      assert b != a ==> (b in Spoilt(w) - {a} <==> b in Spoilt(h) - {a});
    }
  }

  lemma CleanIgnores(b: Block, i: int, byte: int)
    requires 0 <= i < |b.contents| && i < b.rsize
    ensures Clean(b) <==> Clean(b.(contents := b.contents[i := byte]))
  {
    var c := b.(contents := b.contents[i := byte]);
    forall j | 0 <= j < |b.contents| && j >= b.rsize ensures c.contents[j] == b.contents[j] {
    }
  }

  lemma WriteStore(h: Heap, w: Heap, a: int, i: int, byte: int)
    requires Structure(h) && Structure(w) && Same(h, w, {a}) && Live(h, a) && 0 <= i < h.hdr[a].rsize && w.hdr == h.hdr
    requires Placed(h, a) && Placed(w, a) && i < |View(h, a).contents|
    requires View(w, a) == View(h, a).(contents := View(h, a).contents[i := byte])
    ensures a in Store(h) && |Store(h)[a]| == h.hdr[a].rsize && Store(w) == Store(h)[a := Store(h)[a][i := byte]]
  {
    hide AllLinked, Ordered, StartOk, EndOk, AllPlaced, Placed, Evolves, View, AllClean, Clean, Data;
    SameEvolves(h, w, {a}, {a});
    EvolvesKeepsStore(h, w, {a});
    DataOf(h, a);
    DataOf(w, a);
    assert Data(w, a) == Data(h, a)[i := byte];
    assert Store(w) == (Store(w) - {a})[a := Data(w, a)];
  }

  /** A write that replaces a fill byte of a block by another value is seen:
      malloc_chain_check() counts this block, and no other one more or less. */
  lemma WriteOutside(h: Heap, a: int, i: int, byte: int)
    requires Structure(h) && a in h.hdr && a != START
    requires (if h.hdr[a].inuse then h.hdr[a].rsize else 0) <= i < h.hdr[a].size
    requires byte != if h.hdr[a].inuse then M_FILL else M_FREE_FILL
    ensures 0 <= Index(h, a) + i < |h.mem| && Structure(Written(h, a, i, byte))
    ensures Spoilt(Written(h, a, i, byte)) == Spoilt(h) + {a}
  {
    assert Placed(h, a);
    WriteView(h, a, i, byte);
    WrittenElsewhere(h, Written(h, a, i, byte), a);
    var b := View(Written(h, a, i, byte), a);
    assert b.contents[i] == byte;
    assert !Clean(b);
  }

  // ---- Tiling ----

  /** Block `a` covers address `x`, header included. */
  ghost predicate Covers(h: Heap, a: int, x: int) {
    a in h.hdr && a != START && a <= x < After(h, a)
  }

  /** Headers and data areas tile the arena: every address in it belongs to
      exactly one block. */
  lemma Tiled(h: Heap, x: int)
    requires Structure(h) && h.base <= x < Limit(h)
    ensures exists a :: Covers(h, a, x)
    ensures forall a, b :: Covers(h, a, x) && Covers(h, b, x) ==> a == b
  {
    assert Linked(h, START);
    CoveredFrom(h, h.base, x);
  }

  lemma {:induction false} CoveredFrom(h: Heap, a: int, x: int)
    requires Structure(h) && a in h.hdr && a != START && a <= x < Limit(h)
    ensures exists b :: Covers(h, b, x)
    decreases x - a
  {
    assert Placed(h, a) && Linked(h, a);
    if Covers(h, a, x) {
    } else {
      ChainStep(h, a);
      CoveredFrom(h, After(h, a), x);
    }
  }

  // ---- An ideal memory ----

  datatype Request =
    | Alloc(size: nat)
    | Release(cptr: int)
    | Resize(cptr: int, size: nat)
    | Write(cptr: int, offset: int, byte: int)

  /** The memory after a request that was answered with `r`, by block. */
  ghost function Respond(m: map<int, seq<int>>, request: Request, r: int): map<int, seq<int>> {
    match request
    case Alloc(size) => m[r - M_SIZE := seq(size, _ => M_FILL)]
    case Release(cptr) => m - {cptr - M_SIZE}
    case Resize(cptr, size) =>
      var p := cptr - M_SIZE;
      if p !in m then m
      else (m - {p})[r - M_SIZE := Fitted(m[p], size, if r == cptr then size + 1 else RoundUp(size + 1))]
    case Write(cptr, offset, byte) =>
      var p := cptr - M_SIZE;
      if p in m && 0 <= offset < |m[p]| then m[p := m[p][offset := byte]] else m
  }

  /** The first `size` + 1 bytes, as far as there are any, and fill behind. */
  ghost function Fitted(bytes: seq<int>, size: nat, length: nat): seq<int> {
    seq(length, i => if 0 <= i < |bytes| && i <= size then bytes[i] else M_FILL)
  }

  /** New memory is never memory that the client already has. */
  ghost predicate Legal(m: map<int, seq<int>>, request: Request, r: int) {
    match request
    case Alloc(_) => r - M_SIZE !in m
    case Resize(cptr, _) => cptr - M_SIZE in m ==> r == cptr || r - M_SIZE !in m
    case _ => true
  }

  ghost function Meaning(m: map<int, seq<int>>, requests: seq<Request>, results: seq<int>): map<int, seq<int>>
    requires |requests| == |results|
  {
    if requests == [] then m
    else
      var k := |requests| - 1;
      Respond(Meaning(m, requests[..k], results[..k]), requests[k], results[k])
  }

  ghost predicate Proper(m: map<int, seq<int>>, requests: seq<Request>, results: seq<int>)
    requires |requests| == |results|
  {
    requests == [] ||
    (var k := |requests| - 1;
     Proper(m, requests[..k], results[..k])
     && Legal(Meaning(m, requests[..k], results[..k]), requests[k], results[k]))
  }

  lemma MeaningStep(m: map<int, seq<int>>, requests: seq<Request>, results: seq<int>, request: Request, r: int)
    requires |requests| == |results|
    ensures Meaning(m, requests + [request], results + [r]) == Respond(Meaning(m, requests, results), request, r)
    ensures Proper(m, requests, results) && Legal(Meaning(m, requests, results), request, r) ==>
              Proper(m, requests + [request], results + [r])
  {
    assert (requests + [request])[..|requests|] == requests && (results + [r])[..|results|] == results;
  }

  lemma StoreKeys(h: Heap, a: int)
    requires Structure(h)
    ensures a in Store(h) <==> Live(h, a)
    ensures a in Store(h) ==> |Store(h)[a]| == h.hdr[a].rsize
  {
    if Live(h, a) {
      DataOf(h, a);
    }
  }

  lemma CleanIsCleanBut(h: Heap, p: int)
    requires AllPlaced(h) && AllClean(h)
    ensures AllCleanBut(h, p)
  {
  }

  lemma ReleaseAnswers(h: Heap, t: Heap, cptr: int)
    requires Structure(h) && Structure(t) && AllClean(h)
    requires if Live(h, cptr - M_SIZE) then Disposed(h, t, cptr - M_SIZE) else t == h
    ensures AllClean(t) && Store(t) == Respond(Store(h), Release(cptr), 0)
  {
    hide AllPlaced, AllLinked, Ordered, StartOk, EndOk, Evolves, Reclaimed, Store, Live, Clean, Placed, View;
    CleanIsCleanBut(h, cptr - M_SIZE);
    StoreKeys(h, cptr - M_SIZE);
    assert cptr - M_SIZE !in Store(h) ==> Store(h) - {cptr - M_SIZE} == Store(h);
  }

  lemma StillClean(h: Heap, t: Heap, p: int, a: int, size: nat)
    requires Structure(h) && Structure(t) && AllClean(h) && Reallocated(h, t, p, a, size)
    ensures AllClean(t)
  {
    hide AllPlaced, AllLinked, Ordered, StartOk, EndOk, Evolves, Live, Clean, Placed, View, Moved;
    CleanIsCleanBut(h, p);
  }

  lemma FittedBytes(was: seq<int>, now: seq<int>, size: nat, length: nat)
    requires |now| == length && forall i :: 0 <= i < |now| ==> now[i] == if i < |was| && i <= size then was[i] else M_FILL
    ensures now == Fitted(was, size, length)
  {
  }

  lemma ResizeAnswers(h: Heap, t: Heap, cptr: int, r: int, size: nat)
    requires Structure(h) && Structure(t) && AllClean(h)
    requires if Live(h, cptr - M_SIZE) then Reallocated(h, t, cptr - M_SIZE, r - M_SIZE, size) else t == h
    ensures AllClean(t) && Legal(Store(h), Request.Resize(cptr, size), r)
    ensures Store(t) == Respond(Store(h), Request.Resize(cptr, size), r)
  {
    hide AllPlaced, AllLinked, Ordered, StartOk, EndOk, AllClean, Store, Live, Reallocated, Fitted, RoundUp;
    var p, a := cptr - M_SIZE, r - M_SIZE;
    StoreKeys(h, p);
    if Live(h, p) {
      StillClean(h, t, p, a, size);
      ReallocatedStore(h, t, p, a, size);
      FittedBytes(Store(h)[p], Store(t)[a], size, if r == cptr then size + 1 else RoundUp(size + 1));
    }
  }

  class Allocator {
    const base: int              // malloc_data_start
    var mem: seq<int>            // the arena: malloc_data_end is base + |mem|
    var hdr: map<int, Header>
    var end: int                 // malloc_end

    function S(): Heap
      reads this
    {
      Heap(base, mem, hdr, end)
    }

    ghost predicate Valid()
      reads this
    {
      Structure(S()) && Coalesced(S(), {})
    }

    /** malloc_init(), with the arena beginning at `start`. */
    constructor (start: int)
      requires start > START + M_SIZE
      ensures Valid() && base == start && mem == [] && Store(S()) == map[] && AllClean(S())
    {
      base := start;
      mem := [];
      hdr := map[START := Header(NULL, NULL, false, 0, 0)];
      end := START;
    }

    // ---- Bytes ----

    method MallocMemset(ptr: int, byte: int, len: int)
      requires base <= ptr && ptr + len <= base + |mem|
      modifies this`mem
      ensures mem == FillRange(old(mem), ptr - base, ptr - base + len, byte)
    {
      var at, left := ptr - base, len;
      while left > 0
        invariant len >= 0 ==> at + left == ptr - base + len && left >= 0
        invariant len < 0 ==> left == len
        invariant |mem| == |old(mem)| && at >= ptr - base
        invariant forall i :: 0 <= i < |mem| ==> mem[i] == if ptr - base <= i < at then byte else old(mem)[i]
        invariant len < 0 ==> at == ptr - base
      {
        mem := mem[at := byte];
        at, left := at + 1, left - 1;
      }
    }

    /** memcpy(), which copes with overlapping areas. */
    method MemCpy(ptr1: int, ptr2: int, len: nat)
      requires base <= ptr1 <= base + |mem| - len && base <= ptr2 <= base + |mem| - len
      modifies this`mem
      ensures mem == CopyRange(old(mem), ptr1 - base, ptr2 - base, len)
    {
      hide CopyRange;
      ghost var was := mem;
      var to, from, left: int := ptr1 - base, ptr2 - base, len;
      ghost var t, f := to, from;
      if ptr1 > ptr2 && ptr1 < ptr2 + len {
        to, from := to + (len - 1), from + (len - 1);
        CopyNothing(was, t + len, f + len);
        while left > 0
          invariant 0 <= left <= len && to == t + left - 1 && from == f + left - 1
          invariant mem == CopyRange(was, t + left, f + left, len - left)
        {
          CopyBackward(was, t, f, left, len);
          mem := mem[to := mem[from]];
          to, from, left := to - 1, from - 1, left - 1;
        }
      } else {
        CopyNothing(was, t, f);
        while left > 0
          invariant 0 <= left <= len && to == t + len - left && from == f + len - left
          invariant mem == CopyRange(was, t, f, to - t)
        {
          CopyForward(was, t, f, to - t, len);
          mem := mem[to := mem[from]];
          to, from, left := to + 1, from + 1, left - 1;
        }
      }
    }

    /** Is there a byte other than `byte` from `from` to the end of the block? */
    method Spoiled(ptr: int, from: int, byte: int) returns (bad: bool)
      requires ptr in hdr && Placed(S(), ptr) && 0 <= from
      ensures bad <==> !(forall i :: from <= i < hdr[ptr].size ==> View(S(), ptr).contents[i] == byte)
    {
      var i := from;
      while i < hdr[ptr].size
        invariant from <= i
        invariant forall k :: from <= k < i && k < hdr[ptr].size ==> View(S(), ptr).contents[k] == byte
      {
        if mem[ptr + M_SIZE - base + i] != byte {
          assert View(S(), ptr).contents[i] != byte;
          return true;
        }
        i := i + 1;
      }
      return false;
    }

    // ---- Joining and splitting ----

    /** Join `ptr` with `nextptr`, its next block, if the test allows it. */
    method MallocJoin(ptr: int, nextptr: int, inuseOverride: bool, fillFlag: bool)
      requires LinksAt(S(), ptr, nextptr)
      modifies this
      ensures S() == if ptr == NULL then old(S()) else Joined(old(S()), ptr, inuseOverride)
    {
      hide Merge;
      if ptr != NULL && !(inuseOverride || hdr[ptr].inuse) && nextptr != NULL && !hdr[nextptr].inuse
         && ptr + M_SIZE + hdr[ptr].size == nextptr {
        if end == nextptr {
          end := ptr;
        }
        hdr := hdr[ptr := hdr[ptr].(next := hdr[nextptr].next)];
        var newsize := hdr[nextptr].size + M_SIZE;
        if fillFlag && hdr[ptr].inuse {
          assert false;
        }
        hdr := hdr[ptr := hdr[ptr].(size := hdr[ptr].size + newsize)];
        if hdr[ptr].next != NULL {
          hdr := hdr[hdr[ptr].next := hdr[hdr[ptr].next].(prev := ptr)];
        }
        MergeInPlace(old(S()), ptr, nextptr, hdr);
        hdr := hdr - {nextptr};
      }
    }

    method MallocSplit(ptr: int)
      requires Valid() && Live(S(), ptr)
      modifies this
      ensures S() == Trimmed(old(S()), ptr)
    {
      ghost var h := S();
      assert Placed(h, ptr);
      var size := RoundUp(hdr[ptr].rsize);
      var rest := if hdr[ptr].size > size then hdr[ptr].size - size else 0;
      if rest > M_SIZE + M_RND {
        var tptr := ptr + M_SIZE + size;
        PlantedSite(h, ptr, tptr, size);
        hdr := hdr[tptr := Header(hdr[ptr].next, ptr, false, 0, rest - M_SIZE)];
        PlantedIsCut(h, ptr, tptr, size, Joined(S(), tptr, false));
        hide Structure, Coalesced, Placed, Cuttable, Joined, Joins, Cut, FillRange, RoundUp, LinksAt, Planted, Live;
        MallocJoin(tptr, hdr[tptr].next, false, false);
        if hdr[tptr].next != NULL {
          hdr := hdr[hdr[tptr].next := hdr[hdr[tptr].next].(prev := tptr)];
        }
        MallocMemset(tptr + M_SIZE, M_FREE_FILL, hdr[tptr].size);
        hdr := hdr[ptr := hdr[ptr].(next := tptr, size := size)];
        if end == ptr {
          end := tptr;
        }
        ghost var v := Joined(Cut(h, ptr, size), tptr, false);
        assert hdr == v.hdr && end == v.end && v.mem == h.mem;
        assert Splits(h, ptr) && hdr[tptr].size == v.hdr[tptr].size;
      }
    }

    // ---- malloc() ----

    /** The first block that fits, or the end of the chain. */
    method FirstFit(size: int) returns (ptr: int, oldptr: int)
      requires Valid() && size > 0
      ensures ptr == NULL ==> oldptr == end && NoFit(S(), size)
      ensures ptr != NULL ==> LowestFit(S(), ptr, size)
    {
      oldptr, ptr := NULL, START;
      FitsAreBlocks(S(), size);
      while ptr != NULL && (hdr[ptr].inuse || hdr[ptr].size < size)
        invariant ptr == NULL ==> oldptr == end
        invariant ptr != NULL ==> ptr in hdr && ptr < Limit(S())
        invariant forall a :: Fits(S(), a, size) ==> ptr != NULL && ptr <= a
        decreases if ptr == NULL then 0 else Limit(S()) - ptr
      {
        ChainStep(S(), ptr);
        oldptr, ptr := ptr, hdr[ptr].next;
      }
    }

    /** sbrk() for a request of `size` bytes, and the new block linked in. */
    method Extend(size: nat, oldptr: int) returns (ptr: int)
      requires Valid() && oldptr == end
      modifies this
      ensures S() == Grow(old(S()), Need(size)) && ptr == Limit(old(S()))
    {
      var need := Need(size);
      ptr := base + |mem|;
      mem := mem + seq(need, _ => 0);
      hdr := hdr[ptr := Header(NULL, oldptr, false, 0, need - M_SIZE)];
      hdr := hdr[oldptr := hdr[oldptr].(next := ptr)];
      end := ptr;
      GrowSite(old(S()));
    }

    /** The second half of malloc(): block `ptr` is taken for `size` bytes. */
    method Allot(ptr: int, size: nat)
      requires ptr in hdr && Allotable(S(), ptr, size)
      modifies this
      ensures S() == Handed(old(S()), ptr, size)
    {
      ghost var m := Mark(S(), ptr, true, size + 1);
      ghost var t := Trimmed(m, ptr);
      hide Trimmed, Coalesced, Structure;
      hdr := hdr[ptr := hdr[ptr].(rsize := size + 1, inuse := true)];
      assert S() == m;
      MallocSplit(ptr);
      assert S() == t;
      hdr := hdr[ptr := hdr[ptr].(rsize := hdr[ptr].rsize - 1)];
      assert S() == Mark(t, ptr, true, size);
      MallocMemset(ptr + M_SIZE, M_FILL, hdr[ptr].size);
      assert S() == Padded(Mark(t, ptr, true, size), ptr, 0);
    }

    method Malloc(size: nat) returns (cptr: int)
      requires Valid()
      modifies this
      ensures Valid() && Evolves(old(S()), S(), {cptr - M_SIZE}) && !Live(old(S()), cptr - M_SIZE)
      ensures Handout(S(), cptr - M_SIZE, size)
      ensures if NoFit(old(S()), size + 1)
              then cptr - M_SIZE == Limit(old(S())) && |mem| == |old(mem)| + Need(size + 1)
              else LowestFit(old(S()), cptr - M_SIZE, size + 1) && |mem| == |old(mem)|
      ensures AllClean(old(S())) ==> AllClean(S())
      ensures cptr - M_SIZE !in Store(old(S()))
      ensures Store(S()) == Store(old(S()))[cptr - M_SIZE := seq(size, _ => M_FILL)]
    {
      ghost var h := S();
      hide Structure, Coalesced, LowestFit, NoFit, Need, Allotable, Grow, AllClean, Store, Evolves, Handout, Live;
      var ptr, oldptr := FirstFit(size + 1);
      if ptr == NULL {
        ptr := Extend(size + 1, oldptr);
      }
      ghost var g := S();
      assert Prepared(h, g, ptr, size);
      hide Prepared;
      HandSite(h, g, ptr, size);
      Allot(ptr, size);
      cptr := ptr + M_SIZE;
      HandDone(h, g, S(), ptr, size);
    }

    // ---- free() ----

    /** The second half of free(): block `ptr` goes back to the chain. */
    method Dispose(ptr: int)
      requires Valid() && Live(S(), ptr)
      modifies this
      ensures S() == Freed(old(S()), ptr)
    {
      ghost var h := S();
      ghost var m := Mark(h, ptr, false, h.hdr[ptr].rsize);
      ghost var t := Joined(m, ptr, false);
      ghost var j := Joined(t, h.hdr[ptr].prev, false);
      FreeSite(h, ptr, m, t, j);
      hide Structure, Coalesced, Joined, LinksAt, Placed;
      hdr := hdr[ptr := hdr[ptr].(inuse := false)];
      assert S() == m;
      MallocJoin(ptr, hdr[ptr].next, false, false);
      assert S() == t;
      var oldptr := hdr[ptr].prev;
      MallocJoin(hdr[ptr].prev, ptr, false, false);
      assert S() == j;
      var left := ptr;
      if hdr[oldptr].next != ptr {
        left := oldptr;
      }
      MallocMemset(left + M_SIZE, M_FREE_FILL, hdr[left].size);
    }

    /** The end of realloc(): block `ptr` is large enough. */
    method Resize(ptr: int, size: nat)
      requires Valid() && Live(S(), ptr) && RoundUp(size + 1) <= hdr[ptr].size
      modifies this
      ensures S() == Resized(old(S()), ptr, size)
    {
      ghost var h := S();
      ghost var m := Mark(h, ptr, true, size + 1);
      LiveSite(h, ptr);
      MarkKeepsStructure(h, ptr, true, size + 1);
      MarkAndNeighbours(h, ptr, true, size + 1, {});
      assert {} - {ptr, h.hdr[ptr].prev} == {};
      hide Structure, Coalesced, Trimmed, Placed;
      var i := if hdr[ptr].rsize < size + 1 then hdr[ptr].rsize else size + 1;
      hdr := hdr[ptr := hdr[ptr].(rsize := size + 1)];
      assert S() == m;
      TrimSite(m, ptr);
      MallocSplit(ptr);
      assert S() == Trimmed(m, ptr);
      MallocMemset(ptr + M_SIZE + i, M_FILL, hdr[ptr].size - i);
      assert S() == Padded(Trimmed(m, ptr), ptr, Min(h.hdr[ptr].rsize, size + 1));
    }

    /** Take back the block at `cptr`.  `overrun` says whether bytes behind the
        client's were found overwritten (M_CODE_OVERRUN). */
    method Free(cptr: int) returns (fault: Fault, overrun: bool)
      requires Valid()
      modifies this
      ensures Valid() && |mem| == |old(mem)| && fault == PointerFault(old(S()), cptr)
      ensures fault == NoFault <==> old(Live(S(), cptr - M_SIZE))
      ensures fault != NoFault ==> S() == old(S()) && !overrun
      ensures fault == NoFault ==> Disposed(old(S()), S(), cptr - M_SIZE)
      ensures fault == NoFault ==> (overrun <==> !CleanAt(old(S()), cptr - M_SIZE))
    {
      ghost var h := S();
      fault, overrun := PointerFault(S(), cptr), false;
      FaultsAreExact(h, cptr);
      if fault != NoFault {
        return;
      }
      var ptr := cptr - M_SIZE;
      LiveSite(h, ptr);
      overrun := Spoiled(ptr, hdr[ptr].rsize, M_FILL);
      hide Structure, Coalesced, Freed, Disposed;
      Dispose(ptr);
      FreeDone(h, S(), ptr);
    }

    // ---- realloc() ----

    /** realloc() when the block must move. */
    method Move(cptr: int, size: nat) returns (r: int)
      requires Valid() && Live(S(), cptr - M_SIZE)
      modifies this
      ensures Valid() && Reallocated(old(S()), S(), cptr - M_SIZE, r - M_SIZE, size) && r != cptr
    {
      ghost var h := S();
      hide Structure, Coalesced, Disposed, Reallocated, Copied, CopyRange, Evolves, AllClean, Store, LowestFit, NoFit, Need, Handout, PointerFault;
      var ptr := cptr - M_SIZE;
      LiveSite(h, ptr);
      var i := Min(hdr[ptr].rsize, size + 1);
      r := Malloc(RoundUp(size + 1));
      ghost var k := S();
      MoveSite(h, k, ptr, r - M_SIZE, size);
      MemCpy(r, cptr, i);
      ghost var c := S();
      CopiedIs(k, c, ptr, r - M_SIZE, i);
      var fault, overrun := Free(cptr);
      MovedCopy(h, k, c, ptr, r - M_SIZE, size);
      ReallocMoved(h, c, S(), ptr, r - M_SIZE, size);
    }

    method Realloc(cptr: int, size: nat) returns (r: int, fault: Fault)
      requires Valid()
      modifies this
      ensures Valid() && fault == PointerFault(old(S()), cptr)
      ensures fault == NoFault <==> old(Live(S(), cptr - M_SIZE))
      ensures fault != NoFault ==> r == NULL && S() == old(S())
      ensures fault == NoFault ==> Reallocated(old(S()), S(), cptr - M_SIZE, r - M_SIZE, size)
      ensures fault == NoFault ==> (r == cptr <==> old(EnoughRoom(S(), cptr - M_SIZE, size)))
    {
      hide AllLinked, AllPlaced, Ordered, StartOk, EndOk, Linked, Placed, Coalesced, Reallocated, Resized, PointerFault;
      ghost var h := S();
      fault, r := PointerFault(S(), cptr), NULL;
      FaultsAreExact(h, cptr);
      if fault != NoFault {
        return;
      }
      var ptr := cptr - M_SIZE;
      LinksKnown(h, ptr);
      if RoundUp(size + 1) > hdr[ptr].size {
        MallocJoin(ptr, hdr[ptr].next, true, true);
        assert S() == h;
      }
      if RoundUp(size + 1) > hdr[ptr].size {
        r := Move(cptr, size);
      } else {
        ReallocInPlace(h, ptr, size);
        Resize(ptr, size);
        r := cptr;
      }
    }

    /** The free block behind is never taken, however large it is: a block of 7
        bytes that is to hold 100 is moved, though 8 kB are free behind it. */
    static method GrowthMoves(start: int) returns (cptr: int, r: int, ghost h: Heap)
      requires start > START + M_SIZE
      ensures Structure(h) && Live(h, cptr - M_SIZE) && h.hdr[cptr - M_SIZE].rsize == 7
      ensures var a, n := cptr - M_SIZE, h.hdr[cptr - M_SIZE].next;
              n in h.hdr && !h.hdr[n].inuse && After(h, a) == n && h.hdr[a].size + M_SIZE + h.hdr[n].size > 8000
      ensures r != cptr && r != NULL
    {
      var m := new Allocator(start);
      ghost var none := m.S();
      EmptyArena(none, 8);
      hide Coalesced, AllClean, Evolves, Reallocated, PointerFault, LowestFit, Structure, Store, NoFit;
      cptr := m.Malloc(7);
      h := m.S();
      ghost var a := cptr - M_SIZE;
      forall b | b in h.hdr && h.hdr[b].inuse ensures b == a {
        StoreKeys(h, b);
      }
      RoomBehind(h, a);
      var fault;
      r, fault := m.Realloc(cptr, 100);
    }

    // ---- malloc_chain_check() ----

    /** The number of blocks below `ptr` with a spoilt fill pattern. */
    method MallocChainCheck() returns (rtn: int)
      requires Valid()
      ensures rtn == |Spoilt(S())|
      ensures rtn == 0 <==> AllClean(S())
    {
      hide AllPlaced, AllLinked, Ordered, EndOk, Coalesced, Spoilt, SpoiltBelow, AllClean, Disconnected;
      rtn := 0;
      var oldptr, ptr := START, hdr[START].next;
      ChainStep(S(), START);
      SpoiltNone(S());
      while ptr != NULL
        invariant ptr == NULL ==> oldptr == end && rtn == |Spoilt(S())|
        invariant ptr != NULL ==> ptr in hdr && START <= oldptr < ptr < Limit(S()) && rtn == |SpoiltBelow(S(), ptr)|
        decreases if ptr == NULL then 0 else Limit(S()) - ptr
      {
        NeverDisconnected(S(), ptr);
        ChainStep(S(), ptr);
        SpoiltStep(S(), ptr);
        if ptr < oldptr {                                      // M_CODE_CHAIN_BROKE
          rtn := rtn + 1;
          break;
        }
        oldptr := ptr;
        if ptr < base || ptr > base + |mem| {                  // M_CODE_BAD_PTR
          rtn := rtn + 1;
          break;
        }
        if Disconnected(S(), ptr) {                            // M_CODE_BAD_CONNECT
          rtn := rtn + 1;
        } else {                                               // M_CODE_OVERRUN, M_CODE_REUSE
          var bad := Spoiled(ptr, if hdr[ptr].inuse then hdr[ptr].rsize else 0, if hdr[ptr].inuse then M_FILL else M_FREE_FILL);
          if bad {
            rtn := rtn + 1;
          }
        }
        ptr := hdr[ptr].next;
      }
      if ptr == NULL && oldptr != end {                        // M_CODE_NO_END
        rtn := rtn + 1;
      }
      SpoiltZero(S());
    }

    // ---- The client ----

    /** The client stores one byte, through a pointer that it got. */
    method Store1(cptr: int, offset: int, byte: int)
      requires Valid() && Live(S(), cptr - M_SIZE) && 0 <= offset < hdr[cptr - M_SIZE].rsize
      modifies this`mem
      ensures Valid() && Spoilt(S()) == old(Spoilt(S()))
      ensures cptr - M_SIZE in old(Store(S())) && |old(Store(S()))[cptr - M_SIZE]| == old(hdr)[cptr - M_SIZE].rsize
      ensures Store(S()) == old(Store(S()))[cptr - M_SIZE := old(Store(S()))[cptr - M_SIZE][offset := byte]]
    {
      WriteInside(S(), cptr - M_SIZE, offset, byte);
      mem := mem[cptr - base + offset := byte];
    }

    /** Any run of a client: allocations, releases (also of bad pointers),
        reallocations, and writes into its own bytes.  The client sees an ideal
        memory, and malloc_chain_check() finds nothing at any time. */
    method Serve(requests: seq<Request>) returns (results: seq<int>, troubles: int)
      requires Valid() && AllClean(S())
      modifies this
      ensures Valid() && AllClean(S()) && troubles == 0
      ensures |results| == |requests| && Proper(old(Store(S())), requests, results)
      ensures Store(S()) == Meaning(old(Store(S())), requests, results)
    {
      ghost var m0 := Store(S());
      results, troubles := [], 0;
      for k := 0 to |requests|
        invariant Valid() && AllClean(S()) && troubles == 0 && |results| == k
        invariant Proper(m0, requests[..k], results) && Store(S()) == Meaning(m0, requests[..k], results)
      {
        ghost var m := Store(S());
        var r := Answer(requests[k]);
        assert requests[..k + 1] == requests[..k] + [requests[k]];
        MeaningStep(m0, requests[..k], results, requests[k], r);
        results := results + [r];
        var bad := MallocChainCheck();
        troubles := troubles + bad;
      }
      assert requests[..|requests|] == requests;
    }

    method Answer(request: Request) returns (r: int)
      requires Valid() && AllClean(S())
      modifies this
      ensures Valid() && AllClean(S())
      ensures Legal(old(Store(S())), request, r) && Store(S()) == Respond(old(Store(S())), request, r)
    {
      hide Coalesced, AllPlaced, AllLinked, Ordered, StartOk, EndOk, AllClean, AllCleanBut, Store, Fitted, Reallocated,
        Disposed, Evolves, EnoughRoom, LowestFit, NoFit, Handout, Need, PointerFault;
      ghost var h := S();
      r := 0;
      match request
      case Alloc(size) =>
        r := Malloc(size);
      case Release(cptr) =>
        var fault, overrun := Free(cptr);
        ReleaseAnswers(h, S(), cptr);
      case Resize(cptr, size) =>
        var fault;
        r, fault := Realloc(cptr, size);
        ResizeAnswers(h, S(), cptr, r, size);
      case Write(cptr, offset, byte) =>
        StoreKeys(h, cptr - M_SIZE);
        SpoiltZero(h);
        if cptr - M_SIZE in hdr && hdr[cptr - M_SIZE].inuse && 0 <= offset < hdr[cptr - M_SIZE].rsize {
          Store1(cptr, offset, byte);
        }
        SpoiltZero(S());
    }
  }
}
