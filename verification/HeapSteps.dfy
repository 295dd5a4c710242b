/** What malloc_join(), malloc_split(), malloc(), free() and realloc() do to the
    heap, as compositions of the steps of HeapState: the chain stays sound, no
    two neighbouring blocks are free, and the memory of everybody else stays as
    it was.  Each operation has a function for the heap that it leaves, and a
    lemma about it; the methods of Malloc are proved against these functions. */
module HeapSteps {
  import opened HeapState

  // ---- malloc_join() ----

  /** The test of malloc_join().  The override turns it off, although it is
      meant to let a block in use be joined. */
  ghost predicate Joins(h: Heap, a: int, inuseOverride: bool) {
    && a in h.hdr && h.hdr[a].next in h.hdr
    && !(inuseOverride || h.hdr[a].inuse) && !h.hdr[h.hdr[a].next].inuse
    && After(h, a) == h.hdr[a].next
  }

  /** malloc_join(a, a->next, inuseOverride, fillFlag).  The fill flag makes no
      difference: only free blocks are joined, and only blocks in use filled. */
  ghost function Joined(h: Heap, a: int, inuseOverride: bool): Heap {
    if Joins(h, a, inuseOverride) then Merge(h, a) else h
  }

  /** The two ways of free() to combine a free block with the next one. */
  lemma JoinFree(h: Heap, a: int, except: set<int>)
    requires Structure(h) && a in h.hdr && a != START && !h.hdr[a].inuse
    requires Coalesced(h, except) && h.hdr[a].next !in except
    ensures Structure(Joined(h, a, false)) && Coalesced(Joined(h, a, false), except - {a})
    ensures Same(h, Joined(h, a, false), {a, h.hdr[a].next})
    ensures a in Joined(h, a, false).hdr && !Joined(h, a, false).hdr[a].inuse
    ensures After(h, a) <= After(Joined(h, a, false), a)
    ensures h.hdr[a].next in h.hdr ==>
              h.hdr[h.hdr[a].next].inuse || h.hdr[a].next !in Joined(h, a, false).hdr
  {
    assert Linked(h, a) && Placed(h, a);
    if Joins(h, a, false) {
      MergeIsLocal(h, a);
      MergeAndNeighbours(h, a, except);
      MergeKeepsStructure(h, a);
      MergeSite(h, a);
      hide AllLinked, AllPlaced, Ordered, StartOk, EndOk;
    } else {
      assert NULL in h.hdr ==> Placed(h, NULL);
      hide AllLinked, Ordered;
    }
  }

  /** malloc_start is never joined: the arena begins further up. */
  lemma StartNeverJoins(h: Heap, inuseOverride: bool)
    requires Structure(h)
    ensures !Joins(h, START, inuseOverride)
  {
    assert Linked(h, START);
  }

  lemma Unchanged(h: Heap)
    requires AllPlaced(h)
    ensures Same(h, h, {})
  {
    forall a | a in h.hdr && a != START ensures Placed(h, a) {}
  }

  // ---- malloc_split() ----

  ghost predicate Splits(h: Heap, p: int)
    requires p in h.hdr
  {
    h.hdr[p].rsize >= 0 && h.hdr[p].size - RoundUp(h.hdr[p].rsize) > M_SIZE + M_RND
  }

  /** malloc_split(p): the tail that is not needed becomes a free block, joined
      with the next block if that is free, and filled. */
  ghost function Trimmed(h: Heap, p: int): Heap
    requires p in h.hdr
  {
    if !Splits(h, p) then h
    else
      var size := RoundUp(h.hdr[p].rsize);
      var t, u := p + M_SIZE + size, Cut(h, p, size);
      var v := Joined(u, t, false);
      if t in v.hdr then v.(mem := FillRange(v.mem, Index(h, t), Index(h, t) + v.hdr[t].size, M_FREE_FILL)) else v
  }

  lemma SplitIsCuttable(h: Heap, p: int)
    requires Structure(h) && Live(h, p) && Splits(h, p)
    ensures Cuttable(h, p, RoundUp(h.hdr[p].rsize)) && Placed(h, p) && RoundUp(h.hdr[p].rsize) <= h.hdr[p].size
  {
    assert Placed(h, p);
  }

  /** A split after the cut: block `t` is new, and `n` is behind it. */
  lemma TrimCut(h: Heap, p: int, size: int, t: int, u: Heap, n: int)
    requires Structure(h) && Live(h, p) && Coalesced(h, {}) && Cuttable(h, p, size)
    requires t == p + M_SIZE + size && u == Cut(h, p, size) && n == h.hdr[p].next
    ensures Structure(u) && Coalesced(u, {t}) && Same(h, u, {p, t}) && p in u.hdr && t in u.hdr && t !in h.hdr
    ensures u.hdr[t].next == n && !u.hdr[t].inuse && (n in h.hdr <==> n in u.hdr)
    ensures n in h.hdr ==> u.hdr[n].inuse == h.hdr[n].inuse
    ensures p != START && t != START && n !in {p, t, START}
    ensures Placed(h, p) && Placed(u, p) && size <= h.hdr[p].size
    ensures View(u, p) == View(h, p).(contents := View(h, p).contents[..size])
  {
    CutSite(h, p, size);
    CutIsLocal(h, p, size);
    CutKeepsStructure(h, p, size);
    CutAndNeighbours(h, p, size, {});
    assert {} + {t} == {t};
    hide AllLinked, AllPlaced, Ordered, StartOk, EndOk, Linked, Placed, View, Same, Coalesced;
  }

  /** A split up to the fill. */
  lemma TrimJoin(h: Heap, p: int, size: int, t: int, u: Heap, v: Heap, n: int)
    requires Structure(h) && Live(h, p) && Coalesced(h, {}) && Cuttable(h, p, size)
    requires t == p + M_SIZE + size && u == Cut(h, p, size) && n == h.hdr[p].next && v == Joined(u, t, false)
    ensures Structure(v) && Coalesced(v, {}) && t in v.hdr && !v.hdr[t].inuse && t !in h.hdr && p in v.hdr
    ensures Same(h, v, {p, t, n}) && (n in h.hdr && h.hdr[n].inuse ==> Same(h, v, {p, t}))
    ensures n in v.hdr ==> n in h.hdr && h.hdr[n].inuse
    ensures p != START && t != START && Placed(h, p) && Placed(v, p) && size <= h.hdr[p].size
    ensures View(v, p) == View(h, p).(contents := View(h, p).contents[..size])
  {
    TrimCut(h, p, size, t, u, n);
    hide AllLinked, AllPlaced, Ordered, StartOk, EndOk, Linked, Placed, View, Cut, Joined, Coalesced, Cuttable, Same;
    JoinFree(u, t, {t});
    assert {t} - {t} == {};
    assert {p, t} + {t, n} == {p, t, n};
    assert Structure(u) && Structure(v);
    SameTrans(h, u, v, {p, t}, {t, n});
    SameAt(u, v, {t, n}, p);
    TrimJoinKeys(u, v, t);
  }

  lemma TrimJoinKeys(u: Heap, v: Heap, t: int)
    requires Structure(u) && t in u.hdr && v == Joined(u, t, false) && !u.hdr[t].inuse && t != START
    ensures v.hdr.Keys <= u.hdr.Keys
    ensures u.hdr[t].next in u.hdr && u.hdr[u.hdr[t].next].inuse ==> v == u
  {
  }

  lemma SameAt(s: Heap, t: Heap, touched: set<int>, a: int)
    requires AllPlaced(s) && AllPlaced(t) && Same(s, t, touched) && a !in touched && a != START && a in s.hdr
    ensures Kept(s, t, a)
  {
  }

  /** The bookkeeping of TrimKeeps: `t` is new, and `n` may have vanished. */
  lemma TrimEvolves(h: Heap, v: Heap, w: Heap, p: int, t: int, n: int)
    requires AllPlaced(h) && AllPlaced(v) && AllPlaced(w)
    requires Same(v, w, {t}) && t !in h.hdr && v.hdr.Keys == w.hdr.Keys
    requires Same(h, v, {p, t, n}) && (n in h.hdr && h.hdr[n].inuse ==> Same(h, v, {p, t}))
    requires n in v.hdr ==> n in h.hdr && h.hdr[n].inuse
    requires t in w.hdr && !w.hdr[t].inuse && Placed(w, t) && Clean(View(w, t))
    ensures Evolves(h, w, {p})
  {
    hide AllPlaced, Placed, View, Clean;
    if n in h.hdr && h.hdr[n].inuse {
      SameTrans(h, v, w, {p, t}, {t});
      SameEvolves(h, w, {p, t} + {t}, {p});
    } else {
      SameTrans(h, v, w, {p, t, n}, {t});
      SameEvolves(h, w, {p, t, n} + {t}, {p});
    }
  }

  lemma TrimSplit(h: Heap, p: int)
    requires Structure(h) && Live(h, p) && Coalesced(h, {}) && Splits(h, p)
    ensures Structure(Trimmed(h, p)) && Coalesced(Trimmed(h, p), {}) && p != START
    ensures Evolves(h, Trimmed(h, p), {p}) && p in Trimmed(h, p).hdr
    ensures Placed(h, p) && Placed(Trimmed(h, p), p)
    ensures RoundUp(h.hdr[p].rsize) <= h.hdr[p].size
    ensures View(Trimmed(h, p), p) == View(h, p).(contents := View(h, p).contents[..RoundUp(h.hdr[p].rsize)])
  {
    var size, w := RoundUp(h.hdr[p].rsize), Trimmed(h, p);
    var t, n := p + M_SIZE + size, h.hdr[p].next;
    SplitIsCuttable(h, p);
    var u := Cut(h, p, size);
    var v := Joined(u, t, false);
    assert t in v.hdr ==> w == v.(mem := FillRange(v.mem, Index(v, t), Index(v, t) + v.hdr[t].size, M_FREE_FILL));
    hide AllLinked, AllPlaced, Ordered, StartOk, EndOk, Linked, Placed, View, Cut, Joined, Clean, Coalesced, Live, Splits, Trimmed, Same, Evolves;
    TrimJoin(h, p, size, t, u, v, n);
    FillTail(v, t);
    TrimEvolves(h, v, w, p, t, n);
    SameAt(v, w, {t}, p);
  }

  lemma TrimKeeps(h: Heap, p: int)
    requires Structure(h) && Live(h, p) && Coalesced(h, {})
    ensures Structure(Trimmed(h, p)) && Coalesced(Trimmed(h, p), {}) && p != START && Live(Trimmed(h, p), p)
    ensures Evolves(h, Trimmed(h, p), {p})
    ensures Placed(h, p) && Placed(Trimmed(h, p), p)
    ensures View(h, p).rsize == View(Trimmed(h, p), p).rsize
    ensures Splits(h, p) ==> RoundUp(h.hdr[p].rsize) <= |View(h, p).contents|
    ensures View(Trimmed(h, p), p).contents ==
              if Splits(h, p) then View(h, p).contents[..RoundUp(h.hdr[p].rsize)] else View(h, p).contents
  {
    assert Placed(h, p);
    if !Splits(h, p) {
      Unchanged(h);
      hide AllLinked, AllPlaced, Ordered, StartOk, EndOk, Linked, Placed, View;
      SameEvolves(h, h, {}, {p});
    } else {
      TrimSplit(h, p);
      hide AllLinked, AllPlaced, Ordered, EndOk, Linked, Coalesced, Trimmed, Placed, View, Evolves;
      ViewFields(h, p);
      ViewFields(Trimmed(h, p), p);
    }
  }

  /** What the client no longer needs of block `p` in `h`: if it is too much to be
      left, in `t` it is in a free block behind, and otherwise it stays. */
  ghost predicate GivesBack(h: Heap, t: Heap, p: int, size: nat) {
    && p in h.hdr && p in t.hdr
    && if h.hdr[p].size > RoundUp(size) + M_SIZE + M_RND
       then
         && t.hdr[p].size == RoundUp(size) && After(t, p) in t.hdr && !t.hdr[After(t, p)].inuse
         && After(h, p) <= After(t, After(t, p))
       else t.hdr[p].size == h.hdr[p].size
  }

  lemma TrimGives(h: Heap, p: int)
    requires Structure(h) && Live(h, p) && Coalesced(h, {})
    ensures h.hdr[p].rsize >= 0 && GivesBack(h, Trimmed(h, p), p, h.hdr[p].rsize)
  {
    assert h.hdr[p].rsize >= 0 by {
      assert Placed(h, p);
    }
    if Splits(h, p) {
      var size := RoundUp(h.hdr[p].rsize);
      var t, u := p + M_SIZE + size, Cut(h, p, size);
      var v := Joined(u, t, false);
      SplitIsCuttable(h, p);
      TrimTail(h, p, size, t, u, v);
      hide Structure, Coalesced, Cut, Joined, FillRange, Cuttable, Placed;
    }
  }

  lemma TrimTail(h: Heap, p: int, size: int, t: int, u: Heap, v: Heap)
    requires Structure(h) && Live(h, p) && Coalesced(h, {}) && Cuttable(h, p, size)
    requires t == p + M_SIZE + size && u == Cut(h, p, size) && v == Joined(u, t, false)
    ensures t in v.hdr && !v.hdr[t].inuse && p in v.hdr && v.hdr[p].size == size && After(h, p) <= After(v, t)
  {
    var n := h.hdr[p].next;
    assert After(u, t) == After(h, p);
    TrimCut(h, p, size, t, u, n);
    TrimJoin(h, p, size, t, u, v, n);
    hide Structure, Cut, Joined, Coalesced, Cuttable, Same;
    ViewFields(h, p);
    ViewFields(v, p);
    JoinFree(u, t, {t});
  }

  /** Filling a free block. */
  lemma FillTail(v: Heap, t: int)
    requires Structure(v) && t in v.hdr && t != START && !v.hdr[t].inuse && Coalesced(v, {})
    ensures var w := v.(mem := FillRange(v.mem, Index(v, t), Index(v, t) + v.hdr[t].size, M_FREE_FILL));
            && Structure(w) && Coalesced(w, {}) && Same(v, w, {t}) && Placed(w, t) && Clean(View(w, t))
  {
    hide AllLinked, Ordered, StartOk, EndOk, Linked, Same;
    assert Placed(v, t);
    var w := v.(mem := FillRange(v.mem, Index(v, t), Index(v, t) + v.hdr[t].size, M_FREE_FILL));
    FillIsLocal(v, t, Index(v, t), Index(v, t) + v.hdr[t].size, M_FREE_FILL);
    assert Placed(w, t);
    CoalescedBytes(v, w, {});
    hide Coalesced, AllPlaced;
  }

  /** The first bytes are kept, and everything behind them is fill. */
  ghost predicate Moved(from: Block, to: Block, kept: int) {
    && 0 <= kept <= |from.contents| && kept <= |to.contents|
    && to.contents[..kept] == from.contents[..kept]
    && forall i :: kept <= i < |to.contents| ==> to.contents[i] == M_FILL
  }

  /** Filling a live block from byte `kept` on. */
  ghost function Padded(t: Heap, p: int, kept: int): Heap
    requires p in t.hdr
  {
    t.(mem := FillRange(t.mem, Index(t, p) + kept, Index(t, p) + t.hdr[p].size, M_FILL))
  }

  lemma PadKeeps(t: Heap, p: int, kept: int)
    requires Structure(t) && Live(t, p) && Coalesced(t, {}) && 0 <= kept <= t.hdr[p].size
    ensures Structure(Padded(t, p, kept)) && Coalesced(Padded(t, p, kept), {}) && p != START
    ensures Evolves(t, Padded(t, p, kept), {p}) && Live(Padded(t, p, kept), p)
  {
    var w := Padded(t, p, kept);
    assert Placed(t, p);
    FillIsLocal(t, p, Index(t, p) + kept, Index(t, p) + t.hdr[p].size, M_FILL);
    CoalescedBytes(t, w, {});
    hide AllLinked, AllPlaced, Ordered, EndOk, Linked, Placed, View, Same, Evolves, Coalesced, Clean;
    SameEvolves(t, w, {p}, {p});
  }

  lemma CoalescedBytes(s: Heap, t: Heap, except: set<int>)
    requires Coalesced(s, except) && s.hdr == t.hdr
    ensures Coalesced(t, except)
  {
  }

  lemma PaddedView(t: Heap, p: int, kept: int)
    requires p in t.hdr && Placed(t, p) && 0 <= kept <= t.hdr[p].size
    ensures Placed(Padded(t, p, kept), p) && Moved(View(t, p), View(Padded(t, p, kept), p), kept)
    ensures View(t, p).rsize == View(Padded(t, p, kept), p).rsize && Padded(t, p, kept).hdr == t.hdr
  {
    hide FillRange;
    var w := Padded(t, p, kept);
    assert Placed(w, p) && Index(w, p) == Index(t, p);
    assert forall i :: 0 <= i < |View(t, p).contents| ==> View(t, p).contents[i] == t.mem[Index(t, p) + i];
    forall i | 0 <= i < |View(w, p).contents| ensures View(w, p).contents[i] == if i < kept then View(t, p).contents[i] else M_FILL {
      assert View(w, p).contents[i] == w.mem[Index(t, p) + i];
    }
  }

  // ---- malloc() once it has found its block ----

  /** Block `a` is recorded with one byte too many, split, recorded right, and
      filled. */
  ghost function Handed(h: Heap, a: int, size: nat): Heap
    requires a in h.hdr
  {
    var t := Trimmed(Mark(h, a, true, size + 1), a);
    if a !in t.hdr then t else Padded(Mark(t, a, true, size), a, 0)
  }

  lemma HandKeeps(h: Heap, a: int, size: nat)
    requires Structure(h) && a in h.hdr && a != START && !h.hdr[a].inuse && size < h.hdr[a].size
    requires Coalesced(h, {h.hdr[a].prev})
    ensures Structure(Handed(h, a, size)) && Coalesced(Handed(h, a, size), {})
    ensures Evolves(h, Handed(h, a, size), {a})
    ensures Handout(Handed(h, a, size), a, size)
  {
    var t := Trimmed(Mark(h, a, true, size + 1), a);
    HandTrims(h, a, size, t);
    var u := Mark(t, a, true, size);
    HandMarks(t, u, a, size);
    var w := Padded(u, a, 0);
    assert w == Handed(h, a, size);
    hide Trimmed, Handed, Evolves, Splits, Coalesced, Same, AllLinked, AllPlaced, Ordered, StartOk, EndOk, Linked, Placed, View, Mark, Padded;
    PadKeeps(u, a, 0);
    PaddedView(u, a, 0);
    ViewFields(w, a);
    EvolvesTrans(t, u, w, {a}, {a});
    EvolvesTrans(h, t, w, {a}, {a} + {a});
    assert {a} + {a} + {a} == {a} + ({a} + {a}) == {a};
    assert View(w, a).contents == seq(w.hdr[a].size, _ => M_FILL);
  }

  /** The recorded size is set back to what the caller asked for. */
  lemma HandMarks(t: Heap, u: Heap, a: int, size: nat)
    requires Structure(t) && Coalesced(t, {}) && Live(t, a) && a != START && size < t.hdr[a].size && u == Mark(t, a, true, size)
    ensures Structure(u) && Coalesced(u, {}) && Live(u, a) && Evolves(t, u, {a}) && Placed(u, a)
    ensures u.hdr[a].size == t.hdr[a].size && u.hdr[a].rsize == size
  {
    MarkKeepsStructure(t, a, true, size);
    MarkIsLocal(t, a, true, size);
    MarkAndNeighbours(t, a, true, size, {});
    assert {} - {a, t.hdr[a].prev} == {};
    assert Placed(u, a);
    hide AllLinked, AllPlaced, Ordered, EndOk, Linked, Placed, View, Same, Evolves, Coalesced, Clean;
    SameEvolves(t, u, {a}, {a});
  }

  /** What malloc(size) promises about its block: recorded at its size, filled,
      with at least one byte more than was asked for and at most
      M_SIZE + M_RND more than needed. */
  ghost predicate Handout(h: Heap, a: int, size: nat) {
    && Live(h, a) && Placed(h, a)
    && View(h, a) == Block(true, size, seq(h.hdr[a].size, _ => M_FILL))
    && size < h.hdr[a].size <= RoundUp(size + 1) + M_SIZE + M_RND
  }

  /** Marking the block. */
  lemma HandMarked(h: Heap, a: int, size: nat, m: Heap)
    requires Structure(h) && a in h.hdr && a != START && !h.hdr[a].inuse && size < h.hdr[a].size
    requires Coalesced(h, {h.hdr[a].prev}) && m == Mark(h, a, true, size + 1)
    ensures Structure(m) && Coalesced(m, {}) && Evolves(h, m, {a}) && Live(m, a) && Placed(m, a)
    ensures m.hdr[a].size == h.hdr[a].size && m.hdr[a].rsize == size + 1
  {
    hide AllLinked, Ordered, EndOk, Linked, Same, Evolves, Coalesced;
    assert Placed(h, a);
    MarkKeepsStructure(h, a, true, size + 1);
    MarkIsLocal(h, a, true, size + 1);
    MarkAndNeighbours(h, a, true, size + 1, {h.hdr[a].prev});
    assert {h.hdr[a].prev} - {a, h.hdr[a].prev} == {};
    assert Placed(m, a);
    SameEvolves(h, m, {a}, {a});
  }

  lemma HandTrims(h: Heap, a: int, size: nat, t: Heap)
    requires Structure(h) && a in h.hdr && a != START && !h.hdr[a].inuse && size < h.hdr[a].size
    requires Coalesced(h, {h.hdr[a].prev}) && t == Trimmed(Mark(h, a, true, size + 1), a)
    ensures Structure(t) && Coalesced(t, {}) && Evolves(h, t, {a}) && Live(t, a) && a in t.hdr
    ensures size < t.hdr[a].size <= RoundUp(size + 1) + M_SIZE + M_RND
  {
    hide AllLinked, AllPlaced, Ordered, StartOk, EndOk, Linked, Placed, View, Same, Evolves, Coalesced;
    var m := Mark(h, a, true, size + 1);
    HandMarked(h, a, size, m);
    TrimKeeps(m, a);
    EvolvesTrans(h, m, t, {a}, {a});
    assert {a} + {a} == {a};
    ViewFields(m, a);
    ViewFields(t, a);
  }

  // ---- free() on a good pointer ----

  /** Which block free() is left with after combining `p` with its neighbours. */
  ghost function Remains(h: Heap, p: int, prev: int): int {
    if prev in h.hdr && h.hdr[prev].next != p then prev else p
  }

  ghost function Freed(h: Heap, p: int): Heap
    requires p in h.hdr
  {
    var j := Joined(Joined(Mark(h, p, false, h.hdr[p].rsize), p, false), h.hdr[p].prev, false);
    var q := Remains(j, p, h.hdr[p].prev);
    if q in j.hdr then j.(mem := FillRange(j.mem, Index(j, q), Index(j, q) + j.hdr[q].size, M_FREE_FILL)) else j
  }

  /** The next block vanishes when it is free. */
  ghost function FreeTouches(h: Heap, p: int): set<int>
    requires p in h.hdr
  {
    if Live(h, h.hdr[p].next) then {p} else {p, h.hdr[p].next}
  }

  /** After marking and joining with the next block. */
  lemma FreeNext(h: Heap, p: int, t: Heap)
    requires Structure(h) && Live(h, p) && Coalesced(h, {})
    requires t == Joined(Mark(h, p, false, h.hdr[p].rsize), p, false)
    ensures Structure(t) && Coalesced(t, {h.hdr[p].prev}) && p in t.hdr && !t.hdr[p].inuse && p != START
    ensures Same(h, t, FreeTouches(h, p)) && t.hdr[p].prev == h.hdr[p].prev != p
    ensures h.hdr[p].next in t.hdr ==> h.hdr[p].next in h.hdr && h.hdr[h.hdr[p].next].inuse
    ensures Placed(h, p) && Placed(t, p) && t.hdr[p].size >= h.hdr[p].size
  {
    hide AllLinked, AllPlaced, Ordered, StartOk, EndOk, Linked, Placed, View, Same, Coalesced;
    var prev := h.hdr[p].prev;
    var m := Mark(h, p, false, h.hdr[p].rsize);
    FreeMarked(h, p, m, prev);
    assert {} + {p, prev} == {p, prev};
    JoinFree(m, p, {p, prev});
    assert {p, prev} - {p} == {prev};
    JoinedAt(m, p, t);
    SameTrans(h, m, t, {p}, {p, h.hdr[p].next});
    assert {p} + {p, h.hdr[p].next} == {p, h.hdr[p].next};
  }

  /** After marking. */
  lemma FreeMarked(h: Heap, p: int, m: Heap, prev: int)
    requires Structure(h) && Live(h, p) && Coalesced(h, {}) && m == Mark(h, p, false, h.hdr[p].rsize) && prev == h.hdr[p].prev
    ensures Structure(m) && Same(h, m, {p}) && Coalesced(m, {} + {p, prev})
    ensures p != START && prev != p && h.hdr[p].next !in {p, prev} && Placed(h, p)
  {
    assert Linked(h, p) && Placed(h, p) && Linked(h, prev);
    assert prev != START ==> Placed(h, prev);
    hide AllLinked, AllPlaced, Ordered, EndOk, Same, Coalesced;
    MarkKeepsStructure(h, p, false, h.hdr[p].rsize);
    MarkIsLocal(h, p, false, h.hdr[p].rsize);
    MarkAndNeighbours(h, p, false, h.hdr[p].rsize, {});
  }

  lemma JoinedAt(m: Heap, p: int, t: Heap)
    requires Structure(m) && p in m.hdr && p != START && !m.hdr[p].inuse && t == Joined(m, p, false) && Structure(t)
    ensures p in t.hdr && t.hdr[p].prev == m.hdr[p].prev && t.hdr[p].size >= m.hdr[p].size && Placed(t, p)
    ensures Live(m, m.hdr[p].next) ==> t == m
    ensures m.hdr[p].next in t.hdr ==> m.hdr[p].next in m.hdr && m.hdr[m.hdr[p].next].inuse
  {
    assert Linked(m, p) && Placed(m, p);
    assert NULL in m.hdr ==> Placed(m, NULL);
    if Joins(m, p, false) {
      MergeSite(m, p);
    }
    assert Placed(t, p);
    hide AllLinked, AllPlaced, Ordered, StartOk, EndOk;
  }

  /** Joining what is left with the block before it. */
  lemma FreePrev(t: Heap, p: int, prev: int, j: Heap, q: int)
    requires Structure(t) && p in t.hdr && p != START && !t.hdr[p].inuse && prev == t.hdr[p].prev
    requires Coalesced(t, {prev}) && j == Joined(t, prev, false) && q == Remains(j, p, prev)
    ensures Structure(j) && Coalesced(j, {}) && q in j.hdr && !j.hdr[q].inuse && q != START
    ensures q in {p, prev} && Same(t, j, {p, q}) && (p in j.hdr ==> q == p) && (q != p ==> q in t.hdr && !t.hdr[q].inuse)
    ensures q <= p && After(t, p) <= After(j, q)
  {
    assert Linked(t, p) && Linked(t, prev) && Placed(t, p);
    StartNeverJoins(t, false);
    Unchanged(t);
    if Joins(t, prev, false) {
      assert Placed(t, prev);
      JoinFree(t, prev, {prev});
      assert {prev} - {prev} == {};
      MergeSite(t, prev);
      assert q == prev;
      assert {prev, p} == {p, q};
    } else {
      CoalescedWithout(t, prev);
      assert q == p;
      SameMore(t, j, {}, {p, q});
    }
  }

  lemma SameMore(s: Heap, t: Heap, d: set<int>, e: set<int>)
    requires AllPlaced(s) && AllPlaced(t) && Same(s, t, d) && d <= e
    ensures Same(s, t, e)
  {
    hide Placed, View;
  }

  /** Two free neighbours always join. */
  lemma CoalescedWithout(t: Heap, a: int)
    requires Structure(t) && Coalesced(t, {a}) && !Joins(t, a, false)
    ensures Coalesced(t, {})
  {
    assert NULL in t.hdr ==> Placed(t, NULL);
    assert a in t.hdr ==> Linked(t, a);
    hide Ordered, AllLinked;
  }

  lemma FreeKeeps(h: Heap, p: int)
    requires Structure(h) && Live(h, p) && Coalesced(h, {})
    ensures Structure(Freed(h, p)) && Coalesced(Freed(h, p), {}) && !Live(Freed(h, p), p)
    ensures Evolves(h, Freed(h, p), {p})
    ensures p in Freed(h, p).hdr ==> Placed(Freed(h, p), p) && Clean(View(Freed(h, p), p))
    ensures Reclaimed(h, Freed(h, p), p)
  {
    var n, prev := h.hdr[p].next, h.hdr[p].prev;
    var t := Joined(Mark(h, p, false, h.hdr[p].rsize), p, false);
    var j := Joined(t, prev, false);
    var q := Remains(j, p, prev);
    var w := Freed(h, p);
    assert q in j.hdr ==> w == j.(mem := FillRange(j.mem, Index(j, q), Index(j, q) + j.hdr[q].size, M_FREE_FILL));
    hide Freed, AllLinked, AllPlaced, Ordered, StartOk, EndOk, Linked, Placed, View, Mark, Joined, Coalesced, Clean, Evolves, Same, Remains;
    FreeNext(h, p, t);
    FreePrev(t, p, prev, j, q);
    FillTail(j, q);
    FreeEvolves(h, t, j, w, p, n, q);
  }

  /** The bytes of a freed block are inside a free, clean block. */
  ghost predicate Reclaimed(h: Heap, t: Heap, p: int) {
    && p in h.hdr
    && exists q :: q in t.hdr && q != START && !t.hdr[q].inuse && q <= p && After(h, p) <= After(t, q) && Placed(t, q) && Clean(View(t, q))
  }

  lemma FreeEvolves(h: Heap, t: Heap, j: Heap, w: Heap, p: int, n: int, q: int)
    requires AllPlaced(h) && AllPlaced(t) && AllPlaced(j) && AllPlaced(w)
    requires p in h.hdr && n == h.hdr[p].next && Same(h, t, FreeTouches(h, p))
    requires Same(t, j, {p, q}) && Same(j, w, {q}) && w.hdr == j.hdr
    requires n in t.hdr ==> n in h.hdr && h.hdr[n].inuse
    requires q in w.hdr && q != START && !w.hdr[q].inuse && Placed(w, q) && Clean(View(w, q))
    requires q != p ==> q in t.hdr && !t.hdr[q].inuse
    requires p in j.hdr ==> q == p
    ensures Evolves(h, w, {p}) && !Live(w, p)
  {
    hide Placed, View, Clean, AllPlaced;
    var d := FreeTouches(h, p);
    SameTrans(h, t, j, d, {p, q});
    SameTrans(h, j, w, d + {p, q}, {q});
    forall a | a in {p, q, n} && a != p && a in h.hdr && a != START && a in d + {p, q} + {q}
      ensures !h.hdr[a].inuse
    {
      if a == q && a !in d {
        ViewFields(h, q);
        ViewFields(t, q);
      }
    }
    SameEvolves(h, w, d + {p, q} + {q}, {p});
  }

  // ---- realloc() ----

  function Min(a: int, b: int): int {
    if a < b then a else b
  }

  /** realloc() in place, once the block is large enough. */
  ghost function Resized(h: Heap, p: int, size: nat): Heap
    requires p in h.hdr
  {
    var t := Trimmed(Mark(h, p, true, size + 1), p);
    if p !in t.hdr then t
    else Padded(t, p, Min(h.hdr[p].rsize, size + 1))
  }

  lemma ResizeTrims(h: Heap, p: int, size: nat, t: Heap)
    requires Structure(h) && Live(h, p) && Coalesced(h, {}) && RoundUp(size + 1) <= h.hdr[p].size
    requires t == Trimmed(Mark(h, p, true, size + 1), p)
    ensures Structure(t) && Coalesced(t, {}) && Evolves(h, t, {p}) && Live(t, p) && p != START
    ensures Placed(h, p) && Placed(t, p) && View(t, p).rsize == size + 1 <= |View(t, p).contents|
    ensures View(t, p).contents <= View(h, p).contents && GivesBack(h, t, p, size + 1)
  {
    hide AllLinked, AllPlaced, Ordered, StartOk, EndOk, Linked, Placed, View, Same, Evolves, Coalesced;
    var m := Mark(h, p, true, size + 1);
    SizeMarked(h, p, size, m);
    TrimKeeps(m, p);
    TrimGives(m, p);
    EvolvesTrans(h, m, t, {p}, {p});
    assert {p} + {p} == {p};
    ViewFields(m, p);
    ViewFields(t, p);
  }

  /** Recording the new size. */
  lemma SizeMarked(h: Heap, p: int, size: nat, m: Heap)
    requires Structure(h) && Live(h, p) && Coalesced(h, {}) && RoundUp(size + 1) <= h.hdr[p].size
    requires m == Mark(h, p, true, size + 1)
    ensures Structure(m) && Coalesced(m, {}) && Evolves(h, m, {p}) && Live(m, p) && p != START
    ensures Placed(h, p) && Placed(m, p) && View(m, p) == View(h, p).(rsize := size + 1)
  {
    hide AllLinked, Ordered, EndOk, Linked, Same, Evolves, Coalesced;
    assert Placed(h, p);
    MarkKeepsStructure(h, p, true, size + 1);
    MarkIsLocal(h, p, true, size + 1);
    MarkAndNeighbours(h, p, true, size + 1, {});
    assert {} - {p, h.hdr[p].prev} == {};
    assert Placed(m, p);
    SameEvolves(h, m, {p}, {p});
  }

  lemma GivesBackToo(h: Heap, t: Heap, w: Heap, p: int, size: nat)
    requires GivesBack(h, t, p, size) && w.hdr == t.hdr
    ensures GivesBack(h, w, p, size)
  {
  }

  /** ... and filling. */
  lemma ResizePads(h: Heap, t: Heap, p: int, size: nat, kept: int, w: Heap)
    requires Structure(h) && Live(h, p) && Structure(t) && Coalesced(t, {}) && Evolves(h, t, {p}) && Live(t, p)
    requires Placed(h, p) && Placed(t, p) && View(t, p).rsize == size + 1 <= |View(t, p).contents|
    requires View(t, p).contents <= View(h, p).contents && kept == Min(h.hdr[p].rsize, size + 1) && w == Padded(t, p, kept)
    ensures Structure(w) && Coalesced(w, {}) && Evolves(h, w, {p}) && Live(w, p) && w.hdr == t.hdr
    ensures Placed(w, p) && View(w, p).rsize == size + 1 && Moved(View(h, p), View(w, p), kept)
  {
    hide Evolves, Coalesced, AllLinked, AllPlaced, Ordered, StartOk, EndOk, Linked, View, Padded;
    ViewFields(t, p);
    PadKeeps(t, p, kept);
    PaddedView(t, p, kept);
    EvolvesTrans(h, t, w, {p}, {p});
    assert {p} + {p} == {p};
  }

  lemma ResizeKeeps(h: Heap, p: int, size: nat)
    requires Structure(h) && Live(h, p) && Coalesced(h, {}) && RoundUp(size + 1) <= h.hdr[p].size
    ensures Structure(Resized(h, p, size)) && Coalesced(Resized(h, p, size), {})
    ensures Evolves(h, Resized(h, p, size), {p}) && Live(Resized(h, p, size), p)
    ensures Placed(h, p) && Placed(Resized(h, p, size), p) && View(Resized(h, p, size), p).rsize == size + 1
    ensures Moved(View(h, p), View(Resized(h, p, size), p), Min(h.hdr[p].rsize, size + 1))
    ensures GivesBack(h, Resized(h, p, size), p, size + 1)
  {
    hide AllLinked, AllPlaced, Ordered, StartOk, EndOk, Trimmed, Resized, Evolves, Coalesced, View, Padded, GivesBack, Placed, Moved;
    var t := Trimmed(Mark(h, p, true, size + 1), p);
    ResizeTrims(h, p, size, t);
    var w := Padded(t, p, Min(h.hdr[p].rsize, size + 1));
    ResizedIs(h, p, size, t);
    ResizePads(h, t, p, size, Min(h.hdr[p].rsize, size + 1), w);
    GivesBackToo(h, t, w, p, size + 1);
  }

  lemma ResizedIs(h: Heap, p: int, size: nat, t: Heap)
    requires p in h.hdr && p in t.hdr && t == Trimmed(Mark(h, p, true, size + 1), p)
    ensures Resized(h, p, size) == Padded(t, p, Min(h.hdr[p].rsize, size + 1))
  {
  }
}
