/** The dependency graph (struct tcell of struct.h), the walks through it, and
    the circularity test of dag.c that runs before anything is made. */
module Dag {

  // Cells are numbered and the graph is the table of their constant parts; the
  // flag bits and time stamps that change while dmake runs are kept in arrays
  // and sequences indexed by cell number.

  /** One recipe line with its macros already expanded (struct str).
      `ignore` is A_IGNORE ('-'), `shell` is A_SHELL ('+'). */
  datatype Line = Line(cmd: string, ignore: bool, shell: bool)

  /** The part of a cell that the makefile parser has fixed: ce_prq, ce_recipe
      ([] for none), A_SEQ (the same bit as A_WFC), A_PHONY, F_TARGET,
      A_ROOT together with F_EXPLICIT, and A_SILENT. */
  datatype Cell = Cell(prq: seq<nat>, recipe: seq<Line>, sequential: bool, phony: bool, hasTarget: bool, special: bool, silent: bool)

  type Graph = seq<Cell>

  /** Every prerequisite of a cell of the graph is a cell of the graph. */
  ghost predicate Closed(g: Graph) {
    forall c, p :: 0 <= c < |g| && p in g[c].prq ==> p < |g|
  }

  lemma ClosedAt(g: Graph, c: nat)
    requires Closed(g) && c < |g|
    ensures forall j :: 0 <= j < |g[c].prq| ==> g[c].prq[j] < |g|
  {
    forall j | 0 <= j < |g[c].prq| ensures g[c].prq[j] < |g| {
      assert g[c].prq[j] in g[c].prq;
    }
  }

  // ---- Walks ----

  /** A non-empty walk along prerequisite links. */
  ghost predicate Walk(g: Graph, w: seq<nat>) {
    && |w| > 0
    && (forall i :: 0 <= i < |w| ==> w[i] < |g|)
    && (forall i :: 0 <= i < |w| - 1 ==> w[i + 1] in g[w[i]].prq)
  }

  function Last(w: seq<nat>): nat
    requires |w| > 0
  {
    w[|w| - 1]
  }

  /** The walk ends in `marked` or in a cell it already went through. */
  ghost predicate Returns(w: seq<nat>, marked: set<nat>)
    requires |w| > 0
  {
    Last(w) in marked || Last(w) in w[..|w| - 1]
  }

  ghost predicate LoopsBack(g: Graph, c: nat, marked: set<nat>) {
    exists w :: Walk(g, w) && w[0] == c && Returns(w, marked)
  }

  ghost predicate Reaches(g: Graph, c: nat, d: nat) {
    exists w :: Walk(g, w) && w[0] == c && Last(w) == d
  }

  /** No cell that `root` depends on depends on itself. */
  ghost predicate Acyclic(g: Graph, root: nat) {
    forall c :: 0 <= c < |g| && Reaches(g, root, c) ==>
      forall p :: p in g[c].prq ==> !Reaches(g, p, c)
  }

  // ---- Walk algebra ----

  lemma Extend(g: Graph, c: nat, w: seq<nat>)
    requires c < |g| && Walk(g, w) && w[0] in g[c].prq
    ensures Walk(g, [c] + w) && Last([c] + w) == Last(w)
  {
  }

  lemma Join(g: Graph, v: seq<nat>, w: seq<nat>)
    requires Walk(g, v) && Walk(g, w) && Last(v) == w[0]
    ensures Walk(g, v + w[1..]) && Last(v + w[1..]) == Last(w)
  {
  }

  lemma SubWalk(g: Graph, w: seq<nat>, i: nat, j: nat)
    requires Walk(g, w) && i < j <= |w|
    ensures Walk(g, w[i..j]) && w[i..j][0] == w[i] && Last(w[i..j]) == w[j - 1]
  {
    var v := w[i..j];
    forall k | 0 <= k < |v| - 1 ensures v[k + 1] in g[v[k]].prq {
      assert w[i + k + 1] in g[w[i + k]].prq;
    }
  }

  lemma ReachesStep(g: Graph, c: nat, p: nat, d: nat)
    requires c < |g| && p in g[c].prq && Reaches(g, p, d)
    ensures Reaches(g, c, d)
  {
    var w :| Walk(g, w) && w[0] == p && Last(w) == d;
    Extend(g, c, w);
    assert ([c] + w)[0] == c;
  }

  lemma ReachesTrans(g: Graph, c: nat, d: nat, e: nat)
    requires Reaches(g, c, d) && Reaches(g, d, e)
    ensures Reaches(g, c, e)
  {
    var v :| Walk(g, v) && v[0] == c && Last(v) == d;
    var w :| Walk(g, w) && w[0] == d && Last(w) == e;
    Join(g, v, w);
    assert (v + w[1..])[0] == c;
  }

  lemma ReachesSelf(g: Graph, c: nat)
    requires c < |g|
    ensures Reaches(g, c, c)
  {
    assert Walk(g, [c]) && Last([c]) == c;
  }

  lemma ReachesBelow(g: Graph, root: nat, c: nat, p: nat)
    requires Closed(g) && c < |g| && Reaches(g, root, c) && p in g[c].prq
    ensures Reaches(g, root, p)
  {
    ReachesSelf(g, p);
    ReachesStep(g, c, p, p);
    ReachesTrans(g, root, c, p);
  }

  // ---- Test_circle ----

  /** A cell that is not marked loops back exactly when one of its
      prerequisites does once the cell itself is marked too. */
  lemma LoopsBackStep(g: Graph, c: nat, marked: set<nat>)
    requires c < |g| && Closed(g) && c !in marked
    ensures LoopsBack(g, c, marked) <==> exists p :: p in g[c].prq && LoopsBack(g, p, marked + {c})
  {
    if LoopsBack(g, c, marked) {
      var w :| Walk(g, w) && w[0] == c && Returns(w, marked);
      assert |w| > 1;
      var v := w[1..];
      assert Walk(g, v) && Last(v) == Last(w);
      assert w[..|w| - 1] == [c] + v[..|v| - 1];
      assert Returns(v, marked + {c});
      assert LoopsBack(g, v[0], marked + {c});
    }
    if p :| p in g[c].prq && LoopsBack(g, p, marked + {c}) {
      var v :| Walk(g, v) && v[0] == p && Returns(v, marked + {c});
      Extend(g, c, v);
      var w := [c] + v;
      assert w[..|w| - 1] == [c] + v[..|v| - 1];
      assert Returns(w, marked);
    }
  }

  ghost function Marked(mark: seq<bool>): set<nat> {
    set c: nat | c < |mark| && mark[c]
  }

  ghost function Unmarked(mark: seq<bool>): set<nat> {
    set c: nat | c < |mark| && !mark[c]
  }

  /** Test_circle: depth first search with the F_MARK bit set on the cells of
      the current walk.  `fatal` stands for the call of Fatal(), which does not
      return to the caller; otherwise every mark bit is put back. */
  method TestCircle(g: Graph, mark: array<bool>, cp: nat, fail: bool) returns (res: bool, fatal: bool)
    requires Closed(g) && cp < |g| == mark.Length
    modifies mark
    ensures res <==> LoopsBack(g, cp, old(Marked(mark[..])))
    ensures fatal <==> res && fail
    ensures !fatal ==> mark[..] == old(mark[..])
    decreases Unmarked(mark[..])
  {
    ghost var marked := Marked(mark[..]);
    res, fatal := false, false;
    if mark[cp] {
      assert Walk(g, [cp]) && Returns([cp], marked);
      return true, fail;
    }
    LoopsBackStep(g, cp, marked);
    mark[cp] := true;
    var i := 0;
    while i < |g[cp].prq| && !res
      invariant 0 <= i <= |g[cp].prq| && !fatal && (res ==> !fail)
      invariant mark[..] == old(mark[..])[cp := true]
      invariant res ==> exists p :: p in g[cp].prq && LoopsBack(g, p, marked + {cp})
      invariant !res ==> forall k :: 0 <= k < i ==> !LoopsBack(g, g[cp].prq[k], marked + {cp})
    {
      assert Marked(mark[..]) == marked + {cp};
      assert cp in old(Unmarked(mark[..])) && cp !in Unmarked(mark[..]);
      assert g[cp].prq[i] in g[cp].prq;
      res, fatal := TestCircle(g, mark, g[cp].prq[i], fail);
      if fatal {
        return;
      }
      i := i + 1;
    }
    mark[cp] := false;
    assert mark[..] == old(mark[..]);
  }

  lemma LoopGivesCycle(g: Graph, root: nat)
    requires LoopsBack(g, root, {})
    ensures !Acyclic(g, root)
  {
    var w :| Walk(g, w) && w[0] == root && Returns(w, {});
    var k: nat :| k < |w| - 1 && w[k] == Last(w);
    CycleAt(g, w, k);
  }

  /** A walk that comes back to its cell at `k`. */
  lemma CycleAt(g: Graph, w: seq<nat>, k: nat)
    requires Walk(g, w) && k < |w| - 1 && w[k] == Last(w)
    ensures !Acyclic(g, w[0])
  {
    var c, p := w[k], w[k + 1];
    assert c < |g| && p in g[c].prq && Last(w) == c;
    SubWalk(g, w, 0, k + 1);
    SubWalk(g, w, k + 1, |w|);
    hide Walk;
    ReachesBy(g, w[0..k + 1]);
    ReachesBy(g, w[k + 1..|w|]);
  }

  lemma ReachesBy(g: Graph, w: seq<nat>)
    requires Walk(g, w)
    ensures Reaches(g, w[0], Last(w))
  {
  }

  lemma CycleGivesLoop(g: Graph, root: nat, c: nat, p: nat)
    requires c < |g| && Reaches(g, root, c) && p in g[c].prq && Reaches(g, p, c)
    ensures LoopsBack(g, root, {})
  {
    var v :| Walk(g, v) && v[0] == root && Last(v) == c;
    var w :| Walk(g, w) && w[0] == p && Last(w) == c;
    Extend(g, c, w);
    Join(g, v, [c] + w);
    var u: seq<nat> := v + ([c] + w)[1..];
    assert u == v + w;
    assert u[|v| - 1] == Last(u) && u[|v| - 1] in u[..|u| - 1];
    assert Walk(g, u) && u[0] == root && Returns(u, {});
  }

  /** With no mark set, looping back means that a cell which depends on itself
      can be reached: Test_circle answers exactly "is there a cycle". */
  lemma LoopsBackIsCycle(g: Graph, root: nat)
    ensures LoopsBack(g, root, {}) <==> !Acyclic(g, root)
  {
    if LoopsBack(g, root, {}) {
      LoopGivesCycle(g, root);
    }
    if !Acyclic(g, root) {
      var c :| 0 <= c < |g| && Reaches(g, root, c) && exists p :: p in g[c].prq && Reaches(g, p, c);
      var p :| p in g[c].prq && Reaches(g, p, c);
      CycleGivesLoop(g, root, c, p);
    }
  }

  // ---- A rank for acyclic graphs ----

  ghost function ReachSet(g: Graph, c: nat): set<nat> {
    set d: nat | d < |g| && Reaches(g, c, d)
  }

  /** The number of cells a cell depends on, itself included. */
  ghost function Rank(g: Graph, c: nat): nat {
    |ReachSet(g, c)|
  }

  lemma SubsetCardinality<T>(a: set<T>, b: set<T>)
    requires a <= b
    ensures |a| <= |b|
    ensures a != b ==> |a| < |b|
  {
    assert b == a + (b - a);
  }

  /** Below an acyclic root the rank drops along every prerequisite link. */
  lemma RankDrops(g: Graph, root: nat, c: nat, p: nat)
    requires Closed(g) && Acyclic(g, root)
    requires c < |g| && Reaches(g, root, c) && p in g[c].prq
    ensures Reaches(g, root, p) && Rank(g, p) < Rank(g, c)
  {
    ReachesSelf(g, c);
    ReachesSelf(g, p);
    ReachesBelow(g, root, c, p);
    forall d | d in ReachSet(g, p) ensures d in ReachSet(g, c) {
      ReachesStep(g, c, p, d);
    }
    assert c in ReachSet(g, c) && c !in ReachSet(g, p);
    SubsetCardinality(ReachSet(g, p), ReachSet(g, c));
  }
}
