/** What one call of Make changes, and the facts about states that the graph walk
    in make.c relies on: which cells are still untouched, how their flags are
    changed, what the scheduler does in the meantime, and what a pass over a
    target has achieved.  At the end: what is known of the state, and of the log,
    when .ROOT is made. */
module MakeState {
  import opened Dag
  import opened BuildLog
  import opened BuildState
  import opened Runs

  // ---- Cells that have not been scheduled ----

  /** Nothing has happened to a cell before F_VISITED is set, except that its
      file may have been looked up. */
  ghost predicate FreshCell(s: State, c: nat)
    requires Shape(s) && c < |s.u.g|
  {
    var f, p := s.cells[c], s.prog[c];
    !f.visited ==>
      && p.submitted == 0 && p.need == 0 && !f.made
      && f.time == (if f.stated then s.u.disk[c] else 0)
      && (f.stated ==> FileTime(s.u, c) != 0)
      && (f.rules ==> !s.u.g[c].hasTarget && FileTime(s.u, c) == 0 && s.u.g[c].prq != [])
  }

  ghost predicate Fresh(s: State, hand: int)
    requires Shape(s)
  {
    forall c: nat :: c < |s.u.g| && c != hand ==> FreshCell(s, c)
  }

  /** The state in which the graph walk runs. */
  ghost predicate Walking(s: State) {
    Core(s, -1, 0) && Flow(s, -1, -1) && s.useI == -1 && Fresh(s, -1)
  }

  /** Whatever was started in the meantime, something is running or something
      new has been scheduled since `s`. */
  ghost predicate Advanced(s: State, t: State) {
    t.procCnt > 0 || Unscheduled(t) < Unscheduled(s)
  }

  /** From `s` to `t` the scheduler is only used when a cell is scheduled. */
  ghost predicate Lazy(s: State, t: State) {
    Unscheduled(t) <= Unscheduled(s) &&
    (Unscheduled(t) == Unscheduled(s) ==> t.procs == s.procs && t.procCnt == s.procCnt)
  }

  ghost function Unvisited(s: State): set<nat> {
    set c: nat | c < |s.cells| && !s.cells[c].visited
  }

  // ---- What a call of Make leaves alone ----

  /** Flags are only ever set, a made cell keeps its time stamp, and a cell that
      depends on more than `r` cells and is not scheduled is not touched. */
  ghost predicate MakeCell(s: State, t: State, r: nat, c: nat)
    requires c < |s.u.g| == |s.cells| == |t.cells|
  {
    var f, f' := s.cells[c], t.cells[c];
    && (f.visited ==> f'.visited)
    && (f.made ==> f'.made && f'.time == f.time)
    && (!f.visited && Rank(s.u.g, c) > r ==> f' == f)
  }

  ghost predicate MakeSteady(s: State, t: State, r: nat) {
    SameShape(s, t) && forall c: nat :: c < |s.u.g| ==> MakeCell(s, t, r, c)
  }

  lemma MakeSteadyTrans(s: State, t: State, u: State, r: nat, q: nat)
    requires MakeSteady(s, t, r) && MakeSteady(t, u, q) && q <= r
    ensures MakeSteady(s, u, r)
  {
    forall c: nat | c < |s.u.g| ensures MakeCell(s, u, r, c) {
      assert MakeCell(s, t, r, c) && MakeCell(t, u, q, c);
    }
  }

  lemma MakeSteadyAt(s: State, t: State, r: nat, c: nat)
    requires MakeSteady(s, t, r) && c < |s.u.g|
    ensures MakeCell(s, t, r, c)
  {
  }

  /** The number of cells that are not scheduled yet. */
  ghost function Unscheduled(s: State): nat {
    |Unvisited(s)|
  }

  lemma UnscheduledShrinks(s: State, t: State, r: nat)
    requires MakeSteady(s, t, r)
    ensures Unscheduled(t) <= Unscheduled(s)
    ensures forall c: nat :: c < |s.u.g| && t.cells[c].visited && !s.cells[c].visited ==> Unscheduled(t) < Unscheduled(s)
  {
    forall c | c in Unvisited(t) ensures c in Unvisited(s) {
      assert MakeCell(s, t, r, c);
    }
    SubsetCardinality(Unvisited(t), Unvisited(s));
    if c: nat :| c < |s.u.g| && t.cells[c].visited && !s.cells[c].visited {
      assert c in Unvisited(s) && c !in Unvisited(t);
    }
  }

  lemma IdleIsApart(s: State, t: State, target: int, c: nat)
    requires Core(s, -1, 0) && Flow(s, -1, -1) && Steady(s, t, target) && c < |s.u.g| && c != target
    requires s.prog[c].submitted == 0
    ensures t.prog[c] == s.prog[c] && t.cells[c] == s.cells[c] && t.disk[c] == s.disk[c]
  {
    assert ProgOk(s, c) && CellApart(s, t, c);
  }

  /** Work of the scheduler for `target` keeps every other cell fresh. */
  lemma SteadyKeepsFresh(s: State, t: State, target: int)
    requires Core(s, -1, 0) && Flow(s, -1, -1) && Shape(t) && Steady(s, t, target) && Fresh(s, target)
    ensures Fresh(t, target)
  {
    hide LogOk, SlotsOk, ChildrenOk, OrderOk, DiskOk;
    forall c: nat | c < |t.u.g| && c != target ensures FreshCell(t, c) {
      assert FreshCell(s, c) && CellSteady(s, t, c);
      if !s.cells[c].visited {
        IdleIsApart(s, t, target, c);
      }
    }
  }

  lemma SteadyIsMakeSteady(s: State, t: State, target: int, r: nat)
    requires Core(s, -1, 0) && Flow(s, -1, -1) && Steady(s, t, target) && Fresh(s, target)
    requires 0 <= target < |s.u.g| ==> Rank(s.u.g, target) <= r
    ensures MakeSteady(s, t, r)
  {
    forall c: nat | c < |s.u.g| ensures MakeCell(s, t, r, c) {
      assert CellSteady(s, t, c);
      if !s.cells[c].visited && Rank(s.u.g, c) > r {
        assert FreshCell(s, c);
        IdleIsApart(s, t, target, c);
      }
    }
  }

  // ---- Changing the flags of a cell that is not scheduled ----

  ghost function FlagStep(s: State, c: nat, f: Flags): State
    requires c < |s.cells|
  {
    s.(cells := s.cells[c := f])
  }

  lemma FlagKeepsCore(s: State, c: nat, f: Flags)
    requires Core(s, -1, 0) && c < |s.u.g|
    requires !s.cells[c].made && !f.made && !s.cells[c].visited && !f.visited && s.prog[c].submitted == 0 && s.prog[c].need == 0
    ensures Core(FlagStep(s, c, f), -1, 0)
  {
    hide Lawful, Load;
    var t := FlagStep(s, c, f);
    forall d: nat | d < |t.u.g| ensures ProgOk(t, d) && DiskOk(t, d) {
      assert ProgOk(s, d) && DiskOk(s, d);
    }
    forall d: nat | d < |t.u.g| ensures OrderOk(t, d) {
      assert OrderOk(s, d);
      NeedKept(s, t, c, d);
    }
    forall j: nat | j < |t.procs| ensures SlotOk(t, j, -1) {
      assert SlotOk(s, j, -1);
    }
  }

  /** ce_time is the least acceptable time stamp while the target is made. */
  ghost function NeedStep(s: State, c: nat, need: int): State
    requires c < |s.cells| && c < |s.prog|
  {
    s.(cells := s.cells[c := s.cells[c].(time := need)], prog := s.prog[c := s.prog[c].(need := need)])
  }

  lemma NeedKeepsCore(s: State, c: nat, need: int)
    requires Core(s, -1, 0) && c < |s.u.g| && NeedIs(s, c, need)
    requires !s.cells[c].made && !s.cells[c].visited && s.prog[c].submitted == 0
    ensures Core(NeedStep(s, c, need), -1, 0)
  {
    hide Lawful, Load;
    var t := NeedStep(s, c, need);
    forall d: nat | d < |t.u.g| ensures ProgOk(t, d) && DiskOk(t, d) {
      assert ProgOk(s, d) && DiskOk(s, d);
    }
    forall d: nat | d < |t.u.g| ensures OrderOk(t, d) {
      assert OrderOk(s, d);
      NeedKept(s, t, c, d);
    }
    forall j: nat | j < |t.procs| ensures SlotOk(t, j, -1) {
      assert SlotOk(s, j, -1);
    }
  }

  lemma NeedKeepsFlow(s: State, c: nat, need: int)
    requires Shape(s) && c < |s.u.g| && Flow(s, -1, -1)
    ensures Flow(NeedStep(s, c, need), -1, -1)
  {
    var t := NeedStep(s, c, need);
    forall j: nat | j < |t.procs| && t.procs[j].valid ensures Conserved(t, j) {
      assert Conserved(s, j);
    }
    forall d: nat | d < |t.u.g| ensures Idle(t, d) {
      assert Idle(s, d);
    }
  }

  lemma FlagKeepsFlow(s: State, c: nat, f: Flags)
    requires Shape(s) && c < |s.u.g| && Flow(s, -1, -1) && f.made == s.cells[c].made
    ensures Flow(FlagStep(s, c, f), -1, -1)
  {
    var t := FlagStep(s, c, f);
    forall j: nat | j < |t.procs| && t.procs[j].valid ensures Conserved(t, j) {
      assert Conserved(s, j);
    }
    forall d: nat | d < |t.u.g| ensures Idle(t, d) {
      assert Idle(s, d);
    }
  }

  lemma FlagKeepsFresh(s: State, c: nat, f: Flags, hand: int)
    requires Shape(s) && c < |s.u.g| && Fresh(s, hand)
    requires f.visited || hand == c || FreshCell(FlagStep(s, c, f), c)
    ensures Fresh(FlagStep(s, c, f), hand)
  {
    forall d: nat | d < |s.u.g| && d != hand ensures FreshCell(FlagStep(s, c, f), d) {
      assert d != c ==> FreshCell(s, d);
    }
  }

  lemma FlagIsMakeSteady(s: State, c: nat, f: Flags, r: nat)
    requires Shape(s) && c < |s.u.g| && Rank(s.u.g, c) <= r
    requires (s.cells[c].visited ==> f.visited)
    requires s.cells[c].made ==> f.made && f.time == s.cells[c].time
    ensures MakeSteady(s, FlagStep(s, c, f), r)
  {
  }

  /** F_VISITED is set on a cell that is made or whose recipe has been
      submitted. */
  lemma VisitKeepsCore(s: State, c: nat)
    requires Core(s, -1, 0) && c < |s.u.g|
    requires s.cells[c].made || 0 < s.prog[c].submitted == |s.u.g[c].recipe|
    ensures Core(FlagStep(s, c, s.cells[c].(visited := true)), -1, 0)
  {
    hide Lawful, Load;
    var t := FlagStep(s, c, s.cells[c].(visited := true));
    forall d: nat | d < |t.u.g| ensures ProgOk(t, d) && DiskOk(t, d) {
      assert ProgOk(s, d) && DiskOk(s, d);
    }
    forall d: nat | d < |t.u.g| ensures OrderOk(t, d) {
      assert OrderOk(s, d);
      SameTimes(s, t, d);
    }
    forall j: nat | j < |t.procs| ensures SlotOk(t, j, -1) {
      assert SlotOk(s, j, -1);
    }
  }

  lemma SameTimes(s: State, t: State, d: nat)
    requires Shape(s) && Shape(t) && t.u == s.u && d < |s.u.g|
    requires forall b: nat :: b < |s.u.g| ==> t.cells[b].made == s.cells[b].made && t.cells[b].time == s.cells[b].time
    ensures forall need :: NeedIs(s, d, need) ==> NeedIs(t, d, need)
  {
    ClosedAt(s.u.g, d);
    assert forall p :: p in s.u.g[d].prq ==> p < |s.u.g|;
  }

  // ---- Recipes ----

  /** The recipe of `c` is being submitted and is not complete. */
  lemma StillSchedulable(s: State, t: State, c: nat)
    requires Core(s, -1, 0) && c < |s.u.g| && Schedulable(s, c)
    requires Core(t, -1, 0) && Flow(t, -1, -1) && Steady(s, t, c)
    requires 0 < t.prog[c].submitted < |s.u.g[c].recipe|
    ensures Schedulable(t, c)
  {
    hide LogOk, ChildrenOk, SlotsOk;
    assert CellSteady(s, t, c) && ProgOk(t, c) && OrderOk(t, c) && Idle(t, c);
    InTurnStays(s.u, s.log, t.log, c);
  }

  /** A recipe that has been submitted is running, or its target is made. */
  lemma SubmittedRunsOrIsMade(s: State, c: nat)
    requires Core(s, -1, 0) && Flow(s, -1, -1) && c < |s.u.g|
    requires 0 < s.prog[c].submitted == |s.u.g[c].recipe|
    ensures s.cells[c].made || s.procCnt > 0
    ensures s.prog[c].finished == |s.u.g[c].recipe| ==> s.cells[c].made
  {
    assert ProgOk(s, c) && Idle(s, c);
    ValidBounds(s.procs);
  }

  /** A line that was started while the target was idle is over: the target is
      idle again, whatever was submitted before. */
  lemma LineOver(s: State, t: State, c: nat)
    requires Core(s, -1, 0) && Flow(s, -1, -1) && Core(t, -1, 0) && Flow(t, -1, -1) && c < |s.u.g| == |t.u.g|
    requires s.prog[c].owner == -1 && t.prog[c].submitted == s.prog[c].submitted + 1
    requires t.prog[c].finished > s.prog[c].started
    ensures t.prog[c].owner == -1 && t.prog[c].finished == t.prog[c].submitted
  {
    assert Idle(s, c) && ProgOk(s, c) && ProgOk(t, c);
  }

  /** The scheduler is running something whenever a scheduled cell is not made. */
  lemma VisitedRunsOrIsMade(s: State, c: nat)
    requires Walking(s) && c < |s.u.g| && s.cells[c].visited && !s.cells[c].made
    ensures s.procCnt > 0
  {
    assert ProgOk(s, c);
    SubmittedRunsOrIsMade(s, c);
  }

  lemma MadeIsMakeSteady(s: State, c: nat, need: int, time: int, clock: seq<Event>, r: nat)
    requires Shape(s) && c < |s.u.g| && Rank(s.u.g, c) <= r && !s.cells[c].made
    ensures MakeSteady(s, MadeStep(s, c, need, time, clock), r)
  {
  }

  lemma MadeKeepsFresh(s: State, c: nat, need: int, time: int, clock: seq<Event>)
    requires Shape(s) && c < |s.u.g| && Fresh(s, c)
    ensures Shape(MadeStep(s, c, need, time, clock)) && Fresh(MadeStep(s, c, need, time, clock), c)
  {
    forall d: nat | d < |s.u.g| && d != c ensures FreshCell(MadeStep(s, c, need, time, clock), d) {
      assert FreshCell(s, d);
    }
  }

  lemma NeedKeepsFresh(s: State, c: nat, need: int, r: nat)
    requires Shape(s) && c < |s.u.g| && Fresh(s, -1) && !s.cells[c].made && Rank(s.u.g, c) <= r
    ensures Shape(NeedStep(s, c, need)) && Fresh(NeedStep(s, c, need), c) && MakeSteady(s, NeedStep(s, c, need), r)
  {
    forall d: nat | d < |s.u.g| && d != c ensures FreshCell(NeedStep(s, c, need), d) {
      assert FreshCell(s, d);
    }
  }

  lemma IdleAtStart(s: State, c: nat)
    requires Core(s, -1, 0) && c < |s.u.g| && s.prog[c].submitted == 0
    ensures s.prog[c].owner == -1 && s.prog[c].finished == s.prog[c].started == 0
  {
    assert ProgOk(s, c);
  }

  lemma FreshIsIdle(s: State, c: nat)
    requires Core(s, -1, 0) && Fresh(s, -1) && c < |s.u.g| && !s.cells[c].visited
    ensures s.prog[c].submitted == s.prog[c].started == s.prog[c].finished == 0 && s.prog[c].owner == -1
    ensures !s.cells[c].made && s.prog[c].need == 0 && s.disk[c] == s.u.disk[c]
    ensures Fresh(s, c) && FreshCell(s, c)
  {
    assert FreshCell(s, c);
    IdleAtStart(s, c);
    assert DiskOk(s, c) && ProgOk(s, c);
  }

  /** The file of a cell has been looked up, and there is something to go by. */
  ghost predicate Statted(s: State, c: nat)
    requires Shape(s) && c < |s.u.g|
  {
    var f, cell := s.cells[c], s.u.g[c];
    && f.time == FileTime(s.u, c) && (f.stated <==> FileTime(s.u, c) != 0)
    && (f.rules <==> !cell.hasTarget && FileTime(s.u, c) == 0)
    && (!cell.hasTarget && FileTime(s.u, c) == 0 ==> cell.prq != [])
  }

  lemma UnscheduledSame(s: State, t: State, c: nat)
    requires c < |s.cells| == |t.cells| && t.cells == s.cells[c := t.cells[c]] && t.cells[c].visited == s.cells[c].visited
    ensures Unscheduled(t) == Unscheduled(s)
  {
    assert Unvisited(t) == Unvisited(s);
  }

  lemma SteadyKeepsUnscheduled(s: State, t: State, target: int)
    requires Steady(s, t, target)
    ensures Unvisited(t) == Unvisited(s) && Unscheduled(t) == Unscheduled(s)
    ensures forall c: nat :: c < |s.u.g| ==> t.cells[c].visited == s.cells[c].visited
  {
    forall c: nat | c < |s.u.g| ensures t.cells[c].visited == s.cells[c].visited {
      assert CellSteady(s, t, c);
    }
    assert Unvisited(t) == Unvisited(s);
  }

  lemma RankPositive(g: Graph, c: nat)
    requires c < |g|
    ensures Rank(g, c) >= 1
  {
    ReachesSelf(g, c);
    assert c in ReachSet(g, c);
  }

  // ---- The state after a complete run ----

  /** Everything below a made target is made. */
  lemma {:induction false} AllBelowMade(s: State, w: seq<nat>)
    requires Core(s, -1, 0) && Walk(s.u.g, w) && s.cells[w[0]].made
    ensures s.cells[Last(w)].made
    decreases |w|
  {
    hide LogOk, SlotsOk, ChildrenOk, ProgOk, DiskOk;
    assert OrderOk(s, w[0]);
    if |w| > 1 {
      assert w[1] in s.u.g[w[0]].prq;
      SubWalk(s.u.g, w, 1, |w|);
      assert w[1..|w|][0] == w[1];
      AllBelowMade(s, w[1..|w|]);
    }
  }

  /** With .ROOT everything below it is made. */
  lemma AllMadeBelow(s: State)
    requires Core(s, -1, 0) && s.cells[s.u.root].made
    ensures AllMade(s.u, s.log)
    ensures forall c: nat :: c < |s.u.g| && Reaches(s.u.g, s.u.root, c) ==> s.cells[c].made
  {
    hide Lawful, Load, SlotsOk, ChildrenOk, CellsOk;
    forall c: nat | c < |s.u.g| && Reaches(s.u.g, s.u.root, c) ensures s.cells[c].made && IsMade(s.log, c) {
      var w :| Walk(s.u.g, w) && w[0] == s.u.root && Last(w) == c;
      AllBelowMade(s, w);
    }
  }

  /** As long as dmake goes on, no line has failed. */
  lemma NoFailures(s: State)
    requires Core(s, -1, 0) && Flow(s, -1, -1)
    ensures !SomeFailure(s.u, s.log)
  {
    hide Lawful, Load, SlotsOk, ChildrenOk, QueuesOk, Passes;
    forall c: nat, k: nat ensures !Failed(s.u, s.log, c, k) {
      if Failed(s.u, s.log, c, k) {
        var e :| e in s.log && e.Done? && e.cell == c && e.line == k && IsLineOf(s.u, c, k) && !Passes(s.u, c, k, e.status);
        assert ProgOk(s, c) && Idle(s, c) && Passed(c, k) in s.log;
        PassedIsNoFailure(s.u, s.log, e);
      }
    }
  }

  lemma PassedIsNoFailure(u: Setup, log: seq<Event>, e: Event)
    requires Sensible(u) && Lawful(u, log) && e in log && e.Done? && Passed(e.cell, e.line) in log
    ensures Passes(u, e.cell, e.line, e.status)
  {
    hide Lawful, Passes, MayMake, MayStart;
    assert log[..|log|] == log;
    var n := Position(log, |log|, Passed(e.cell, e.line));
    EventAllowed(u, log, n);
    var f :| f in log[..n] && f.Done? && f.cell == e.cell && f.line == e.line && Passes(u, e.cell, e.line, f.status);
    Sooner(log, n, |log|);
    Unique(u, log, e, f);
  }

  /** No cell that is made was hopeless. */
  lemma NoneHopeless(u: Setup, log: seq<Event>)
    requires Sensible(u) && Lawful(u, log) && AllMade(u, log)
    ensures !SomeHopeless(u)
  {
    hide Lawful, Hopeless, Reaches;
    forall c: nat | c < |u.g| && Reaches(u.g, u.root, c) ensures !Hopeless(u, c) {
      var e :| e in log && e.Made? && e.cell == c;
      assert log[..|log|] == log;
      var n := Position(log, |log|, e);
      EventAllowed(u, log, n);
    }
  }

  /** The files that the log tells of are those on disk. */
  lemma DiskIsAsLogged(s: State)
    requires Core(s, -1, 0)
    ensures FilesAre(s.u, s.log, s.disk)
  {
    hide Lawful, Load, SlotsOk, ChildrenOk;
    forall c: nat | c < |s.u.g| ensures FileNow(s.u, s.log, c, s.disk[c]) {
      assert ProgOk(s, c) && DiskOk(s, c);
      if IsMade(s.log, c) && Started(s.log, c, 0) {
        FileAfterRecipe(s, c);
      }
    }
  }

  /** A run is complete: everything below .ROOT is made, every recipe was run if
      and only if its target was out of date, and no line has failed. */
  ghost predicate Complete(u: Setup, log: seq<Event>)
    requires Sensible(u)
  {
    && AllMade(u, log) && !SomeFailure(u, log) && !SomeHopeless(u)
    && forall c: nat :: c < |u.g| && Reaches(u.g, u.root, c) ==> Decided(u, log, c)
  }

  lemma RunIsComplete(s: State)
    requires Walking(s) && s.cells[s.u.root].made
    ensures Complete(s.u, s.log) && FilesAre(s.u, s.log, s.disk)
  {
    AllMadeBelow(s);
    hide Lawful, Load, SlotsOk, ChildrenOk, CellsOk, Decided, SomeFailure, SomeHopeless, FilesAre, Reaches;
    NoFailures(s);
    DiskIsAsLogged(s);
    NoneHopeless(s.u, s.log);
    forall c: nat | c < |s.u.g| && Reaches(s.u.g, s.u.root, c) ensures Decided(s.u, s.log, c) {
      RecipeDecided(s.u, s.log, c);
    }
  }

  /** With a good clock and good recipes no target is older than any of its
      prerequisites. */
  lemma RunIsInOrder(s: State, c: nat, p: nat)
    requires Core(s, -1, 0) && GoodClock(s.u, s.log) && GoodRecipes(s.u, s.log)
    requires c < |s.u.g| && s.cells[c].made && p in s.u.g[c].prq
    ensures p < |s.u.g| && s.cells[p].made && s.cells[p].time <= s.cells[c].time
  {
    hide Lawful, Load, SlotsOk, ChildrenOk, GoodClock, GoodRecipes;
    assert OrderOk(s, c) && s.cells[p].made;
    ClosedAt(s.u.g, c);
    var e :| e in s.log && e.Made? && e.cell == c;
    assert IsMade(s.log, p);
    var f :| f in s.log && f.Made? && f.cell == p;
    TimesInOrder(s.u, s.log, e, f);
  }

  // ---- One process queue ----

  /** Nothing is running: every scheduled cell is made. */
  ghost predicate NoneRunning(s: State)
    requires |s.u.g| == |s.cells|
  {
    forall c: nat :: c < |s.u.g| && s.cells[c].visited ==> s.cells[c].made
  }

  lemma NoneRunningSteady(s: State, t: State, target: int)
    requires Steady(s, t, target) && NoneRunning(s)
    ensures NoneRunning(t)
  {
    forall c: nat | c < |s.u.g| && t.cells[c].visited ensures t.cells[c].made {
      assert CellSteady(s, t, c);
    }
  }

  // ---- One pass ----

  /** What a call of Make with result `rval` has done: a result of 1 means that
      something new was scheduled; and with one process queue nothing is left
      running. */
  ghost predicate PassFrom(s: State, t: State, r: nat, rval: int) {
    && MakeSteady(s, t, r) && Lazy(s, t)
    && (rval == 1 ==> Unscheduled(t) < Unscheduled(s))
    && (|s.procs| == 1 && NoneRunning(s) ==> NoneRunning(t) && rval == 0)
  }

  lemma PassTrans(s: State, t: State, u: State, r: nat, q: nat, v: int, w: int)
    requires PassFrom(s, t, r, v) && PassFrom(t, u, q, w) && q <= r
    ensures PassFrom(s, u, r, if v == 1 || w == 1 then 1 else 0)
    ensures Advanced(s, t) || Advanced(t, u) ==> Advanced(s, u)
    ensures forall c: nat :: c < |s.u.g| && t.cells[c].made ==> u.cells[c].made
  {
    MakeSteadyTrans(s, t, u, r, q);
    forall c: nat | c < |s.u.g| && t.cells[c].made ensures u.cells[c].made {
      assert MakeCell(t, u, q, c);
    }
  }

  lemma PassRefl(s: State, r: nat)
    requires Shape(s)
    ensures PassFrom(s, s, r, 0)
  {
  }

  // ---- Which cells a pass schedules ----

  ghost predicate NewlyScheduled(s: State, t: State, d: nat) {
    d < |s.cells| && d < |t.cells| && t.cells[d].visited && !s.cells[d].visited
  }

  /** All of them are cells that `c` depends on. */
  ghost predicate Below(s: State, t: State, c: nat) {
    forall d: nat :: NewlyScheduled(s, t, d) ==> Reaches(t.u.g, c, d)
  }

  /** A prerequisite of `c` depends on the cell, and if `c` is .SEQUENTIAL all the
      prerequisites in front of that one are made. */
  ghost predicate DueBelow(t: State, c: nat, p: nat, d: nat)
    requires c < |t.u.g|
  {
    p in t.u.g[c].prq && Reaches(t.u.g, p, d) && Turn(t.u, t.log, c, p)
  }

  ghost predicate OneByOne(s: State, t: State, c: nat)
    requires c < |t.u.g|
  {
    forall d: nat :: NewlyScheduled(s, t, d) ==> exists p :: DueBelow(t, c, p, d)
  }

  lemma OneByOneIsBelow(s: State, t: State, c: nat)
    requires c < |t.u.g| && OneByOne(s, t, c)
    ensures Below(s, t, c)
  {
    forall d: nat | NewlyScheduled(s, t, d) ensures Reaches(t.u.g, c, d) {
      var p :| DueBelow(t, c, p, d);
      ReachesStep(t.u.g, c, p, d);
    }
  }

  lemma SameIsOneByOne(s: State, t: State, c: nat)
    requires c < |t.u.g| && Unvisited(t) == Unvisited(s)
    ensures OneByOne(s, t, c) && Below(s, t, c)
  {
    forall d: nat ensures !NewlyScheduled(s, t, d) {
      assert d in Unvisited(s) <==> d in Unvisited(t);
    }
  }

  lemma BelowThenItself(s: State, t: State, u: State, c: nat)
    requires Below(s, t, c) && u.u == t.u && c < |u.u.g| && |t.cells| == |s.cells| == |u.cells|
    requires Unvisited(t) - {c} <= Unvisited(u)
    ensures Below(s, u, c)
  {
    ReachesSelf(u.u.g, c);
    forall d: nat | NewlyScheduled(s, u, d) && d != c ensures NewlyScheduled(s, t, d) {
      assert d !in Unvisited(u);
    }
  }

  lemma OneByOneMore(s: State, t: State, u: State, c: nat, p: nat)
    requires u.u == t.u && c < |u.u.g| && |t.cells| == |s.cells| == |u.cells| && t.log <= u.log
    requires OneByOne(s, t, c) && Below(t, u, p) && p in u.u.g[c].prq && Turn(u.u, u.log, c, p)
    ensures OneByOne(s, u, c)
  {
    hide Turn;
    forall d: nat | NewlyScheduled(s, u, d) ensures exists q :: DueBelow(u, c, q, d) {
      if NewlyScheduled(t, u, d) {
        assert DueBelow(u, c, p, d);
      } else {
        assert NewlyScheduled(s, t, d);
        var q :| DueBelow(t, c, q, d);
        TurnStays(u.u, t.log, u.log, c, q);
        assert DueBelow(u, c, q, d);
      }
    }
  }

  lemma TurnStays(u: Setup, log: seq<Event>, log': seq<Event>, c: nat, p: nat)
    requires c < |u.g| && Turn(u, log, c, p) && log <= log'
    ensures Turn(u, log', c, p)
  {
    assert log' == log + log'[|log|..];
    Longer(log, log'[|log|..]);
  }

  /** All prerequisites in front of number `i` are made, or it does not matter. */
  lemma NextInTurn(s: State, c: nat, i: nat)
    requires Core(s, -1, 0) && c < |s.u.g| && i < |s.u.g[c].prq| && InTurn(s.u, s.log, c)
    requires s.u.g[c].sequential ==> forall j :: 0 <= j < i ==> s.u.g[c].prq[j] < |s.cells| && s.cells[s.u.g[c].prq[j]].made
    ensures Turn(s.u, s.log, c, s.u.g[c].prq[i]) && InTurn(s.u, s.log, s.u.g[c].prq[i])
  {
    hide Lawful, Load, CellsOk, SlotsOk, ChildrenOk, InTurn;
    var prq := s.u.g[c].prq;
    ClosedAt(s.u.g, c);
    forall j {:trigger prq[j]} | i <= j < |prq| ensures prq[i] in prq[..j + 1] {
      assert prq[..j + 1][i] == prq[i];
    }
    InTurnStep(s.u, s.log, c, prq[i]);
  }
}
