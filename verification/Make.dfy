/** The graph walk of make.c: Make_targets, Make and Exec_commands, with
    Do_cmnd of sysintf.c.  Prerequisite lists and recipes are taken as parsed;
    inference, .SETDIR, .LIBRARY, `::` targets and the -k, -n, -q, -t and -u
    options are not part of this model. */
module Make {
  import opened Dag
  import opened BuildLog
  import opened BuildState
  import opened MakeState
  import opened RunArgv
  import opened Runs

  /** The lines of this target are waited for one by one. */
  ghost predicate Waits(b: Scheduler, cp: nat)
    requires cp < |b.u.g|
    reads b
  {
    b.u.g[cp].sequential || |b.procs| == 1
  }

  /** Do_cmnd: hand a recipe line to the scheduler.  Lines of a .SEQUENTIAL
      target carry the wait attribute, because A_WFC is the same bit as A_SEQ. */
  method DoCmnd(b: Scheduler, target: nat, k: nat, last: bool) returns (rv: int)
    requires Core(b.S(), -1, 0) && Flow(b.S(), -1, -1) && b.useI == -1 && !b.quitting
    requires target < |b.u.g| && Schedulable(b.S(), target) && k == b.prog[target].submitted
    requires last == (k + 1 == |b.u.g[target].recipe|)
    modifies b
    ensures Core(b.S(), -1, 0) && Steady(old(b.S()), b.S(), target)
    ensures if b.quitting then b.procCnt == 0 else Flow(b.S(), -1, -1) && b.useI == -1
    ensures !b.quitting ==> b.prog[target].submitted == k + 1
    ensures rv == 0 || rv == 1
    ensures !b.quitting && rv == 0 ==> b.prog[target].owner == -1 && b.prog[target].finished == k + 1
    ensures !b.quitting && Waits(b, target) && old(b.prog[target].owner) == -1 ==> rv == 0
  {
    hide CellsOk, SlotsOk, ChildrenOk, LogOk, QueuesOk, IdleOk, AllSteady, AllApart, NoneRunning, NeedIs, Hopeless, FileTime;
    ghost var s0 := b.S();
    if |b.procs| == 1 {
      WaitFlagKeeps(s0, true);
      b.waitForCompletion := true;
    }
    ghost var s1 := b.S();
    SameCellsSteady(s0, s1, target);
    SameNeeds(s0, s1, target);
    var line := b.u.g[target].recipe[k];
    line := line.(shell := line.shell || HasMeta(line.cmd, b.u.metas));
    rv := b.Runargv(target, Rcp(line, b.waitForCompletion || b.u.g[target].sequential, last));
    SteadyTrans(s0, s1, b.S(), target);
    if !b.quitting && rv == 0 {
      LineOver(s1, b.S(), target);
    }
  }

  /** Exec_commands: submit the lines of a recipe one after the other. */
  method ExecCommands(b: Scheduler, cp: nat) returns (rval: int)
    requires Core(b.S(), -1, 0) && Flow(b.S(), -1, -1) && b.useI == -1 && !b.quitting
    requires cp < |b.u.g| && Schedulable(b.S(), cp) && b.prog[cp].submitted == 0
    modifies b
    ensures Core(b.S(), -1, 0) && Steady(old(b.S()), b.S(), cp)
    ensures if b.quitting then b.procCnt == 0 else Flow(b.S(), -1, -1) && b.useI == -1
    ensures !b.quitting ==> b.prog[cp].submitted == |b.u.g[cp].recipe|
    ensures rval == 0 || rval == 1
    ensures !b.quitting && rval == 0 ==> b.cells[cp].made
    ensures !b.quitting && Waits(b, cp) ==> rval == 0
  {
    hide CellsOk, SlotsOk, ChildrenOk, LogOk, QueuesOk, IdleOk, AllSteady, AllApart, NoneRunning, NeedIs, Hopeless, FileTime;
    ghost var s0 := b.S();
    SameCellsSteady(s0, s0, cp);
    IdleAtStart(s0, cp);
    var n := |b.u.g[cp].recipe|;
    var k := 0;
    rval := 0;
    while k < n
      invariant 0 <= k <= n
      invariant Core(b.S(), -1, 0) && Flow(b.S(), -1, -1) && b.useI == -1 && !b.quitting
      invariant Steady(s0, b.S(), cp)
      invariant b.prog[cp].submitted == k && (k < n ==> Schedulable(b.S(), cp))
      invariant rval == 0 || rval == 1
      invariant rval == 0 ==> b.prog[cp].owner == -1 && b.prog[cp].finished == k
      invariant Waits(b, cp) ==> rval == 0
    {
      ghost var s1 := b.S();
      rval := DoCmnd(b, cp, k, k + 1 == n);
      SteadyTrans(s0, s1, b.S(), cp);
      if b.quitting {
        return;
      }
      k := k + 1;
      if k < n {
        StillSchedulable(s1, b.S(), cp);
      }
    }
    SubmittedRunsOrIsMade(b.S(), cp);
  }

  /** Changing one cell leaves nothing running, unless the change says so. */
  lemma OneFlag(s: State, t: State, c: nat)
    requires Shape(s) && Shape(t) && c < |s.u.g| && t.u == s.u && t.cells == s.cells[c := t.cells[c]]
    ensures NoneRunning(s) && (t.cells[c].visited ==> t.cells[c].made) ==> NoneRunning(t)
  {
  }

  /** The first part of Make: stat the target, and give up if it has neither a
      rule nor a file nor prerequisites.  The result is false when dmake quits. */
  method StatCell(b: Scheduler, cp: nat) returns (ok: bool)
    requires Walking(b.S()) && cp < |b.u.g| && !b.cells[cp].visited && !b.quitting && InTurn(b.u, b.log, cp)
    modifies b
    ensures Core(b.S(), -1, 0) && ok == !b.quitting && (!ok ==> b.procCnt == 0)
    ensures ok <==> b.u.g[cp].hasTarget || FileTime(b.u, cp) != 0 || b.u.g[cp].prq != []
    ensures ok ==> Walking(b.S()) && b.S() == FlagStep(old(b.S()), cp, b.cells[cp])
    ensures ok ==> !b.cells[cp].visited && Statted(b.S(), cp)
    ensures ok ==> MakeSteady(old(b.S()), b.S(), Rank(b.u.g, cp))
    ensures ok && NoneRunning(old(b.S())) ==> NoneRunning(b.S())
  {
    hide CellsOk, SlotsOk, ChildrenOk, LogOk, QueuesOk, IdleOk, AllSteady, AllApart, NoneRunning, InTurn;
    ghost var s0 := b.S();
    FreshIsIdle(s0, cp);
    var f := b.cells[cp];
    if !f.stated && !b.u.g[cp].phony {
      // Stat_target sets F_STAT only when it finds a file
      f := f.(time := b.disk[cp], stated := b.disk[cp] != 0);
    }
    ok := true;
    if !b.u.g[cp].hasTarget && f.time == 0 {
      if b.u.g[cp].prq != [] {
        f := f.(rules := true);
      } else {
        ok := false;
      }
    }
    FlagKeepsCore(s0, cp, f);
    FlagKeepsFlow(s0, cp, f);
    FlagKeepsFresh(s0, cp, f, -1);
    FlagIsMakeSteady(s0, cp, f, Rank(b.u.g, cp));
    b.cells := b.cells[cp := f];
    OneFlag(s0, b.S(), cp);
    if !ok {
      b.Quit(NoRule(cp));             // Fatal( "... can't be made" )
    }
  }

  /** The second loop of Make over the prerequisites: are they all made, and
      what is the newest of their time stamps (at least 1)? */
  method Newest(b: Scheduler, cp: nat) returns (ready: bool, otime: int)
    requires cp < |b.u.g| == |b.cells| && Closed(b.u.g)
    ensures ready <==> forall p :: p in b.u.g[cp].prq ==> b.cells[p].made
    ensures ready ==> otime >= 1 && forall p :: p in b.u.g[cp].prq ==> b.cells[p].time <= otime
    ensures ready ==> otime == 1 || exists p :: p in b.u.g[cp].prq && b.cells[p].time == otime
  {
    ClosedAt(b.u.g, cp);
    otime := 1;
    var i := 0;
    while i < |b.u.g[cp].prq|
      invariant 0 <= i <= |b.u.g[cp].prq| && otime >= 1
      invariant forall j :: 0 <= j < i ==> b.cells[b.u.g[cp].prq[j]].made && b.cells[b.u.g[cp].prq[j]].time <= otime
      invariant otime == 1 || exists p :: p in b.u.g[cp].prq && b.cells[p].time == otime
    {
      var tcp := b.u.g[cp].prq[i];
      assert tcp in b.u.g[cp].prq;
      if !b.cells[tcp].made {
        return false, otime;
      }
      if b.cells[tcp].time > otime {
        otime := b.cells[tcp].time;
      }
      i := i + 1;
    }
    ready := true;
  }

  /** Set F_VISITED on a target that is made or is being made. */
  method Visit(b: Scheduler, cp: nat)
    requires Core(b.S(), -1, 0) && Flow(b.S(), -1, -1) && b.useI == -1 && cp < |b.u.g| && Fresh(b.S(), cp)
    requires b.cells[cp].made || 0 < b.prog[cp].submitted == |b.u.g[cp].recipe|
    modifies b`cells
    ensures Walking(b.S()) && b.S() == FlagStep(old(b.S()), cp, old(b.cells)[cp].(visited := true))
    ensures MakeSteady(old(b.S()), b.S(), Rank(b.u.g, cp))
    ensures NoneRunning(old(b.S())) && b.cells[cp].made ==> NoneRunning(b.S())
  {
    hide CellsOk, SlotsOk, ChildrenOk, LogOk, QueuesOk, IdleOk, AllSteady, AllApart, NoneRunning;
    ghost var s0 := b.S();
    var f := b.cells[cp].(visited := true);
    VisitKeepsCore(s0, cp);
    FlagKeepsFlow(s0, cp, f);
    FlagKeepsFresh(s0, cp, f, cp);
    FlagIsMakeSteady(s0, cp, f, Rank(b.u.g, cp));
    b.cells := b.cells[cp := f];
    OneFlag(s0, b.S(), cp);
  }

  /** The target is not out of date: it counts as made. */
  method MarkMade(b: Scheduler, cp: nat, ghost otime: int)
    requires Walking(b.S()) && cp < |b.u.g| && !b.cells[cp].visited
    requires Statted(b.S(), cp) && NeedIs(b.S(), cp, otime) && otime <= b.cells[cp].time && InTurn(b.u, b.log, cp)
    modifies b`cells, b`prog, b`log
    ensures Core(b.S(), -1, 0) && Flow(b.S(), -1, -1) && Fresh(b.S(), cp)
    ensures b.S() == MadeStep(old(b.S()), cp, otime, old(b.cells)[cp].time, [])
    ensures MakeSteady(old(b.S()), b.S(), Rank(b.u.g, cp))
    ensures NoneRunning(old(b.S())) ==> NoneRunning(b.S())
  {
    hide CellsOk, SlotsOk, ChildrenOk, LogOk, QueuesOk, IdleOk, AllSteady, AllApart, NoneRunning, NeedIs;
    ghost var s0 := b.S();
    var time := b.cells[cp].time;
    FreshIsIdle(s0, cp);
    NeedIsPositive(s0, cp, otime);
    MadeKeepsCore(s0, cp, otime, time, []);
    MadeKeepsFlow(s0, cp, otime, time, []);
    MadeKeepsFresh(s0, cp, otime, time, []);
    MadeIsMakeSteady(s0, cp, otime, time, [], Rank(b.u.g, cp));
    b.cells := b.cells[cp := b.cells[cp].(made := true)];
    b.prog := b.prog[cp := b.prog[cp].(need := otime)];
    b.log := b.log + [] + [Made(cp, otime, time)];
    assert b.S() == MadeStep(s0, cp, otime, time, []);
    OneFlag(s0, b.S(), cp);
  }

  lemma NeedIsPositive(s: State, c: nat, need: int)
    requires Shape(s) && c < |s.u.g| && NeedIs(s, c, need)
    ensures need >= 1
  {
  }

  /** The target is out of date: remember the least acceptable time stamp and
      run the recipe, or, if there is none, take the time stamp at once. */
  method Update(b: Scheduler, cp: nat, otime: int, rval0: int) returns (rval: int)
    requires Walking(b.S()) && cp < |b.u.g| && !b.cells[cp].visited && !b.quitting && InTurn(b.u, b.log, cp)
    requires Statted(b.S(), cp) && NeedIs(b.S(), cp, otime) && b.cells[cp].time < otime
    requires rval0 == 0 || rval0 == 1
    modifies b
    ensures Core(b.S(), -1, 0) && (rval == 0 || rval == 1)
    ensures if b.quitting then b.procCnt == 0 else Flow(b.S(), -1, -1) && b.useI == -1 && Fresh(b.S(), cp)
    ensures !b.quitting ==> MakeSteady(old(b.S()), b.S(), Rank(b.u.g, cp)) && !Hopeless(b.u, cp)
    ensures !b.quitting ==> if b.u.g[cp].recipe != [] then 0 < b.prog[cp].submitted == |b.u.g[cp].recipe| else b.cells[cp].made
    ensures !b.quitting && Waits(b, cp) ==> b.cells[cp].made && (rval0 == 0 ==> rval == 0)
    ensures !b.quitting && NoneRunning(old(b.S())) ==> NoneRunning(b.S())
    ensures !b.quitting ==> Unvisited(b.S()) == Unvisited(old(b.S()))
  {
    hide CellsOk, SlotsOk, ChildrenOk, LogOk, QueuesOk, IdleOk, AllSteady, AllApart, NoneRunning, NeedIs, InTurn;
    rval := rval0;
    ghost var s0 := b.S();
    FreshIsIdle(s0, cp);
    SetMinTime(b, cp, otime);
    ghost var s1 := b.S();
    assert Unvisited(s1) == Unvisited(s0);
    if b.u.g[cp].recipe != [] {
      rval := ExecCommands(b, cp);
      if !b.quitting {
        SteadyKeepsFresh(s1, b.S(), cp);
        SteadyKeepsUnscheduled(s1, b.S(), cp);
        SteadyIsMakeSteady(s1, b.S(), cp, Rank(b.u.g, cp));
        if NoneRunning(s1) {
          NoneRunningSteady(s1, b.S(), cp);
        }
        MakeSteadyTrans(s0, s1, b.S(), Rank(b.u.g, cp), Rank(b.u.g, cp));
      }
    } else if !b.cells[cp].rules && !b.cells[cp].stated && !b.u.g[cp].special {
      b.Quit(NoRule(cp));             // Fatal( "Don't know how to make ..." )
    } else {
      Stamped(b, cp);
      MakeSteadyTrans(s0, s1, b.S(), Rank(b.u.g, cp), Rank(b.u.g, cp));
    }
  }

  /** A target without a recipe takes its time stamp. */
  method Stamped(b: Scheduler, cp: nat)
    requires Core(b.S(), -1, 0) && Flow(b.S(), -1, -1) && b.useI == -1 && cp < |b.u.g| && Fresh(b.S(), cp) && !b.quitting
    requires !b.cells[cp].made && !b.cells[cp].visited && b.prog[cp].submitted == 0 && b.prog[cp].owner == -1
    requires b.u.g[cp].recipe == [] && NeedIs(b.S(), cp, b.cells[cp].time)
    requires FileTime(b.u, cp) < b.cells[cp].time && !Hopeless(b.u, cp) && InTurn(b.u, b.log, cp)
    modifies b`cells, b`prog, b`log
    ensures Unvisited(b.S()) == Unvisited(old(b.S()))
    ensures Core(b.S(), -1, 0) && Flow(b.S(), -1, -1) && Fresh(b.S(), cp) && b.cells[cp].made
    ensures MakeSteady(old(b.S()), b.S(), Rank(b.u.g, cp))
    ensures NoneRunning(old(b.S())) ==> NoneRunning(b.S())
  {
    hide CellsOk, SlotsOk, ChildrenOk, LogOk, QueuesOk, IdleOk, NoneRunning, NeedIs, Hopeless, FileTime, Stamp;
    ghost var s1 := b.S();
    var warned; ghost var clock;
    warned, clock := b.UpdateTimeStamp(cp);
    ghost var need, time := s1.cells[cp].time, b.cells[cp].time;
    MadeKeepsFlow(s1, cp, need, time, clock);
    assert Unvisited(b.S()) == Unvisited(s1);
    MadeKeepsFresh(s1, cp, need, time, clock);
    MadeIsMakeSteady(s1, cp, need, time, clock, Rank(b.u.g, cp));
    OneFlag(s1, b.S(), cp);
  }

  /** ce_time holds the least acceptable time stamp while the target is made. */
  method SetMinTime(b: Scheduler, cp: nat, otime: int)
    requires Walking(b.S()) && cp < |b.u.g| && !b.cells[cp].visited && NeedIs(b.S(), cp, otime)
    modifies b`cells, b`prog
    ensures Core(b.S(), -1, 0) && Flow(b.S(), -1, -1) && Fresh(b.S(), cp) && NeedIs(b.S(), cp, otime)
    ensures b.S() == NeedStep(old(b.S()), cp, otime)
    ensures MakeSteady(old(b.S()), b.S(), Rank(b.u.g, cp))
    ensures NoneRunning(old(b.S())) ==> NoneRunning(b.S())
  {
    hide CellsOk, SlotsOk, ChildrenOk, LogOk, QueuesOk, IdleOk, AllSteady, AllApart, NoneRunning, NeedIs;
    ghost var s0 := b.S();
    FreshIsIdle(s0, cp);
    NeedKeepsCore(s0, cp, otime);
    NeedKeepsFlow(s0, cp, otime);
    NeedKeepsFresh(s0, cp, otime, Rank(b.u.g, cp));
    NeedKept(s0, NeedStep(s0, cp, otime), cp, cp);
    b.cells := b.cells[cp := b.cells[cp].(time := otime)];
    b.prog := b.prog[cp := b.prog[cp].(need := otime)];
    assert b.S() == NeedStep(s0, cp, otime);
    OneFlag(s0, b.S(), cp);
  }

  /** The last part of Make.  All prerequisites are made: the target is made if
      it is older than the newest of them, and is up to date otherwise. */
  method MakeTarget(b: Scheduler, cp: nat, otime: int, rval0: int) returns (rval: int)
    requires Walking(b.S()) && cp < |b.u.g| && !b.cells[cp].visited && !b.quitting && InTurn(b.u, b.log, cp)
    requires Statted(b.S(), cp) && NeedIs(b.S(), cp, otime)
    requires rval0 == 0 || rval0 == 1
    modifies b
    ensures Core(b.S(), -1, 0) && (rval == 0 || rval == 1)
    ensures if b.quitting then b.procCnt == 0 else Walking(b.S())
    ensures !b.quitting ==> MakeSteady(old(b.S()), b.S(), Rank(b.u.g, cp)) && b.cells[cp].visited
    ensures !b.quitting ==> if FileTime(b.u, cp) < otime then b.prog[cp].submitted == |b.u.g[cp].recipe|
                            else b.prog[cp].submitted == 0 && b.cells[cp].made && b.cells[cp].time == FileTime(b.u, cp)
    ensures !b.quitting && Waits(b, cp) ==> b.cells[cp].made && (rval0 == 0 ==> rval == 0)
    ensures !b.quitting && NoneRunning(old(b.S())) && Waits(b, cp) ==> NoneRunning(b.S())
    ensures !b.quitting ==> Unvisited(b.S()) == Unvisited(old(b.S())) - {cp}
  {
    hide CellsOk, SlotsOk, ChildrenOk, LogOk, QueuesOk, IdleOk, AllSteady, AllApart, NoneRunning, NeedIs, Hopeless, InTurn;
    ghost var s0 := b.S();
    FreshIsIdle(s0, cp);
    rval := rval0;
    if b.cells[cp].time < otime {
      rval := Update(b, cp, otime, rval0);
      if b.quitting {
        return;
      }
      SubmittedAtMost(b.S(), cp);
    } else {
      MarkMade(b, cp, otime);
    }
    ghost var s1 := b.S();
    Visit(b, cp);
    MakeSteadyTrans(s0, s1, b.S(), Rank(b.u.g, cp), Rank(b.u.g, cp));
  }

  lemma SubmittedAtMost(s: State, c: nat)
    requires Core(s, -1, 0) && c < |s.u.g|
    ensures s.prog[c].submitted <= |s.u.g[c].recipe|
  {
    assert ProgOk(s, c);
  }

  /** Make: one pass over the target and everything below it.  The result is 0
      or 1; 1 means that a recipe was submitted and is still running.  A pass
      that leaves the target unmade has something running or has scheduled a
      new cell, so waiting or another pass will make progress.  With one process
      queue a single pass makes the target.  If dmake quits, the log says why. */
  method Make(b: Scheduler, cp: nat) returns (rval: int)
    requires Walking(b.S()) && !b.quitting && Acyclic(b.u.g, b.u.root) && InTurn(b.u, b.log, cp)
    requires cp < |b.u.g| && !b.cells[cp].visited
    modifies b
    ensures Core(b.S(), -1, 0) && (rval == 0 || rval == 1)
    ensures if b.quitting then b.procCnt == 0 else Walking(b.S())
    ensures !b.quitting ==> PassFrom(old(b.S()), b.S(), Rank(b.u.g, cp), rval)
    ensures !b.quitting && !b.cells[cp].made ==> Advanced(old(b.S()), b.S())
    ensures !b.quitting && Waits(b, cp) && b.cells[cp].visited ==> b.cells[cp].made
    ensures !b.quitting && |old(b.procs)| == 1 && NoneRunning(old(b.S())) ==> b.cells[cp].made
    ensures !b.quitting ==> Below(old(b.S()), b.S(), cp)
    decreases Rank(b.u.g, cp), 1
  {
    hide CellsOk, SlotsOk, ChildrenOk, LogOk, QueuesOk, IdleOk, AllSteady, AllApart, NoneRunning, Acyclic, InTurn, Hopeless, FileTime, Rank;
    hide PassFrom, Advanced, Statted, CountValid, Needs, Below, OneByOne, Unvisited;
    ghost var s0, r := b.S(), Rank(b.u.g, cp);
    RankPositive(b.u.g, cp);
    rval := 0;
    var ok := StatCell(b, cp);
    if !ok {
      return;
    }
    ghost var s1 := b.S();
    StatIsPass(s0, s1, cp);
    SameUnvisited(s0, s1, cp);
    var go;
    rval, go := MakePrerequisites(b, cp);
    if b.quitting {
      return;
    }
    ghost var s2 := b.S();
    PassTrans(s0, s1, s2, r, r - 1, 0, rval);
    StillStatted(s1, s2, r - 1, rval, cp);
    StillInTurn(s1, s2, r - 1, rval, cp);
    OneByOneIsBelow(s1, s2, cp);
    SameBefore(s0, s1, s2, cp);
    if !go {
      return;
    }
    var ready, otime := Newest(b, cp);
    if !ready {
      return;
    }
    ghost var before := rval;
    rval := MakeTarget(b, cp, otime, rval);
    if !b.quitting {
      TargetIsPass(s0, s2, b.S(), r, before, rval, cp);
      BelowThenItself(s0, s2, b.S(), cp);
    }
  }

  lemma StatIsPass(s: State, t: State, c: nat)
    requires Shape(s) && c < |s.u.g| && Shape(t) && t.u == s.u && t == FlagStep(s, c, t.cells[c]) && MakeSteady(s, t, Rank(s.u.g, c))
    requires !s.cells[c].visited && !t.cells[c].visited && (NoneRunning(s) ==> NoneRunning(t))
    ensures PassFrom(s, t, Rank(s.u.g, c), 0)
  {
    UnscheduledSame(s, t, c);
  }

  /** A cell is not touched while its prerequisites are made. */
  lemma StillStatted(s: State, t: State, r: nat, rval: int, c: nat)
    requires PassFrom(s, t, r, rval) && Shape(s) && Shape(t) && c < |s.u.g| && !s.cells[c].visited && r < Rank(s.u.g, c)
    ensures t.cells[c] == s.cells[c] && (Statted(s, c) ==> Statted(t, c))
  {
    MakeSteadyAt(s, t, r, c);
  }

  lemma StillInTurn(s: State, t: State, r: nat, rval: int, c: nat)
    requires PassFrom(s, t, r, rval) && InTurn(s.u, s.log, c)
    ensures t.u == s.u && InTurn(t.u, t.log, c) && s.log <= t.log && |t.cells| == |s.cells| == |s.u.g|
  {
    InTurnStays(s.u, s.log, t.log, c);
  }

  lemma SameUnvisited(s: State, t: State, c: nat)
    requires c < |s.cells| == |t.cells| && t == FlagStep(s, c, t.cells[c]) && !s.cells[c].visited && !t.cells[c].visited
    ensures Unvisited(t) == Unvisited(s)
  {
  }

  lemma SameBefore(s: State, t: State, u: State, c: nat)
    requires Unvisited(t) == Unvisited(s) && Below(t, u, c) && |s.cells| == |t.cells| == |u.cells|
    ensures Below(s, u, c)
  {
    forall d: nat | NewlyScheduled(s, u, d) ensures NewlyScheduled(t, u, d) {
      assert d in Unvisited(t);
    }
  }

  lemma TargetIsPass(s: State, t: State, u: State, r: nat, before: int, rval: int, c: nat)
    requires PassFrom(s, t, r, before) && MakeSteady(t, u, r) && c < |t.u.g|
    requires u.cells[c].visited && !t.cells[c].visited
    requires |t.procs| == 1 && NoneRunning(t) ==> NoneRunning(u) && (before == 0 ==> rval == 0)
    ensures PassFrom(s, u, r, rval) && Advanced(s, u)
  {
    UnscheduledShrinks(t, u, r);
    MakeSteadyTrans(s, t, u, r, r);
  }

  /** The first loop of Make over the prerequisites.  `go` is false when the
      pass over this target stops early.  For a .SEQUENTIAL target nothing below
      a prerequisite is scheduled before all prerequisites in front are made. */
  method MakePrerequisites(b: Scheduler, cp: nat) returns (rval: int, go: bool)
    requires Walking(b.S()) && !b.quitting && Acyclic(b.u.g, b.u.root) && InTurn(b.u, b.log, cp)
    requires cp < |b.u.g| && !b.cells[cp].visited
    modifies b
    ensures Core(b.S(), -1, 0) && (rval == 0 || rval == 1) && Rank(b.u.g, cp) >= 1
    ensures if b.quitting then b.procCnt == 0 else Walking(b.S())
    ensures !b.quitting ==> PassFrom(old(b.S()), b.S(), Rank(b.u.g, cp) - 1, rval)
    ensures !b.quitting && (!go || exists p :: p in b.u.g[cp].prq && !b.cells[p].made) ==>
              Advanced(old(b.S()), b.S()) && !(|old(b.procs)| == 1 && NoneRunning(old(b.S())))
    ensures !b.quitting ==> OneByOne(old(b.S()), b.S(), cp) && (go && b.u.g[cp].sequential ==> rval == 0)
    decreases Rank(b.u.g, cp), 0
  {
    hide CellsOk, SlotsOk, ChildrenOk, LogOk, QueuesOk, IdleOk, AllSteady, AllApart, NoneRunning;
    hide PassFrom, Advanced, InTurn, Turn, Below, OneByOne;
    InTurnReaches(b.u, b.log, cp);
    RankPositive(b.u.g, cp);
    ClosedAt(b.u.g, cp);
    ghost var s0, r := b.S(), Rank(b.u.g, cp) - 1;
    PassRefl(s0, r);
    SameIsOneByOne(s0, s0, cp);
    var made := true;
    rval, go := 0, true;
    var i := 0;
    while i < |b.u.g[cp].prq|
      invariant 0 <= i <= |b.u.g[cp].prq| && go
      invariant Walking(b.S()) && !b.quitting && (rval == 0 || rval == 1)
      invariant PassFrom(s0, b.S(), r, rval) && InTurn(b.u, b.log, cp)
      invariant OneByOne(s0, b.S(), cp) && (b.u.g[cp].sequential ==> rval == 0)
      invariant made ==> forall j :: 0 <= j < i ==> b.cells[b.u.g[cp].prq[j]].made
      invariant !made ==> Advanced(s0, b.S()) && !(|s0.procs| == 1 && NoneRunning(s0))
    {
      var tcp := b.u.g[cp].prq[i];
      assert tcp in b.u.g[cp].prq;
      if b.cells[tcp].visited {
        if !b.cells[tcp].made {
          UnmadeRuns(s0, b.S(), r, rval, tcp);
          return rval, false;
        }
      } else {
        if b.u.g[cp].sequential && !made {
          return rval, false;
        }
        RankDrops(b.u.g, b.u.root, cp, tcp);
        NextInTurn(b.S(), cp, i);
        ghost var s1 := b.S();
        var v := Make(b, tcp);
        if b.quitting {
          return;
        }
        PassTrans(s0, s1, b.S(), r, Rank(b.u.g, tcp), rval, v);
        PassKeepsNone(s0, s1, r, rval);
        StillInTurn(s1, b.S(), Rank(b.u.g, tcp), v, cp);
        StillInTurn(s0, s1, r, rval, cp);
        TurnStays(b.u, s1.log, b.log, cp, tcp);
        OneByOneMore(s0, s1, b.S(), cp, tcp);
        rval := if rval == 1 || v == 1 then 1 else 0;
        if b.u.g[cp].sequential && rval == 1 {
          PassResult(s0, b.S(), r, rval);
          return rval, false;
        }
        if !b.cells[tcp].made {
          assert Advanced(s1, b.S());
          assert !(|s0.procs| == 1 && NoneRunning(s0));
        }
        made := made && b.cells[tcp].made;
      }
      i := i + 1;
    }
  }

  lemma UnmadeRuns(s: State, t: State, r: nat, rval: int, c: nat)
    requires PassFrom(s, t, r, rval) && Walking(t) && c < |t.u.g|
    requires t.cells[c].visited && !t.cells[c].made
    ensures Advanced(s, t) && !(|s.procs| == 1 && NoneRunning(s))
  {
    VisitedRunsOrIsMade(t, c);
  }

  lemma PassKeepsNone(s: State, t: State, r: nat, rval: int)
    requires PassFrom(s, t, r, rval)
    ensures |t.procs| == |s.procs|
    ensures |s.procs| == 1 && NoneRunning(s) ==> NoneRunning(t)
  {
  }

  lemma PassResult(s: State, t: State, r: nat, rval: int)
    requires PassFrom(s, t, r, rval) && rval == 1
    ensures Advanced(s, t) && !(|s.procs| == 1 && NoneRunning(s))
  {
  }

  /** How a build ends: dmake has quit, with nothing running, and there is a line
      that failed or a cell that cannot be made; or the run is complete. */
  ghost predicate Ending(b: Scheduler)
    reads b
  {
    && Core(b.S(), -1, 0) && Lawful(b.u, b.log)
    && (b.quitting <==> SomeFailure(b.u, b.log) || SomeHopeless(b.u))
    && if b.quitting then b.procCnt == 0 else Complete(b.u, b.log) && FilesAre(b.u, b.log, b.disk)
  }

  lemma QuitEnding(s: State)
    requires Core(s, -1, 0) && s.quitting
    ensures SomeFailure(s.u, s.log) || SomeHopeless(s.u)
  {
    QuitHasCause(s.u, s.log);
  }

  /** Make_targets: pass over the graph until .ROOT is made, waiting for a child
      whenever a pass has nothing new to run.  It ends for every order in which
      children finish: with .ROOT made, or by quitting for a reason. */
  method MakeTargets(b: Scheduler)
    requires Walking(b.S()) && !b.quitting && Acyclic(b.u.g, b.u.root)
    requires b.u.g[b.u.root].sequential && !b.cells[b.u.root].visited
    modifies b
    ensures Ending(b)
  {
    hide CellsOk, SlotsOk, ChildrenOk, LogOk, QueuesOk, IdleOk, AllSteady, AllApart, NoneRunning, SomeFailure, SomeHopeless,
      Complete, FilesAre, Acyclic, InTurn;
    var root := b.u.root;
    var done := false;
    while !done
      invariant Walking(b.S()) && !b.quitting
      invariant if done then b.cells[root].made else !b.cells[root].visited
      decreases !done, Unscheduled(b.S()), Weight(b.procs)
    {
      RootInTurn(b.u, b.log);
      var rval := Make(b, root);
      CoreIsLawful(b.S(), -1, 0);
      if b.quitting {
        QuitEnding(b.S());
        return;
      }
      done := b.cells[root].made;
      if rval == 0 && !done {
        ghost var s1 := b.S();
        var r := b.WaitForChild(false, -1);
        CoreIsLawful(b.S(), -1, 0);
        if b.quitting {
          QuitEnding(b.S());
          return;
        }
        SteadyKeepsFresh(s1, b.S(), -1);
        SteadyKeepsUnscheduled(s1, b.S(), -1);
      }
    }
    CoreIsLawful(b.S(), -1, 0);
    RunIsComplete(b.S());
    CompleteIsNoFailure(b.u, b.log);
  }

  lemma CompleteIsNoFailure(u: Setup, log: seq<Event>)
    requires Sensible(u) && Complete(u, log)
    ensures !SomeFailure(u, log) && !SomeHopeless(u)
  {
  }

  /** dmake after parsing: Test_circle on .ROOT, then Make_targets.  A circular
      graph ends in Fatal(); on every other graph the build ends. */
  method Dmake(u: Setup) returns (b: Scheduler, circular: bool)
    requires Sensible(u) && u.g[u.root].sequential
    ensures fresh(b) && b.u == u && |b.disk| == |u.g|
    ensures circular <==> !Acyclic(u.g, u.root)
    ensures !circular ==> Ending(b)
  {
    b := new Scheduler(u);
    var mark := new bool[|u.g|](_ => false);
    var _, fatal := TestCircle(u.g, mark, u.root, true);
    assert Marked(seq(|u.g|, _ => false)) == {};
    LoopsBackIsCycle(u.g, u.root);
    circular := fatal;
    if !circular {
      MakeTargets(b);
    }
  }

  /** Two runs in a row.  When the first made everything, with a clock that is
      never behind and recipes that leave their files up to date, the second
      starts no line of a target that depends on files only, and gives it the
      time stamp that it had. */
  method DmakeTwice(u: Setup) returns (first: Scheduler, again: Scheduler, circular: bool)
    requires Sensible(u) && u.g[u.root].sequential
    ensures circular <==> !Acyclic(u.g, u.root)
    ensures first.u == u && |first.disk| == |u.g| && (!circular ==> Ending(first) && Ending(again))
    ensures !circular ==> again.u == u.(disk := first.disk)
    ensures !circular && !first.quitting && GoodClock(u, first.log) && GoodRecipes(u, first.log) ==>
              Repeats(u, first.log, first.disk, again.log)
  {
    hide Acyclic, Reaches, OnFiles, GoodClock, GoodRecipes, Core, Lawful, Decided, SomeFailure, SomeHopeless, FilesAre;
    hide MadeAsBefore, IsMade;
    first, circular := Dmake(u);
    again := first;
    if circular {
      return;
    }
    ghost var one, disk := first.log, first.disk;
    again, circular := Dmake(u.(disk := first.disk));
    if !first.quitting && GoodClock(u, one) && GoodRecipes(u, one) {
      forall e | e in again.log && (e.Start? || e.Made?) && e.cell < |u.g| && Reaches(u.g, u.root, e.cell) && OnFiles(u, disk, e.cell)
        ensures MadeAsBefore(one, e)
      {
        var n :| 0 <= n < |again.log| && again.log[n] == e;
        SecondRun(u, one, disk, again.log, n);
      }
    }
  }
}
