/** The process queues of a parallel build: unix/runargv.c on its fork path,
    with Do_cmnd, Handle_result and Update_time_stamp of sysintf.c and Quit of
    quit.c.  The four functions runargv, _add_child, Wait_for_child and
    _finished_child call each other recursively. */
module RunArgv {
  import opened Dag
  import opened BuildLog
  import opened BuildState

  lemma FreshPid(used: set<int>)
    ensures exists pid: int :: pid > 0 && pid !in used
  {
    var bound := Above(used);
    assert bound !in used;
  }

  lemma Above(used: set<int>) returns (bound: int)
    ensures bound > 0 && forall p :: p in used ==> p < bound
  {
    bound := 1;
    if p :| p in used {
      bound := Above(used - {p});
      assert forall q :: q in used ==> q == p || q in used - {p};
      bound := if p >= bound then p + 1 else bound;
    }
  }

  /** The line was started in this slot, as a process unless it is internal. */
  ghost predicate StartedIn(log: seq<Event>, c: nat, k: nat, r: Rcp, slot: nat) {
    Start(c, k, r.line, !IsInternal(r.line), slot) in log
  }

  /** What becomes of the line that ended in slot `i` with this status: unless it
      failed and that is not ignored, it has passed, and what waits behind it is
      started in the same slot, or after the last line the target is made. */
  ghost predicate Continued(s: State, i: nat, status: nat, t: State)
    requires i < |s.procs| && s.procs[i].target < |s.prog| <= |t.cells|
  {
    var c, q := s.procs[i].target, s.procs[i].recipe;
    && (status != 0 && !s.procs[i].ignore ==> t.quitting)
    && (!t.quitting && s.prog[c].finished > 0 ==> Passed(c, s.prog[c].finished - 1) in t.log)
    && (!t.quitting && q != [] ==> StartedIn(t.log, c, s.prog[c].started, q[0], i))
    && (!t.quitting && q == [] && s.procs[i].last ==> t.cells[c].made)
  }

  /** The same, when the line has just been collected. */
  ghost predicate Collected(s: State, i: nat, status: nat, t: State)
    requires i < |s.procs| && s.procs[i].target < |s.prog| <= |t.cells| && |s.prog| == |s.disk|
  {
    var c := s.procs[i].target;
    && Done(c, s.prog[c].finished, status, s.disk[c]) in t.log
    && (!s.quitting ==> Continued(FinishStep(s, i, status), i, status, t))
  }

  lemma EndsWith(s: State, i: nat, status: nat, t1: State, t: State)
    requires i < |s.procs| && s.procs[i].target < |s.prog| <= |t.cells| && (s.procs[i].ignore || status == 0)
    requires s.prog[s.procs[i].target].finished > 0 && s.procs[i].recipe == []
    requires t1.log == s.log + [Passed(s.procs[i].target, s.prog[s.procs[i].target].finished - 1)] && t1.log <= t.log
    requires s.procs[i].last ==> t.cells[s.procs[i].target].made
    ensures Continued(s, i, status, t)
  {
    assert t.log[|s.log|] == t1.log[|s.log|];
  }

  lemma FailedOrQuit(s: State, i: nat, status: nat, t: State)
    requires i < |s.procs| && s.procs[i].target < |s.prog| <= |t.cells| && t.quitting
    ensures Continued(s, i, status, t)
  {
  }

  lemma ContinuesWith(s: State, i: nat, status: nat, r: Rcp, t1: State, t2: State, t: State)
    requires i < |s.procs| && s.procs[i].target < |s.prog| <= |t.cells| && (s.procs[i].ignore || status == 0)
    requires s.prog[s.procs[i].target].finished > 0 && s.procs[i].recipe != [] && r == s.procs[i].recipe[0]
    requires t1.log == s.log + [Passed(s.procs[i].target, s.prog[s.procs[i].target].finished - 1)]
    requires t1.log <= t2.log <= t.log && StartedIn(t2.log, s.procs[i].target, s.prog[s.procs[i].target].started, r, i)
    ensures Continued(s, i, status, t)
  {
    assert t.log[|s.log|] == t1.log[|s.log|];
  }

  lemma LineWithWfc(u: Setup, r: Rcp, c: nat, k: int)
    ensures forall w :: IsLine(u, r, c, k) ==> IsLine(u, r.(wfc := w), c, k)
  {
  }

  lemma AttachSteady(s: State, i: nat, c: nat, r: Rcp)
    requires Shape(s) && i < |s.procs| && c < |s.u.g|
    ensures Steady(s, AttachStep(s, i, c, r), c)
  {
    OneCellSteady(s, AttachStep(s, i, c, r), c);
  }

  lemma WaitingIsAnotherMatter(s: State, c: nat, r: Rcp)
    requires Startable(s, c, r, 0)
    ensures Startable(s, c, r.(wfc := false), 0)
  {
    hide Core, Flow, QueueIs, Command;
  }

  class Scheduler {
    const u: Setup
    var procs: seq<Slot>          // _procs, Max_proc entries
    var procCnt: int              // _proc_cnt
    var useI: int                 // _use_i
    var abortFlg: bool            // _abort_flg
    var quitting: bool            // _quitting
    var waitForCompletion: bool   // Wait_for_completion
    var children: map<int, Line>  // processes not yet waited for, and what they run
    var cells: seq<Flags>         // the changing part of every cell
    var disk: seq<nat>            // modification times of the files
    ghost var slotOf: map<int, int>
    ghost var prog: seq<Progress>
    ghost var log: seq<Event>
    ghost var exit: nat           // the status that wait() reported last

    ghost function S(): State
      reads this
    {
      State(u, procs, procCnt, useI, abortFlg, quitting, waitForCompletion, children, slotOf, cells, prog, disk, log)
    }

    /** dmake at start: no process, no flag set. */
    constructor (u: Setup)
      requires Sensible(u)
      ensures this.u == u && disk == u.disk && |procs| == u.maxProc && useI == -1 && !quitting
      ensures Core(S(), -1, 0) && Flow(S(), -1, -1) && log == []
      ensures cells == seq(|u.g|, _ => Flags(false, false, false, false, 0))
      ensures prog == seq(|u.g|, _ => NO_PROGRESS)
    {
      this.u, this.disk := u, u.disk;
      procs := seq(u.maxProc, _ => FREE_SLOT);
      procCnt, useI, abortFlg, quitting, waitForCompletion := 0, -1, false, false, false;
      children, slotOf, log := map[], map[], [];
      cells := seq(|u.g|, _ => Flags(false, false, false, false, 0));
      prog := seq(|u.g|, _ => NO_PROGRESS);
      new;
      ValidBounds(procs);
    }

    // ---- The operating system ----

    /** fork() and exec(): a new process that runs `line`. */
    method Fork(line: Line) returns (pid: int)
      modifies this`children
      ensures pid > 0 && pid !in old(children) && children == old(children)[pid := line]
    {
      FreshPid(children.Keys);
      pid :| pid > 0 && pid !in children;
      children := children[pid := line];
    }

    /** dmwaitpid and dmwaitnext: some child has finished, with any status. */
    method Wait() returns (wid: int, status: nat, ghost k: nat, ghost stamp: nat)
      requires Core(S(), -1, 0) && exists w :: w in children
      modifies this`children, this`disk, this`slotOf, this`exit
      ensures exit == status && wid in old(children) && wid !in slotOf && wid > 0
      ensures k < |procs| && procs[k].valid && procs[k].pid == wid && procs[k].target < |u.g|
      ensures S() == ReapStep(old(S()), k, stamp)
    {
      hide LogOk, CellsOk, CountValid;
      wid :| wid in children;
      k := slotOf[wid];
      assert SlotOk(S(), k, -1);
      status, stamp := *, 0;
      exit := status;
      var i := 0;
      while !(procs[i].valid && procs[i].pid == wid)
        invariant 0 <= i <= k
        decreases k - i
      {
        i := i + 1;
      }
      assert SlotOk(S(), i, -1);
      var t: nat := *;
      stamp := t;
      children := children - {wid};
      slotOf := slotOf - {wid};
      disk := disk[procs[i].target := t];
    }

    /** Do_time(): the clock shows any positive time. */
    method DoTime() returns (t: int)
      modifies this`log
      ensures t > 0 && log == old(log) + [Clock(t)]
    {
      t :| t > 0;
      log := log + [Clock(t)];
    }

    // ---- Time stamps ----

    /** The time stamp that Update_time_stamp gives a target: the clock for
        phony targets, the file's own time if there is a file and a recipe, and
        otherwise the least acceptable time stamp or the clock. */
    method NewTimeStamp(cp: nat, mintime: int) returns (time: int, ghost clock: seq<Event>)
      requires cp < |u.g| == |disk|
      modifies this`log
      ensures IsReading(clock) && log == old(log) + clock && Stamp(u.g[cp], log, mintime, disk[cp], time)
    {
      clock := [];
      if u.g[cp].phony {
        time := DoTime();
        clock := [Clock(time)];
      } else {
        time := disk[cp];                       // Stat_target
        if time == 0 {
          if u.g[cp].recipe == [] && mintime > 1 {
            time := mintime;
          } else {
            time := DoTime();
            clock := [Clock(time)];
          }
        } else if u.g[cp].recipe == [] {
          var newtime := mintime;
          if mintime <= 1 {
            newtime := DoTime();
            clock := [Clock(newtime)];
            assert JustRead(log, newtime);
          }
          if newtime > time {
            time := mintime;
          }
        }
      }
    }

    /** Update_time_stamp: called when a target is finished; on entry ce_time is
        the least acceptable time stamp.  A time stamp behind that is worth a
        warning, except for .SILENT targets. */
    method UpdateTimeStamp(cp: nat) returns (warned: bool, ghost clock: seq<Event>)
      requires Core(S(), -1, 0) && cp < |u.g| && prog[cp].owner == -1 && !cells[cp].made
      requires NeedIs(S(), cp, cells[cp].time) && FileTime(u, cp) < cells[cp].time && !Hopeless(u, cp)
      requires InTurn(u, log, cp)
      requires prog[cp].submitted > 0 ==> prog[cp].need == cells[cp].time && prog[cp].finished == |u.g[cp].recipe|
      requires u.g[cp].recipe != [] ==> prog[cp].finished > 0 && RecipeOver(u, log, cp)
      modifies this`cells, this`prog, this`log
      ensures Core(S(), -1, 0) && IsReading(clock)
      ensures S() == MadeStep(old(S()), cp, old(cells)[cp].time, cells[cp].time, clock)
      ensures Stamp(u.g[cp], old(log) + clock, old(cells)[cp].time, disk[cp], cells[cp].time)
      ensures warned <==> cells[cp].time < old(cells)[cp].time && !u.g[cp].silent
    {
      hide CellsOk, SlotsOk, ChildrenOk, LogOk, QueuesOk, IdleOk, AllSteady, AllApart, NeedIs, Stamp, RecipeOver, Hopeless, FileTime;
      ghost var s0 := S();
      var mintime, time := cells[cp].time, 0;
      time, clock := NewTimeStamp(cp, mintime);
      MadeKeepsCore(s0, cp, mintime, time, clock);
      cells := cells[cp := cells[cp].(made := true, time := time)];
      prog := prog[cp := prog[cp].(need := mintime)];
      log := log + [Made(cp, mintime, time)];
      assert S() == MadeStep(s0, cp, mintime, time, clock);
      warned := time < mintime && !u.g[cp].silent;
    }

    // ---- Quitting ----

    /** Quit: kill and collect every child, then exit.  dmake does not return
        from here; the callers below return at once when `quitting` is set. */
    method Quit(ghost cause: Cause)
      requires Core(S(), -1, 0) && !quitting && Justified(u, log, cause)
      modifies this
      ensures Core(S(), -1, 0) && quitting && procCnt == 0 && Quitting(cause) in log
      ensures Steady(old(S()), S(), -1) && (quitting || useI == old(useI) || useI == -1)
      decreases Weight(procs), 5
    {
      hide CellsOk, SlotsOk, ChildrenOk, LogOk, QueuesOk, IdleOk, AllSteady, AllApart, Justified, NeedIs;
      hide Hopeless, FileTime, IsLine, QueueIs, CountValid, Stamp, Passes;
      ghost var s0 := S();
      QuitKeeps(S(), cause);
      quitting, log := true, log + [Quitting(cause)];
      ghost var s1 := S();
      assert s1 == QuitStep(s0, cause);
      SameCellsSteady(s0, s1, -1);
      var r := 0;
      while r != -1
        invariant Core(S(), -1, 0) && quitting && Steady(s0, S(), -1) && s1.log <= log
        invariant r == -1 ==> procCnt == 0
        invariant Weight(procs) <= Weight(old(procs))
        decreases r != -1, Weight(procs)
      {
        ghost var s2 := S();
        r := WaitForChild(true, -1);
        SteadyTrans(s0, s2, S(), -1);
      }
      assert s1.log[|s0.log|] == Quitting(cause);
    }

    /** Handle_result: a failure that is not ignored ends dmake, except while
        it is already quitting.  The result is that of line `k` of cell `c`. */
    method HandleResult(status: nat, ignore: bool, aborting: bool, ghost c: nat, ghost k: nat)
      requires Core(S(), -1, 0) && aborting == quitting
      requires status != 0 && !ignore && !aborting ==> Failed(u, log, c, k)
      modifies this
      ensures Core(S(), -1, 0)
      ensures quitting <==> old(quitting) || (status != 0 && !ignore)
      ensures quitting == old(quitting) ==> S() == old(S())
      ensures quitting != old(quitting) ==> procCnt == 0 && Steady(old(S()), S(), -1)
      decreases Weight(procs), 6
    {
      hide CellsOk, SlotsOk, ChildrenOk, LogOk, QueuesOk, IdleOk, AllSteady, AllApart, Failed, NeedIs;
      hide Hopeless, FileTime, IsLine, QueueIs, CountValid, Stamp, Passes;
      ExitCodes(status);
      if ExitCode(status) != 0 && !aborting && !ignore {
        Quit(Failure(c, k));
      }
    }

    // ---- Wait_for_child and _finished_child ----

    /** Wait_for_child: wait for any child, or, if the slot says so, until the
        line that slot `pqid` runs now is over; every child that finishes in
        the meantime is handled. */
    method WaitForChild(aborting: bool, pqid: int) returns (r: int)
      requires Core(S(), -1, 0) && aborting == quitting && (!quitting ==> Flow(S(), -1, -1))
      requires -1 <= pqid < |procs|
      modifies this
      ensures Core(S(), -1, 0) && (!quitting ==> Flow(S(), -1, -1))
      ensures Steady(old(S()), S(), -1) && (quitting || useI == old(useI) || useI == -1)
      ensures quitting && !old(quitting) ==> procCnt == 0
      ensures r == -1 ==> S() == old(S()) && (if pqid == -1 then procCnt == 0 else !old(procs[pqid].valid))
      ensures r == -1 || r == 0
      ensures r == 0 && quitting == old(quitting) ==> Weight(procs) < Weight(old(procs))
      ensures pqid >= 0 && old(procs[pqid].valid && procs[pqid].wfc) && quitting == old(quitting) ==>
                var c := old(procs[pqid].target); c < |u.g| && prog[c].finished > old(prog)[c].finished
      decreases Weight(procs), 2
    {
      hide CellsOk, SlotsOk, ChildrenOk, LogOk, QueuesOk, IdleOk, AllSteady, AllApart, NeedIs, Hopeless;
      hide FileTime, IsLine, QueueIs, CountValid, Stamp, Passes;
      ghost var s0 := S();
      SameCellsSteady(s0, s0, -1);
      var pid, waitchild := -1, false;
      if pqid == -1 {
        var any := AnyRunning();
        if !any {
          return -1;
        }
      } else {
        if !procs[pqid].valid {
          return -1;
        }
        RunningHasChild(s0, pqid);
        pid, waitchild := procs[pqid].pid, procs[pqid].wfc;
      }
      r := 0;
      var first := true;
      while first || waitchild
        invariant Core(S(), -1, 0) && aborting == quitting && (!quitting ==> Flow(S(), -1, -1))
        invariant Steady(s0, S(), -1) && quitting == old(quitting) && (quitting || useI == old(useI) || useI == -1)
        invariant if first then S() == s0 else Weight(procs) < Weight(old(procs))
        invariant waitchild ==> pqid >= 0 && procs[pqid].valid && procs[pqid].pid == pid
        invariant first || waitchild ==> exists w :: w in children
        invariant pqid >= 0 ==> s0.procs[pqid].valid && pid == s0.procs[pqid].pid
        invariant pqid >= 0 && s0.procs[pqid].wfc && !waitchild ==>
                    var c := s0.procs[pqid].target; c < |u.g| && prog[c].finished > s0.prog[c].finished
        decreases Weight(procs)
      {
        ghost var s1 := S();
        if pqid >= 0 {
          StillRunning(s0, s1, pqid);
          SteadyAt(s0, s1, s0.procs[pqid].target);
        }
        var wid, _ := HandleOne(aborting);
        first := false;
        SteadyTrans(s0, s1, S(), -1);
        if quitting && !aborting {
          return 0;
        }
        if waitchild {
          StillRunning(s0, S(), pqid);
          SteadyAt(s1, S(), s0.procs[pqid].target);
          if pid != wid {
            if !procs[pqid].valid || procs[pqid].pid != pid {
              waitchild := false;
            }
          } else {
            waitchild := false;
          }
          if waitchild {
            RunningHasChild(S(), pqid);
          }
        }
      }
    }

    /** Is there something to wait for? */
    method AnyRunning() returns (any: bool)
      requires Core(S(), -1, 0)
      ensures any <==> procCnt != 0
      ensures any ==> exists w :: w in children
    {
      hide CellsOk, SlotsOk, ChildrenOk, LogOk, CountValid;
      ValidBounds(procs);
      var i := 0;
      while i < |procs| && !procs[i].valid
        invariant 0 <= i <= |procs|
        invariant forall j :: 0 <= j < i ==> !procs[j].valid
      {
        i := i + 1;
      }
      any := i < |procs|;
      if any {
        RunningHasChild(S(), i);
      }
    }

    /** One round of the loop above: wait for a child and handle it. */
    method HandleOne(aborting: bool) returns (wid: int, ghost result: nat)
      requires Core(S(), -1, 0) && aborting == quitting && (!quitting ==> Flow(S(), -1, -1))
      requires exists w :: w in children
      modifies this
      ensures Core(S(), -1, 0) && (!quitting ==> Flow(S(), -1, -1))
      ensures Steady(old(S()), S(), -1) && (quitting || useI == old(useI) || useI == -1)
      ensures quitting && !old(quitting) ==> procCnt == 0
      ensures quitting == old(quitting) ==> Weight(procs) < Weight(old(procs))
      ensures exists i :: 0 <= i < |procs| && old(procs)[i].valid && old(procs)[i].pid == wid
      ensures forall i :: 0 <= i < |procs| && old(procs)[i].valid && old(procs)[i].pid == wid ==>
                var c := old(procs)[i].target;
                && c < |u.g| && prog[c].finished > old(prog)[c].finished
                && (exists stamp :: Done(c, old(prog)[c].finished, result, stamp) in log)
                && (result != 0 && !old(procs)[i].ignore ==> quitting)
      decreases Weight(procs), 1, 1
    {
      hide CellsOk, SlotsOk, ChildrenOk, LogOk, QueuesOk, IdleOk, AllSteady, AllApart, NeedIs, Hopeless;
      hide FileTime, IsLine, QueueIs, CountValid, Stamp, Passes;
      ghost var s1 := S();
      var status; ghost var k, stamp;
      wid, status, k, stamp := Wait();
      result := status;
      ReapKeepsCore(s1, k, stamp);
      if !quitting {
        ReapKeepsFlow(s1, k, stamp);
      }
      forall i | 0 <= i < |procs| && s1.procs[i].valid && s1.procs[i].pid == wid ensures i == k {
        SameProcess(s1, i, k);
      }
      ghost var s2 := S();
      ReapSteady(s1, k, stamp);
      FlagsKeepCore(s2, aborting, useI, k);
      abortFlg := aborting;
      ghost var s3 := S();
      SameCellsSteady(s2, s3, -1);
      FinishedChild(wid, status, k);
      ghost var s4 := S();
      FlagsKeepCore(s4, false, useI, -1);
      abortFlg := false;
      SameCellsSteady(s4, S(), -1);
      SteadyTrans(s1, s2, s3, -1);
      SteadyTrans(s1, s3, s4, -1);
      SteadyTrans(s1, s4, S(), -1);
    }

    /** _finished_child: slot `k` has finished.  Its next line, if there is one,
        is started; after the last line of a recipe the target is made. */
    method FinishedChild(cid: int, status: nat, ghost k: nat)
      requires Core(S(), k, 0) && k < |procs| && procs[k].valid && procs[k].target < |u.g|
      requires if cid < 1 then k == -cid && status == 0 else procs[k].pid == cid && cid !in slotOf && status == exit
      requires abortFlg == quitting && (!quitting ==> Flow(S(), -1, -1))
      modifies this
      ensures Core(S(), -1, 0) && (!quitting ==> Flow(S(), -1, -1))
      ensures Steady(old(S()), S(), -1) && (quitting || useI == old(useI) || useI == -1)
      ensures quitting && !old(quitting) ==> procCnt == 0
      ensures quitting == old(quitting) ==> Weight(procs) < Weight(old(procs))
      ensures old(prog[procs[k].target].finished) < prog[old(procs[k].target)].finished
      ensures Collected(old(S()), k, status, S())
      decreases Weight(procs), 1, 0
    {
      hide CellsOk, SlotsOk, ChildrenOk, LogOk, QueuesOk, IdleOk, AllSteady, AllApart, NeedIs, Hopeless;
      hide FileTime, IsLine, QueueIs, CountValid, Stamp, Passes;
      var i := FindProcess(cid, k);
      ghost var s0 := S();
      FinishGivesEnded(s0, i, status);
      if !quitting {
        FinishGivesVacated(s0, i, status);
      }
      Vacate(i, status);
      ghost var s1 := S();
      if procs[i].recipe != [] && !abortFlg {
        NextLine(i, status);
      } else {
        NoMoreLines(i, status);
      }
      FinishSteady(s0, i, status, S());
      assert s1.log <= log;
    }

    /** The slot is free for another line. */
    method Vacate(i: nat, ghost status: nat)
      requires i < |procs| && procs[i].valid && procs[i].target < |prog| == |disk|
      modifies this`procs, this`procCnt, this`prog, this`log
      ensures S() == FinishStep(old(S()), i, status)
      ensures Weight(procs) == Weight(old(procs)) - 1
    {
      UpdateSlot(procs, i, procs[i].(valid := false));
      ghost var cp := procs[i].target;
      procs := procs[i := procs[i].(valid := false)];
      procCnt := procCnt - 1;
      log := log + [Done(cp, prog[cp].finished, status, disk[cp])];
      prog := prog[cp := prog[cp].(finished := prog[cp].finished + 1, owner := -1,
                                   results := prog[cp].results + [Result(status, disk[cp])])];
    }

    /** The slot of a finished process or internal command. */
    method FindProcess(cid: int, ghost k: nat) returns (i: nat)
      requires Core(S(), k, 0) && k < |procs| && procs[k].valid
      requires if cid < 1 then k == -cid else procs[k].pid == cid && cid !in slotOf
      ensures i == k
    {
      if cid < 1 {
        return -cid;
      }
      i := 0;
      while !(procs[i].valid && procs[i].pid == cid)
        invariant i <= k
        decreases k - i
      {
        i := i + 1;
      }
      assert SlotOk(S(), i, k);
    }

    /** _finished_child when a line is queued: handle the result of the line
        that ended, then start the next one in the same slot. */
    method NextLine(i: nat, status: nat)
      requires Vacated(S(), i, false) && EndedWith(S(), i, status) && procs[i].recipe != [] && !quitting
      modifies this
      ensures Core(S(), -1, 0) && (!quitting ==> Flow(S(), -1, -1))
      ensures Steady(old(S()), S(), old(procs[i].target)) && (quitting || useI == old(useI) || useI == -1)
      ensures prog[old(procs[i].target)].submitted == old(prog[procs[i].target].submitted)
      ensures quitting ==> procCnt == 0
      ensures !quitting ==> Weight(procs) <= Weight(old(procs))
      ensures Continued(old(S()), i, status, S())
      decreases Weight(procs), 10
    {
      hide CellsOk, SlotsOk, ChildrenOk, LogOk, QueuesOk, IdleOk, AllSteady, AllApart, Failed, Startable;
      hide Continued, StartedIn, NeedIs, Hopeless, FileTime, IsLine, QueueIs, CountValid, Stamp, Passes;
      ghost var s0 := S();
      var cp := procs[i].target;
      if status != 0 && !procs[i].ignore {
        EndedIsFailed(s0, i, status);
      }
      HandleResult(status, procs[i].ignore, false, cp, prog[cp].finished - 1);
      if quitting {
        FailedOrQuit(s0, i, status, S());
        SteadyWiden(s0, S(), cp);
        SteadyAt(s0, S(), cp);
        return;
      }
      var rp := PopLine(i, status);
      ghost var s1 := S();
      var _ := Runargv(cp, rp);
      ghost var s2 := S();
      SteadyTrans(s0, s1, s2, cp);
      if quitting {
        FailedOrQuit(s0, i, status, S());
        return;
      }
      ClearUse(cp);
      SteadyTrans(s0, s2, S(), cp);
      ContinuesWith(s0, i, status, rp, s1, s2, S());
    }

    /** _use_i has served its purpose.  When every queue is in use again, wait for
        some child. */
    method ClearUse(ghost cp: nat)
      requires Core(S(), -1, 0) && Flow(S(), -1, -1) && !quitting && cp < |u.g|
      modifies this
      ensures Core(S(), -1, 0) && (!quitting ==> Flow(S(), -1, -1) && useI == -1)
      ensures Steady(old(S()), S(), cp) && prog[cp].submitted == old(prog)[cp].submitted
      ensures if quitting then procCnt == 0 else Weight(procs) <= Weight(old(procs))
      decreases Weight(procs), 3
    {
      hide CellsOk, SlotsOk, ChildrenOk, LogOk, QueuesOk, IdleOk, AllSteady, AllApart, NeedIs, Hopeless;
      hide FileTime, IsLine, QueueIs, CountValid, Stamp, Passes;
      ghost var s2 := S();
      FlagsKeepCore(s2, false, -1, -1);
      UseKeepsFlow(s2, -1);
      useI := -1;
      ghost var s3 := S();
      SameCellsSteady(s2, s3, cp);
      if procCnt == |procs| {
        var _ := WaitForChild(false, -1);
        SteadyAt(s3, S(), cp);
        SteadyWiden(s3, S(), cp);
        SteadyTrans(s2, s3, S(), cp);
      }
    }

    /** The result has passed: take the next line and aim runargv at the slot. */
    method PopLine(i: nat, ghost status: nat) returns (rp: Rcp)
      requires Vacated(S(), i, false) && EndedWith(S(), i, status) && procs[i].recipe != []
      requires procs[i].ignore || status == 0
      modifies this`procs, this`useI, this`log
      ensures Core(S(), -1, 0) && rp == old(procs)[i].recipe[0] && Startable(S(), old(procs[i].target), rp, 0) && useI == i
      ensures Steady(old(S()), S(), old(procs[i].target))
      ensures prog == old(prog) && log == old(log) + [Passed(old(procs)[i].target, old(prog[procs[i].target].finished) - 1)]
      ensures Weight(procs) == Weight(old(procs)) - 1
    {
      hide CellsOk, SlotsOk, ChildrenOk, LogOk, QueuesOk, IdleOk, AllSteady, AllApart, Startable, NeedIs;
      hide Hopeless, FileTime, IsLine, QueueIs, CountValid, Stamp, Passes;
      ghost var s0 := S();
      var cp := procs[i].target;
      PassKeeps(s0, i, status);
      PopGivesStartable(PassStep(s0, cp), i);
      rp := procs[i].recipe[0];
      UpdateSlot(procs, i, procs[i].(recipe := procs[i].recipe[1..]));
      log := log + [Passed(cp, prog[cp].finished - 1)];
      procs := procs[i := procs[i].(recipe := procs[i].recipe[1..])];
      useI := i;
      assert S() == PopStep(PassStep(s0, cp), i);
      SameCellsSteady(s0, S(), cp);
    }

    /** _finished_child when the queue is empty, or is given up because dmake
        is quitting. */
    method NoMoreLines(i: nat, status: nat)
      requires EndedWith(S(), i, status) && abortFlg == quitting
      requires !quitting ==> Vacated(S(), i, false) && procs[i].recipe == []
      modifies this
      ensures Core(S(), -1, 0) && (!quitting ==> Flow(S(), -1, -1))
      ensures Steady(old(S()), S(), old(procs[i].target)) && (quitting || useI == old(useI) || useI == -1)
      ensures prog[old(procs[i].target)].submitted == old(prog[procs[i].target].submitted)
      ensures quitting && !old(quitting) ==> procCnt == 0
      ensures quitting == old(quitting) ==> Weight(procs) <= Weight(old(procs))
      ensures old(quitting) ==> quitting
      ensures !old(quitting) ==> Continued(old(S()), i, status, S())
      decreases Weight(procs), 10
    {
      hide CellsOk, SlotsOk, ChildrenOk, LogOk, QueuesOk, IdleOk, AllSteady, AllApart, Failed, NeedIs, Hopeless;
      hide Continued, Stamp, QueueIs, CountValid, FileTime;
      ghost var s0 := S();
      var cp, aborting := procs[i].target, abortFlg;
      if aborting {
        DropQueue(i);
      } else if status != 0 && !procs[i].ignore {
        EndedIsFailed(s0, i, status);
      }
      HandleResult(status, procs[i].ignore, aborting, cp, prog[cp].finished - 1);
      if quitting && !aborting {
        FailedOrQuit(s0, i, status, S());
        SteadyWiden(s0, S(), cp);
        SteadyAt(s0, S(), cp);
        return;
      }
      if !quitting {
        PassKeeps(s0, i, status);
        log := log + [Passed(cp, prog[cp].finished - 1)];
        assert S() == PassStep(s0, cp);
      }
      ghost var s1 := S();
      SameCellsSteady(s0, s1, cp);
      AfterLine(i);
      SteadyTrans(s0, s1, S(), cp);
      if !quitting {
        EndsWith(s0, i, status, s1, S());
      }
    }

    /** The target is made if that was the last line of its recipe. */
    method AfterLine(i: nat)
      requires Ended(S(), i) && (!quitting ==> Vacated(S(), i, true) && procs[i].recipe == [])
      modifies this`cells, this`prog, this`log, this`useI
      ensures Core(S(), -1, 0) && (!quitting ==> Flow(S(), -1, -1))
      ensures Steady(old(S()), S(), procs[i].target) && useI == old(useI)
      ensures prog[procs[i].target].submitted == old(prog)[procs[i].target].submitted
      ensures procs[i].last ==> cells[procs[i].target].made
    {
      hide CellsOk, SlotsOk, ChildrenOk, LogOk, QueuesOk, IdleOk, AllSteady, AllApart, NeedIs, Hopeless, Stamp, QueueIs, FileTime;
      ghost var s1 := S();
      if procs[i].last {
        FinishTarget(i);
      } else {
        SameCellsSteady(s1, s1, procs[i].target);
        if !quitting {
          NothingWaits(s1, i);
        }
      }
    }

    /** Give up the lines that wait in a slot. */
    method DropQueue(i: nat)
      requires Ended(S(), i)
      modifies this`procs
      ensures Ended(S(), i) && S() == QueueStep(old(S()), i, [])
      ensures Weight(procs) <= Weight(old(procs))
    {
      hide SlotsOk, ChildrenOk, LogOk, CellsOk;
      UpdateSlot(procs, i, procs[i].(recipe := []));
      QueueKeepsCore(S(), i, []);
      procs := procs[i := procs[i].(recipe := [])];
    }

    /** The last line of a recipe is over: its target is made. */
    method FinishTarget(i: nat)
      requires Ended(S(), i) && procs[i].last
      requires !quitting ==> Vacated(S(), i, true) && procs[i].recipe == []
      modifies this`cells, this`prog, this`log, this`useI
      ensures Core(S(), -1, 0) && (!quitting ==> Flow(S(), -1, -1))
      ensures Steady(old(S()), S(), old(procs[i].target)) && useI == old(useI)
      ensures exists clock ::
                && IsReading(clock)
                && S() == MadeStep(old(S()), procs[i].target, old(cells)[procs[i].target].time, cells[procs[i].target].time, clock)
                && Stamp(u.g[procs[i].target], old(log) + clock, old(cells)[procs[i].target].time,
                         disk[procs[i].target], cells[procs[i].target].time)
    {
      hide CellsOk, SlotsOk, ChildrenOk, LogOk, QueuesOk, IdleOk, AllSteady, AllApart, RecipeOver, NeedIs;
      hide Hopeless, Stamp, FileTime, IsLine, QueueIs, CountValid, Passes;
      ghost var s1 := S();
      var cp := procs[i].target;
      EndedIsOver(s1, i);
      var myUseI := useI;
      FlagsKeepCore(s1, abortFlg, -1, -1);
      SameNeeds(s1, s1.(useI := -1), cp);
      useI := -1;
      var warned; ghost var clock;
      warned, clock := UpdateTimeStamp(cp);
      FlagsKeepCore(S(), abortFlg, myUseI, -1);
      useI := myUseI;
      assert S() == MadeStep(s1, cp, s1.cells[cp].time, cells[cp].time, clock);
      OneCellSteady(s1, S(), cp);
      if !quitting {
        MadeAfterLastLine(s1, i, s1.cells[cp].time, cells[cp].time, clock);
      }
    }

    // ---- runargv and _add_child ----

    /** _running: the slot that runs a line of `cp`, or -1. */
    method Running(cp: nat) returns (i: int)
      requires Core(S(), -1, 0) && cp < |u.g|
      ensures i == prog[cp].owner
    {
      OwnerIsUnique(S(), cp);
      i := 0;
      while i < |procs| && !(procs[i].valid && procs[i].target == cp)
        invariant 0 <= i <= |procs|
        invariant prog[cp].owner >= 0 ==> i <= prog[cp].owner
      {
        i := i + 1;
      }
      assert ProgOk(S(), cp);
      if i == |procs| {
        i := -1;
      }
    }

    /** runargv: hand one recipe line to the scheduler.  When _use_i is set the
        call comes from _finished_child and the line takes the vacated slot;
        otherwise it comes from the graph walk, and the line is started in a
        free slot or queued behind the running line of its target.  The result
        is 0 when the line is over and 1 when it is running or queued. */
    method Runargv(target: nat, r: Rcp) returns (rv: int)
      requires Core(S(), -1, 0) && !quitting
      requires useI >= 0 ==> Startable(S(), target, r, 0)
      requires useI == -1 ==> Flow(S(), -1, -1) && target < |u.g| && Schedulable(S(), target) &&
                              IsLine(u, r, target, prog[target].submitted)
      modifies this
      ensures Core(S(), -1, 0) && (!quitting ==> Flow(S(), -1, -1))
      ensures Steady(old(S()), S(), target) && (quitting || useI == old(useI) || useI == -1)
      ensures quitting ==> procCnt == 0
      ensures !quitting ==> Weight(procs) <= Weight(old(procs)) + 1
      ensures old(useI) >= 0 ==> prog[target].submitted == old(prog)[target].submitted
      ensures old(useI) == -1 && !quitting ==> prog[target].submitted == old(prog)[target].submitted + 1
      ensures rv == 0 || rv == 1
      ensures !quitting && rv == 0 ==>
                old(prog)[target].owner == -1 && prog[target].finished > old(prog)[target].started
      ensures !quitting && r.wfc && old(prog)[target].owner == -1 ==> rv == 0
      ensures old(useI) >= 0 && !quitting ==> StartedIn(log, target, old(prog)[target].started, r, old(useI))
      ensures !quitting && old(prog)[target].owner == -1 ==>
                exists slot: nat :: StartedIn(log, target, old(prog)[target].started, r, slot)
      ensures old(prog)[target].owner != -1 ==>
                var i := old(prog)[target].owner;
                && 0 <= i < |old(procs)| && prog == SubmitStep(old(S()), target).prog
                && procs == old(procs)[i := old(procs)[i].(recipe := old(procs)[i].recipe + [r.(wfc := r.wfc || old(procs)[i].wfc)])]
      decreases Weight(procs) + 1, 4
    {
      hide CellsOk, SlotsOk, ChildrenOk, LogOk, QueuesOk, IdleOk, AllSteady, AllApart, IsLine, NeedIs;
      hide Hopeless, FileTime, QueueIs, CountValid, Stamp, Passes;
      ghost var s0 := S();
      SameCellsSteady(s0, s0, -1);
      var q := Running(target);
      if q != -1 {
        OwnerIsUnique(s0, target);
        AttachCmd(target, r, q);
        return 1;
      }
      AwaitSlot(target, r);
      if quitting {
        return 0;
      }
      ghost var s2 := S();
      hide Startable;
      rv := StartLine(target, r);
      SteadyTrans(s0, s2, S(), target);
    }

    /** While every queue is in use runargv waits; a call from _finished_child
        finds its slot free.  Then the line counts as submitted. */
    method AwaitSlot(target: nat, ghost r: Rcp)
      requires Core(S(), -1, 0) && !quitting && target < |u.g| && prog[target].owner == -1
      requires useI >= 0 ==> Startable(S(), target, r, 0)
      requires useI == -1 ==> Flow(S(), -1, -1) && Schedulable(S(), target) && IsLine(u, r, target, prog[target].submitted)
      modifies this
      ensures Core(S(), -1, 0) && Steady(old(S()), S(), target)
      ensures if quitting then procCnt == 0
              else useI == old(useI) && Startable(S(), target, r, 0) && prog[target].started == old(prog)[target].started
                   && prog[target].submitted == old(prog)[target].submitted + (if useI == -1 then 1 else 0)
      ensures old(useI) >= 0 ==> S() == old(S())
      ensures !quitting ==> Weight(procs) <= Weight(old(procs))
      decreases Weight(procs) + 1, 3, 3
    {
      hide CellsOk, SlotsOk, ChildrenOk, LogOk, QueuesOk, IdleOk, AllSteady, AllApart, IsLine, NeedIs;
      hide Hopeless, FileTime, QueueIs, CountValid, Stamp, Passes;
      ghost var s0 := S();
      SameCellsSteady(s0, s0, target);
      if useI == -1 {
        WaitWhileFull();
        ghost var s1 := S();
        SteadyWiden(s0, s1, target);
        if quitting {
          return;
        }
        SchedulableSteady(s0, s1, target);
        ValidBounds(procs);
        SubmitGivesStartable(s1, target, r);
        hide Startable;
        prog := prog[target := prog[target].(submitted := prog[target].submitted + 1)];
        assert S() == SubmitStep(s1, target);
        OneCellSteady(s1, S(), target);
        SteadyTrans(s0, s1, S(), target);
      }
    }

    method WaitWhileFull()
      requires Core(S(), -1, 0) && Flow(S(), -1, -1) && !quitting && useI == -1
      modifies this
      ensures Core(S(), -1, 0) && Steady(old(S()), S(), -1)
      ensures if quitting then procCnt == 0 else procCnt != |procs| && useI == -1 && Flow(S(), -1, -1)
      ensures !quitting ==> Weight(procs) <= Weight(old(procs))
      decreases Weight(procs) + 1, 2
    {
      hide CellsOk, SlotsOk, ChildrenOk, LogOk, QueuesOk, IdleOk, AllSteady, AllApart, NeedIs, Hopeless;
      hide FileTime, IsLine, QueueIs, CountValid, Stamp, Passes;
      ghost var s0 := S();
      SameCellsSteady(s0, s0, -1);
      while procCnt == |procs|
        invariant Core(S(), -1, 0) && Steady(s0, S(), -1) && !quitting && useI == -1 && Flow(S(), -1, -1)
        invariant Weight(procs) <= Weight(old(procs))
        decreases Weight(procs)
      {
        ghost var s1 := S();
        var _ := WaitForChild(false, -1);
        SteadyTrans(s0, s1, S(), -1);
        if quitting {
          return;
        }
      }
    }

    /** The part of runargv that executes the line: internal commands are over
        at once, and for the others a process is forked. */
    method StartLine(target: nat, r: Rcp) returns (rv: int)
      requires Startable(S(), target, r, 0) && !quitting
      modifies this
      ensures Core(S(), -1, 0) && (!quitting ==> Flow(S(), -1, -1))
      ensures Steady(old(S()), S(), target) && (quitting || useI == old(useI) || useI == -1)
      ensures quitting ==> procCnt == 0
      ensures !quitting ==> Weight(procs) <= Weight(old(procs)) + 1
      ensures prog[target].submitted == old(prog)[target].submitted
      ensures rv == 0 || rv == 1
      ensures !quitting && rv == 0 ==> prog[target].finished > old(prog)[target].started
      ensures r.wfc ==> rv == 0
      ensures exists slot: nat :: StartedIn(log, target, old(prog)[target].started, r, slot) && (old(useI) >= 0 ==> slot == old(useI))
      decreases Weight(procs) + 1, 3, 1
    {
      hide CellsOk, SlotsOk, ChildrenOk, LogOk, QueuesOk, IdleOk, AllSteady, AllApart, IsLine, NeedIs;
      hide Hopeless, FileTime, QueueIs, CountValid, Stamp, Passes;
      ghost var s0 := S();
      if IsInternal(r.line) {
        WaitingIsAnotherMatter(s0, target, r);
        var i: int := AddChild(-1, target, r.(wfc := false));
        ghost var s1 := S();
        FinishedChild(-i, 0, i);
        SteadyAt(s1, S(), target);
        SteadyWiden(s1, S(), target);
        SteadyTrans(s0, s1, S(), target);
        assert s1.log <= log;
        assert StartedIn(log, target, s0.prog[target].started, r, i);
        return 0;
      }
      var pid := Fork(r.line);
      ForkKeepsStartable(s0, target, r, pid);
      ghost var s1 := S();
      SameCellsSteady(s0, s1, target);
      var i := AddChild(pid, target, r);
      SteadyTrans(s0, s1, S(), target);
      assert StartedIn(log, target, s0.prog[target].started, r, i);
      return if r.wfc then 0 else 1;
    }

    /** _add_child: enter a process (or, with pid -1, an internal command) into
        the slot given by _use_i or into a free one, and wait for it if asked. */
    method AddChild(pid: int, target: nat, r: Rcp) returns (i: nat)
      requires pid == -1 || pid > 0
      requires Startable(S(), target, r, if pid > 0 then pid else 0) && !quitting && (pid > 0 <==> !IsInternal(r.line))
      modifies this
      ensures Steady(old(S()), S(), target) && (quitting || useI == old(useI) || useI == -1)
      ensures prog[target].submitted == old(prog)[target].submitted
      ensures i < |procs| && !old(procs)[i].valid && (old(useI) >= 0 ==> i == old(useI))
      ensures old(useI) == -1 ==> forall j :: 0 <= j < i ==> old(procs)[j].valid
      ensures StartedIn(log, target, old(prog)[target].started, r, i)
      ensures pid == -1 ==>
                && Core(S(), i, 0) && Flow(S(), -1, -1) && !quitting && abortFlg == old(abortFlg)
                && procs[i].valid && procs[i].target == target
                && prog[target].finished == old(prog)[target].started
                && Weight(procs) == Weight(old(procs)) + 1
      ensures pid > 0 ==> Core(S(), -1, 0) && (!quitting ==> Flow(S(), -1, -1))
      ensures quitting ==> procCnt == 0
      ensures !quitting ==> Weight(procs) <= Weight(old(procs)) + 1
      ensures !quitting && pid > 0 && r.wfc ==> prog[target].finished > old(prog)[target].started
      decreases Weight(procs) + 1, 3, 0
    {
      hide CellsOk, SlotsOk, ChildrenOk, LogOk, QueuesOk, IdleOk, AllSteady, AllApart, IsLine, NeedIs;
      hide Hopeless, FileTime, QueueIs, CountValid, Stamp, Passes;
      ghost var s0 := S();
      i := FindFree();
      StartKeepsCore(s0, i, pid, target, r);
      StartKeepsFlow(s0, i, pid, target, r);
      StartSteady(s0, i, pid, target, r);
      IdleCounts(s0, target, if pid > 0 then pid else 0);
      Enter(i, pid, target, r);
      ghost var s1 := S();
      assert s1.log[|s0.log|] == Start(target, s0.prog[target].started, r.line, pid > 0, i);
      if pid != -1 && r.wfc {
        var _ := WaitForChild(false, i);
        SteadyAt(s1, S(), target);
        SteadyWiden(s1, S(), target);
        SteadyTrans(s0, s1, S(), target);
        assert s1.log <= log;
      }
    }

    /** Fill in the slot of the new line. */
    method Enter(i: nat, pid: int, target: nat, r: Rcp)
      requires i < |procs| && !procs[i].valid && target < |prog|
      modifies this`procs, this`procCnt, this`slotOf, this`prog, this`log
      ensures S() == StartStep(old(S()), i, pid, target, r)
      ensures Weight(procs) == Weight(old(procs)) + 1
    {
      hide Weight, CountValid;
      ghost var t := StartStep(S(), i, pid, target, r);
      var slot := Slot(true, pid, target, r.line.ignore, r.last, r.wfc, procs[i].recipe);
      UpdateSlot(procs, i, slot);
      procs := procs[i := slot];
      procCnt := procCnt + 1;
      slotOf := if pid > 0 then slotOf[pid := i] else slotOf;
      log := log + [Start(target, prog[target].started, r.line, pid > 0, i)];
      prog := prog[target := prog[target].(started := prog[target].started + 1, owner := i, slots := prog[target].slots + [i])];
      assert S() == t;
    }

    /** The slot for a new line: the vacated one, or the first free one. */
    method FindFree() returns (i: nat)
      requires Shape(S()) && procCnt < |procs| && (useI >= 0 ==> !procs[useI].valid)
      ensures i < |procs| && !procs[i].valid && (useI >= 0 ==> i == useI)
      ensures useI == -1 ==> forall j :: 0 <= j < i ==> procs[j].valid
    {
      if useI != -1 {
        return useI;
      }
      ValidBounds(procs);
      i := 0;
      while i < |procs| && procs[i].valid
        invariant i <= |procs|
        invariant forall j :: 0 <= j < i ==> procs[j].valid
      {
        i := i + 1;
      }
    }

    /** _attach_cmd: queue the line behind the running line of its target; it
        inherits the wait attribute of the slot. */
    method AttachCmd(target: nat, r: Rcp, i: nat)
      requires Core(S(), -1, 0) && Flow(S(), -1, -1) && target < |u.g| && Schedulable(S(), target)
      requires IsLine(u, r, target, prog[target].submitted)
      requires i == prog[target].owner && i < |procs|
      modifies this`procs, this`prog
      ensures Core(S(), -1, 0) && Flow(S(), -1, -1)
      ensures procs == old(procs)[i := old(procs)[i].(recipe := old(procs)[i].recipe + [r.(wfc := r.wfc || old(procs)[i].wfc)])]
      ensures prog == old(prog)[target := old(prog)[target].(submitted := old(prog)[target].submitted + 1)]
      ensures Steady(old(S()), S(), target)
      ensures Weight(procs) == Weight(old(procs)) + 1
    {
      hide CellsOk, SlotsOk, ChildrenOk, LogOk, QueuesOk, IdleOk, AllSteady, AllApart, NeedIs, Hopeless, FileTime, IsLine, CountValid;
      ghost var s0 := S();
      OwnerIsUnique(s0, target);
      var rp := r.(wfc := r.wfc || procs[i].wfc);
      LineWithWfc(u, r, target, prog[target].submitted);
      AttachKeeps(s0, i, target, rp);
      AttachSteady(s0, i, target, rp);
      UpdateSlot(procs, i, procs[i].(recipe := procs[i].recipe + [rp]));
      procs := procs[i := procs[i].(recipe := procs[i].recipe + [rp])];
      prog := prog[target := prog[target].(submitted := prog[target].submitted + 1)];
      assert S() == AttachStep(s0, i, target, rp);
    }
  }
}
