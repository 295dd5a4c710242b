/** The state of a parallel build and its atomic steps.

    The operating system is a set of children that have not been waited for.
    fork() adds any process id that is not in use, wait() takes away any child,
    and both the exit status and the effect of a recipe line on its target's
    file are arbitrary.  Every statement therefore holds for every order in
    which children can finish. */
module BuildState {
  import opened Dag
  import opened BuildLog

  /** A queued recipe line (struct prp). */
  datatype Rcp = Rcp(line: Line, wfc: bool, last: bool)

  /** A process queue (struct pr): the line that runs now and those waiting. */
  datatype Slot = Slot(valid: bool, pid: int, target: nat, ignore: bool, last: bool, wfc: bool, recipe: seq<Rcp>)

  const FREE_SLOT := Slot(false, 0, 0, false, false, false, [])

  /** F_VISITED, F_MADE, F_STAT, F_RULES and ce_time of a cell. */
  datatype Flags = Flags(visited: bool, made: bool, stated: bool, rules: bool, time: int)

  /** How a line ended: its wait() status, and the modification time of the
      target's file then. */
  datatype Result = Result(status: nat, stamp: nat)

  /** What has happened to a recipe: lines handed to runargv, lines started,
      lines whose process has been waited for, the process queue that runs a
      line of it now (-1 when there is none), the time of the newest prerequisite
      (0 while it is not known), the queues in which the lines were started, and
      how they ended. */
  datatype Progress = Progress(submitted: nat, started: nat, finished: nat, owner: int,
                               need: int, slots: seq<nat>, results: seq<Result>)

  const NO_PROGRESS := Progress(0, 0, 0, -1, 0, [], [])

  datatype State = State(
    u: Setup,
    procs: seq<Slot>,           // _procs
    procCnt: int,               // _proc_cnt
    useI: int,                  // _use_i
    abortFlg: bool,             // _abort_flg
    quitting: bool,             // _quitting
    waitForCompletion: bool,    // Wait_for_completion
    children: map<int, Line>,   // processes not yet waited for, and what they run
    slotOf: map<int, int>,      // the slot that each child belongs to
    cells: seq<Flags>,
    prog: seq<Progress>,
    disk: seq<nat>,             // modification times of the files, 0 for no file
    log: seq<Event>)

  // ---- Counting ----

  function SlotWeight(s: Slot): nat {
    (if s.valid then 1 else 0) + |s.recipe|
  }

  /** Lines that are running or queued. */
  ghost function Weight(s: seq<Slot>): nat {
    if s == [] then 0 else Weight(s[..|s| - 1]) + SlotWeight(s[|s| - 1])
  }

  ghost function CountValid(s: seq<Slot>): nat {
    if s == [] then 0 else CountValid(s[..|s| - 1]) + (if s[|s| - 1].valid then 1 else 0)
  }

  lemma {:induction false} UpdateSlot(s: seq<Slot>, i: nat, x: Slot)
    requires i < |s|
    ensures Weight(s[i := x]) == Weight(s) - SlotWeight(s[i]) + SlotWeight(x)
    ensures CountValid(s[i := x]) == CountValid(s) - (if s[i].valid then 1 else 0) + (if x.valid then 1 else 0)
  {
    var n := |s| - 1;
    if i == n {
      assert s[i := x][..n] == s[..n];
    } else {
      UpdateSlot(s[..n], i, x);
      assert s[i := x][..n] == s[..n][i := x];
    }
  }

  lemma {:induction false} ValidBounds(s: seq<Slot>)
    ensures CountValid(s) <= |s| && CountValid(s) <= Weight(s)
    ensures CountValid(s) == |s| <==> forall i :: 0 <= i < |s| ==> s[i].valid
    ensures CountValid(s) == 0 <==> forall i :: 0 <= i < |s| ==> !s[i].valid
  {
    if s != [] {
      var t := s[..|s| - 1];
      ValidBounds(t);
      assert forall i :: 0 <= i < |s| - 1 ==> s[i] == t[i];
    }
  }

  // ---- Queues ----

  /** Entry `r` of a queue is line `k` of the recipe of cell `c`. */
  ghost predicate IsLine(u: Setup, r: Rcp, c: nat, k: int) {
    IsLineOf(u, c, k) && r.line == Command(u, c, k) && r.last == (k == |u.g[c].recipe| - 1)
  }

  /** The queue holds the lines of cell `c` from line `k` on. */
  ghost predicate QueueIs(u: Setup, q: seq<Rcp>, c: nat, k: int) {
    forall j :: 0 <= j < |q| ==> IsLine(u, q[j], c, k + j)
  }

  // ---- Invariants ----

  ghost predicate Shape(s: State) {
    && Sensible(s.u) && |s.procs| == s.u.maxProc
    && |s.cells| == |s.prog| == |s.disk| == |s.u.g|
    && -1 <= s.useI < |s.procs|
    && s.procCnt == CountValid(s.procs)
  }

  /** The counters of a cell agree with each other and with the slot that runs
      it. */
  ghost predicate ProgOk(s: State, c: nat)
    requires c < |s.u.g| == |s.prog| == |s.cells|
  {
    var p := s.prog[c];
    && -1 <= p.owner < |s.procs|
    && p.finished <= p.started <= p.submitted <= |s.u.g[c].recipe|
    && |p.slots| == p.started && |p.results| == p.finished
    && (p.owner == -1 ==> p.started == p.finished)
    && (p.owner >= 0 ==> s.procs[p.owner].valid && s.procs[p.owner].target == c &&
                         p.started == p.finished + 1 && p.slots[p.finished] == p.owner && !s.cells[c].made)
    && (s.cells[c].made && p.started > 0 ==> p.finished == |s.u.g[c].recipe|)
    && (s.cells[c].visited ==> s.cells[c].made || 0 < p.submitted == |s.u.g[c].recipe|)
  }

  /** The slot runs line `k` of its target, and unless its process has been
      reaped that process is a child and runs just that line. */
  ghost predicate RunsLine(s: State, i: nat, k: nat, reaped: int)
    requires i < |s.procs|
  {
    var t := s.procs[i];
    && IsLineOf(s.u, t.target, k)
    && (t.last <==> k + 1 == |s.u.g[t.target].recipe|) && t.ignore == s.u.g[t.target].recipe[k].ignore
    && (i != reaped ==> t.pid > 0 && t.pid in s.slotOf && s.slotOf[t.pid] == i
                        && t.pid in s.children && s.children[t.pid] == Command(s.u, t.target, k))
  }

  /** A valid slot runs the current line of the cell that it belongs to. */
  ghost predicate SlotOk(s: State, i: nat, reaped: int)
    requires i < |s.procs| && |s.u.g| == |s.prog|
  {
    var t := s.procs[i];
    t.valid ==>
      && t.target < |s.u.g| && s.prog[t.target].owner == i && s.prog[t.target].started > 0
      && RunsLine(s, i, s.prog[t.target].started - 1, reaped)
  }

  ghost predicate ChildrenOk(s: State, reaped: int, pending: int) {
    && (forall p :: p in s.slotOf ==>
          0 <= s.slotOf[p] < |s.procs| && s.slotOf[p] != reaped &&
          s.procs[s.slotOf[p]].valid && s.procs[s.slotOf[p]].pid == p)
    && s.children.Keys == (if pending > 0 then s.slotOf.Keys + {pending} else s.slotOf.Keys)
    && (pending > 0 ==> pending !in s.slotOf)
  }

  /** The prerequisites are made, and `need` is the time of the newest, or 1. */
  ghost predicate NeedIs(s: State, c: nat, need: int)
    requires Shape(s) && c < |s.u.g|
  {
    && need >= 1
    && (forall p :: p in s.u.g[c].prq ==> s.cells[p].made && s.cells[p].time <= need)
    && (need == 1 || exists p :: p in s.u.g[c].prq && s.cells[p].time == need)
  }

  /** A target is only scheduled when its prerequisites are made and it is out
      of date; until it is made it has the least acceptable time stamp. */
  ghost predicate OrderOk(s: State, c: nat)
    requires Shape(s) && c < |s.u.g|
  {
    var f, p := s.cells[c], s.prog[c];
    && (f.visited || f.made || p.submitted > 0 ==> p.need > 0)
    && (p.need != 0 ==> NeedIs(s, c, p.need))
    && (p.submitted > 0 ==> FileTime(s.u, c) < p.need && !Hopeless(s.u, c))
    && (p.submitted > 0 && !f.made ==> f.time == p.need)
  }

  /** The files of targets of which no line is running. */
  ghost predicate DiskOk(s: State, c: nat)
    requires Shape(s) && c < |s.u.g|
  {
    var p := s.prog[c];
    p.owner == -1 ==> s.disk[c] == if p.results == [] then s.u.disk[c] else p.results[|p.results| - 1].stamp
  }

  // ---- The log ----

  /** The log has exactly the starts that the counters tell of ... */
  ghost predicate LogStarts(s: State)
    requires |s.u.g| == |s.prog|
  {
    && (forall e :: e in s.log && e.Start? ==>
          e.cell < |s.u.g| && e.line < |s.prog[e.cell].slots| && e.slot == s.prog[e.cell].slots[e.line])
    && (forall c: nat, k: nat :: c < |s.u.g| && k < |s.prog[c].slots| ==> Started(s.log, c, k))
  }

  /** ... exactly the ends ... */
  ghost predicate LogDones(s: State)
    requires |s.u.g| == |s.prog|
  {
    && (forall e :: e in s.log && e.Done? ==>
          e.cell < |s.u.g| && e.line < |s.prog[e.cell].results| && s.prog[e.cell].results[e.line] == Result(e.status, e.stamp))
    && (forall c: nat, k: nat :: c < |s.u.g| && k < |s.prog[c].results| ==> IsDone(s.log, c, k))
  }

  /** ... and exactly the made cells. */
  ghost predicate LogMades(s: State)
    requires |s.u.g| == |s.prog| == |s.cells|
  {
    && (forall e :: e in s.log && e.Made? ==>
          e.cell < |s.u.g| && s.cells[e.cell].made && e.need == s.prog[e.cell].need && e.time == s.cells[e.cell].time)
    && (forall c: nat :: c < |s.u.g| && s.cells[c].made ==> IsMade(s.log, c))
  }

  ghost predicate LogOk(s: State)
    requires Shape(s)
  {
    && Lawful(s.u, s.log) && Load(s.log) == s.procCnt && (HasQuit(s.log) <==> s.quitting)
    && LogStarts(s) && LogDones(s) && LogMades(s)
  }

  /** Slot accounting.  `reaped` is a valid slot whose process has been waited
      for (or is an internal command), `pending` a process that has no slot
      yet. */
  ghost predicate Core(s: State, reaped: int, pending: int) {
    Shape(s) && CellsOk(s) && SlotsOk(s, reaped) && ChildrenOk(s, reaped, pending) && LogOk(s)
  }

  ghost predicate CellsOk(s: State)
    requires Shape(s)
  {
    && (forall c: nat :: c < |s.u.g| ==> ProgOk(s, c))
    && (forall c: nat :: c < |s.u.g| ==> OrderOk(s, c))
    && (forall c: nat :: c < |s.u.g| ==> DiskOk(s, c))
  }

  ghost predicate SlotsOk(s: State, reaped: int)
    requires |s.u.g| == |s.prog|
  {
    forall i: nat :: i < |s.procs| ==> SlotOk(s, i, reaped)
  }

  /** Conservation: what was submitted for a cell and has not been started is
      exactly what its queue holds, in order.  `hand` is a cell one of whose
      lines is on its way into slot `mid`. */
  ghost predicate Flow(s: State, mid: int, hand: int)
    requires |s.u.g| == |s.prog| == |s.cells|
  {
    !s.quitting && !s.abortFlg && QueuesOk(s, mid) && IdleOk(s, hand)
  }

  ghost predicate QueuesOk(s: State, mid: int)
    requires |s.u.g| == |s.prog|
  {
    && (forall i: nat :: i < |s.procs| && i != mid && !s.procs[i].valid ==> s.procs[i].recipe == [])
    && (forall i: nat :: i < |s.procs| && s.procs[i].valid ==> Conserved(s, i))
  }

  ghost predicate IdleOk(s: State, hand: int)
    requires |s.u.g| == |s.prog| == |s.cells|
  {
    forall c: nat :: c < |s.u.g| && c != hand ==> Idle(s, c)
  }

  ghost predicate Conserved(s: State, i: nat)
    requires i < |s.procs| && |s.u.g| == |s.prog|
  {
    var c, q := s.procs[i].target, s.procs[i].recipe;
    c < |s.u.g| && s.prog[c].submitted == s.prog[c].started + |q| && QueueIs(s.u, q, c, s.prog[c].started)
  }

  ghost predicate Idle(s: State, c: nat)
    requires c < |s.u.g| == |s.prog| == |s.cells|
  {
    var p := s.prog[c];
    && (p.owner == -1 ==> p.submitted == p.started)
    && (p.owner == -1 && 0 < p.finished == |s.u.g[c].recipe| ==> s.cells[c].made)
    && (forall k: nat :: Passed(c, k) in s.log <==> k < p.finished)
  }

  /** Everything is in place to start `r`, the next line of `c`. */
  ghost predicate Startable(s: State, c: nat, r: Rcp, pending: int) {
    && Core(s, -1, pending) && Flow(s, s.useI, c)
    && c < |s.u.g| && s.prog[c].owner == -1 && !s.cells[c].made
    && s.procCnt < |s.procs| && InTurn(s.u, s.log, c)
    && (forall k: nat :: Passed(c, k) in s.log <==> k < s.prog[c].finished)
    && IsLine(s.u, r, c, s.prog[c].started)
    && (pending > 0 ==> pending in s.children && s.children[pending] == r.line)
    && (s.useI >= 0 ==> !s.procs[s.useI].valid && s.procs[s.useI].target == c)
    && var q := if s.useI >= 0 then s.procs[s.useI].recipe else [];
       s.prog[c].submitted == s.prog[c].started + 1 + |q| && QueueIs(s.u, q, c, s.prog[c].started + 1)
  }

  // ---- Steps ----

  /** _add_child fills slot `i`: a line of `c` starts. */
  ghost function StartStep(s: State, i: nat, pid: int, c: nat, r: Rcp): State
    requires i < |s.procs| && c < |s.prog|
  {
    var p := s.prog[c];
    s.(procs := s.procs[i := Slot(true, pid, c, r.line.ignore, r.last, r.wfc, s.procs[i].recipe)],
       procCnt := s.procCnt + 1,
       slotOf := if pid > 0 then s.slotOf[pid := i] else s.slotOf,
       prog := s.prog[c := p.(started := p.started + 1, owner := i, slots := p.slots + [i])],
       log := s.log + [Start(c, p.started, r.line, pid > 0, i)])
  }

  /** Slot `i` is the one that _add_child picks for the next line of `c`; a
      process is used exactly when the line is not an internal command. */
  ghost predicate StartsIn(s: State, i: nat, pid: int, c: nat, r: Rcp) {
    && Startable(s, c, r, if pid > 0 then pid else 0)
    && i < |s.procs| && !s.procs[i].valid && (s.useI >= 0 ==> i == s.useI)
    && (pid > 0 <==> !IsInternal(r.line))
  }

  lemma StartIsAllowed(s: State, i: nat, pid: int, c: nat, r: Rcp)
    requires StartsIn(s, i, pid, c, r)
    ensures MayStart(s.u, s.log, Start(c, s.prog[c].started, r.line, pid > 0, i))
  {
    hide Lawful, Load, ChildrenOk, QueuesOk, IdleOk;
    var p := s.prog[c];
    assert ProgOk(s, c) && OrderOk(s, c);
    FreeSlot(s, i);
    MadeAreMade(s, c);
    NeedIsNeeds(s, c, p.need);
    assert !IsMade(s.log, c) && !Started(s.log, c, p.started);
    if p.need > 1 {
      var e :| e in s.log && e.Made? && e.cell in s.u.g[c].prq && e.time == p.need;
      assert FileTime(s.u, c) < e.time;
    }
  }

  /** No line runs in a slot that is not valid. */
  lemma FreeSlot(s: State, i: nat)
    requires Shape(s) && CellsOk(s) && LogStarts(s) && LogDones(s) && i < |s.procs| && !s.procs[i].valid
    ensures SlotFree(s.log, i)
  {
    forall e | e in s.log && e.Start? && e.slot == i ensures IsDone(s.log, e.cell, e.line) {
      assert ProgOk(s, e.cell);
    }
  }

  lemma MadeAreMade(s: State, c: nat)
    requires Shape(s) && LogMades(s) && c < |s.u.g|
    ensures (forall p :: p in s.u.g[c].prq ==> s.cells[p].made) ==> PrqMade(s.u, s.log, c)
  {
    ClosedAt(s.u.g, c);
    assert forall p :: p in s.u.g[c].prq ==> p < |s.u.g|;
  }

  lemma NeedIsNeeds(s: State, c: nat, need: int)
    requires Shape(s) && LogMades(s) && c < |s.u.g|
    ensures NeedIs(s, c, need) ==> Needs(s.u, s.log, c, need)
  {
    if NeedIs(s, c, need) && need != 1 {
      var p :| p in s.u.g[c].prq && s.cells[p].time == need;
      assert IsMade(s.log, p);
    }
  }

  lemma StartKeepsLog(s: State, i: nat, pid: int, c: nat, r: Rcp)
    requires StartsIn(s, i, pid, c, r) && Shape(StartStep(s, i, pid, c, r))
    ensures LogOk(StartStep(s, i, pid, c, r))
  {
    StartIsAllowed(s, i, pid, c, r);
    assert ProgOk(s, c);
    hide Lawful, Load, MayStart, ChildrenOk, QueuesOk, IdleOk, SlotsOk, CellsOk;
    var e := Start(c, s.prog[c].started, r.line, pid > 0, i);
    StartsGrow(s, i, pid, c, r, e);
    Append(s.u, s.log, e);
  }

  lemma StartsGrow(s: State, i: nat, pid: int, c: nat, r: Rcp, e: Event)
    requires Shape(s) && LogStarts(s) && i < |s.procs| && c < |s.u.g| && ProgOk(s, c)
    requires e == Start(c, s.prog[c].started, r.line, pid > 0, i)
    ensures LogStarts(StartStep(s, i, pid, c, r))
    ensures LogDones(s) ==> LogDones(StartStep(s, i, pid, c, r))
    ensures LogMades(s) ==> LogMades(StartStep(s, i, pid, c, r))
    ensures HasQuit(s.log + [e]) <==> HasQuit(s.log)
  {
    var t := StartStep(s, i, pid, c, r);
    assert e in t.log;
    Longer(s.log, [e]);
  }

  lemma StartKeepsShape(s: State, i: nat, pid: int, c: nat, r: Rcp)
    requires StartsIn(s, i, pid, c, r)
    ensures var t := StartStep(s, i, pid, c, r);
            Shape(t) && ChildrenOk(t, if pid > 0 then -1 else i, 0)
  {
    hide LogOk, CellsOk, SlotsOk, QueuesOk, IdleOk;
    UpdateSlot(s.procs, i, Slot(true, pid, c, r.line.ignore, r.last, r.wfc, s.procs[i].recipe));
  }

  lemma StartKeepsSlots(s: State, i: nat, pid: int, c: nat, r: Rcp)
    requires StartsIn(s, i, pid, c, r)
    ensures SlotsOk(StartStep(s, i, pid, c, r), if pid > 0 then -1 else i)
  {
    hide LogOk, QueuesOk, IdleOk;
    var t, reaped := StartStep(s, i, pid, c, r), if pid > 0 then -1 else i;
    assert ProgOk(s, c);
    forall j: nat | j < |s.procs| ensures SlotOk(t, j, reaped) {
      assert SlotOk(s, j, -1);
    }
  }

  lemma StartKeepsCells(s: State, i: nat, pid: int, c: nat, r: Rcp)
    requires StartsIn(s, i, pid, c, r)
    ensures var t := StartStep(s, i, pid, c, r); Shape(t) && CellsOk(t)
  {
    hide LogOk, QueuesOk, IdleOk, SlotsOk;
    var t := StartStep(s, i, pid, c, r);
    StartKeepsShape(s, i, pid, c, r);
    hide ChildrenOk, CountValid;
    forall d: nat | d < |s.u.g| ensures ProgOk(t, d) && OrderOk(t, d) && DiskOk(t, d) {
      assert ProgOk(s, d) && OrderOk(s, d) && DiskOk(s, d);
    }
  }

  lemma StartKeepsCore(s: State, i: nat, pid: int, c: nat, r: Rcp)
    requires StartsIn(s, i, pid, c, r)
    ensures Core(StartStep(s, i, pid, c, r), if pid > 0 then -1 else i, 0)
  {
    hide LogOk, CellsOk, SlotsOk, ChildrenOk, StartStep, StartsIn;
    StartKeepsShape(s, i, pid, c, r);
    StartKeepsLog(s, i, pid, c, r);
    StartKeepsSlots(s, i, pid, c, r);
    StartKeepsCells(s, i, pid, c, r);
  }

  lemma StartKeepsFlow(s: State, i: nat, pid: int, c: nat, r: Rcp)
    requires StartsIn(s, i, pid, c, r)
    ensures Flow(StartStep(s, i, pid, c, r), -1, -1)
  {
    hide LogOk, ChildrenOk;
    var t := StartStep(s, i, pid, c, r);
    assert ProgOk(s, c);
    forall j: nat | j < |t.procs| && t.procs[j].valid ensures Conserved(t, j) {
      assert j != i ==> SlotOk(s, j, -1) && Conserved(s, j);
    }
    forall d: nat | d < |t.u.g| ensures Idle(t, d) {
      assert d != c ==> Idle(s, d);
    }
  }

  /** wait() returns the child of slot `i`, whose line may have changed the
      file of its target. */
  ghost function ReapStep(s: State, i: nat, stamp: nat): State
    requires i < |s.procs| && s.procs[i].target < |s.disk|
  {
    s.(children := s.children - {s.procs[i].pid},
       slotOf := s.slotOf - {s.procs[i].pid},
       disk := s.disk[s.procs[i].target := stamp])
  }

  lemma ReapKeepsCore(s: State, i: nat, stamp: nat)
    requires Core(s, -1, 0) && i < |s.procs| && s.procs[i].valid && s.procs[i].target < |s.u.g|
    ensures Core(ReapStep(s, i, stamp), i, 0)
  {
    hide Lawful, Load;
    var t := ReapStep(s, i, stamp);
    assert SlotOk(s, i, -1) && ProgOk(s, s.procs[i].target);
    forall c: nat | c < |s.u.g| ensures OrderOk(t, c) && ProgOk(t, c) && DiskOk(t, c) {
      assert OrderOk(s, c) && ProgOk(s, c) && DiskOk(s, c);
    }
    forall j: nat | j < |s.procs| ensures SlotOk(t, j, i) {
      assert SlotOk(s, j, -1);
    }
  }

  lemma ReapKeepsFlow(s: State, i: nat, stamp: nat)
    requires Shape(s) && i < |s.procs| && s.procs[i].target < |s.u.g|
    requires Flow(s, -1, -1)
    ensures Flow(ReapStep(s, i, stamp), -1, -1)
  {
    var t := ReapStep(s, i, stamp);
    forall c: nat | c < |s.u.g| ensures Idle(t, c) {
      assert Idle(s, c);
    }
    forall j: nat | j < |t.procs| && t.procs[j].valid ensures Conserved(t, j) {
      assert Conserved(s, j);
    }
  }

  /** _finished_child clears pr_valid: the line of slot `i` is over. */
  ghost function FinishStep(s: State, i: nat, status: nat): State
    requires i < |s.procs| && s.procs[i].target < |s.prog| == |s.disk|
  {
    var c := s.procs[i].target;
    var p := s.prog[c];
    s.(procs := s.procs[i := s.procs[i].(valid := false)],
       procCnt := s.procCnt - 1,
       prog := s.prog[c := p.(finished := p.finished + 1, owner := -1, results := p.results + [Result(status, s.disk[c])])],
       log := s.log + [Done(c, p.finished, status, s.disk[c])])
  }

  lemma FinishKeepsCore(s: State, i: nat, status: nat)
    requires Core(s, i, 0) && i < |s.procs| && s.procs[i].valid && s.procs[i].target < |s.u.g|
    ensures Core(FinishStep(s, i, status), -1, 0)
  {
    hide CellsOk, SlotsOk, LogOk, ChildrenOk, FinishStep;
    FinishKeepsSlots(s, i, status);
    FinishKeepsLog(s, i, status);
    FinishKeepsCells(s, i, status);
  }

  lemma FinishKeepsSlots(s: State, i: nat, status: nat)
    requires Core(s, i, 0) && i < |s.procs| && s.procs[i].valid && s.procs[i].target < |s.u.g|
    ensures var t := FinishStep(s, i, status); Shape(t) && ChildrenOk(t, -1, 0) && SlotsOk(t, -1)
  {
    hide LogOk, CellsOk;
    var t := FinishStep(s, i, status);
    UpdateSlot(s.procs, i, t.procs[i]);
    forall j: nat | j < |s.procs| ensures SlotOk(t, j, -1) {
      assert SlotOk(s, j, i) && SlotOk(s, i, i);
    }
  }

  lemma FinishKeepsLog(s: State, i: nat, status: nat)
    requires Core(s, i, 0) && i < |s.procs| && s.procs[i].valid && s.procs[i].target < |s.u.g|
    requires Shape(FinishStep(s, i, status))
    ensures LogOk(FinishStep(s, i, status))
  {
    var c := s.procs[i].target;
    assert SlotOk(s, i, i) && ProgOk(s, c);
    var e := Done(c, s.prog[c].finished, status, s.disk[c]);
    assert Started(s.log, c, s.prog[c].finished) && !IsDone(s.log, c, s.prog[c].finished);
    hide Lawful, Load, CellsOk, SlotsOk, ChildrenOk;
    DonesGrow(s, i, status, e);
    Append(s.u, s.log, e);
  }

  lemma DonesGrow(s: State, i: nat, status: nat, e: Event)
    requires Shape(s) && LogDones(s) && i < |s.procs| && s.procs[i].target < |s.u.g| && ProgOk(s, s.procs[i].target)
    requires e == Done(s.procs[i].target, s.prog[s.procs[i].target].finished, status, s.disk[s.procs[i].target])
    ensures LogDones(FinishStep(s, i, status))
    ensures LogStarts(s) ==> LogStarts(FinishStep(s, i, status))
    ensures LogMades(s) ==> LogMades(FinishStep(s, i, status))
    ensures HasQuit(s.log + [e]) <==> HasQuit(s.log)
  {
    assert e in FinishStep(s, i, status).log;
    Longer(s.log, [e]);
  }

  lemma FinishKeepsCells(s: State, i: nat, status: nat)
    requires Core(s, i, 0) && i < |s.procs| && s.procs[i].valid && s.procs[i].target < |s.u.g|
    ensures var t := FinishStep(s, i, status); Shape(t) && CellsOk(t)
  {
    hide LogOk;
    FinishKeepsSlots(s, i, status);
    assert SlotOk(s, i, i);
    var t := FinishStep(s, i, status);
    hide CountValid, ChildrenOk, SlotsOk;
    forall d: nat | d < |s.u.g| ensures ProgOk(t, d) && OrderOk(t, d) && DiskOk(t, d) {
      assert OrderOk(s, d) && ProgOk(s, d) && DiskOk(s, d);
    }
  }

  lemma FinishKeepsFlow(s: State, i: nat, status: nat)
    requires Core(s, i, 0) && i < |s.procs| && s.procs[i].valid && s.procs[i].target < |s.u.g|
    requires Flow(s, -1, -1)
    ensures Flow(FinishStep(s, i, status), i, s.procs[i].target)
  {
    hide LogOk, ChildrenOk;
    var c := s.procs[i].target;
    var t := FinishStep(s, i, status);
    assert SlotOk(s, i, i) && ProgOk(s, c);
    forall j: nat | j < |t.procs| && t.procs[j].valid ensures Conserved(t, j) {
      assert SlotOk(s, j, i) && Conserved(s, j);
    }
    forall d: nat | d < |t.u.g| && d != c ensures Idle(t, d) {
      assert Idle(s, d);
    }
  }

  /** Slot `i` has just been vacated: the line that ran in it is over. */
  ghost predicate Ended(s: State, i: nat) {
    && Core(s, -1, 0) && i < |s.procs| && s.procs[i].target < |s.u.g|
    && var c := s.procs[i].target;
       var p := s.prog[c];
       && !s.procs[i].valid && p.owner == -1 && !s.cells[c].made && s.procCnt < |s.procs|
       && 0 < p.finished == p.started && IsLineOf(s.u, c, p.finished - 1)
       && (s.procs[i].last <==> p.started == |s.u.g[c].recipe|)
       && s.procs[i].ignore == s.u.g[c].recipe[p.finished - 1].ignore
  }

  /** As Ended, and the lines queued behind it are still there. */
  ghost predicate Vacated(s: State, i: nat, passed: bool) {
    && Ended(s, i)
    && Flow(s, i, s.procs[i].target)
    && var c := s.procs[i].target;
       var p := s.prog[c];
       && p.submitted == p.started + |s.procs[i].recipe|
       && QueueIs(s.u, s.procs[i].recipe, c, p.started)
       && (forall k: nat :: Passed(c, k) in s.log <==> k < if passed then p.finished else p.finished - 1)
  }

  /** The line that ended in slot `i` had this wait() status. */
  ghost predicate EndedWith(s: State, i: nat, status: nat) {
    && Ended(s, i)
    && var c := s.procs[i].target;
       var p := s.prog[c];
       && |p.results| == p.finished && p.results[p.finished - 1].status == status
       && Done(c, p.finished - 1, status, s.disk[c]) in s.log
  }

  lemma FinishGivesEnded(s: State, i: nat, status: nat)
    requires Core(s, i, 0) && i < |s.procs| && s.procs[i].valid && s.procs[i].target < |s.u.g|
    ensures EndedWith(FinishStep(s, i, status), i, status)
  {
    FinishKeepsCore(s, i, status);
    assert SlotOk(s, i, i) && ProgOk(s, s.procs[i].target);
    ValidBounds(s.procs);
    hide LogOk, ChildrenOk, SlotsOk, CellsOk;
    assert FinishStep(s, i, status).log[|s.log|] == Done(s.procs[i].target, s.prog[s.procs[i].target].finished, status, s.disk[s.procs[i].target]);
  }

  lemma FinishGivesVacated(s: State, i: nat, status: nat)
    requires Core(s, i, 0) && i < |s.procs| && s.procs[i].valid && s.procs[i].target < |s.u.g|
    requires Flow(s, -1, -1)
    ensures Vacated(FinishStep(s, i, status), i, false)
  {
    FinishGivesEnded(s, i, status);
    FinishKeepsFlow(s, i, status);
    assert SlotOk(s, i, i) && ProgOk(s, s.procs[i].target) && Conserved(s, i) && Idle(s, s.procs[i].target);
    hide LogOk, ChildrenOk, SlotsOk, CellsOk, QueuesOk, IdleOk;
  }

  /** The line that ended in slot `i` failed. */
  lemma EndedIsFailed(s: State, i: nat, status: nat)
    requires EndedWith(s, i, status) && status != 0 && !s.procs[i].ignore
    ensures var c := s.procs[i].target; Failed(s.u, s.log, c, s.prog[c].finished - 1)
  {
  }

  /** The result of the last line of `c` was success, or is ignored. */
  ghost function PassStep(s: State, c: nat): State
    requires c < |s.prog| && s.prog[c].finished > 0
  {
    s.(log := s.log + [Passed(c, s.prog[c].finished - 1)])
  }

  lemma PassKeepsLog(s: State, c: nat)
    requires Shape(s) && c < |s.u.g| && LogOk(s) && !s.quitting && s.prog[c].finished > 0
    requires Succeeded(s.u, s.log, c, s.prog[c].finished - 1)
    ensures LogOk(PassStep(s, c))
  {
    hide Lawful, Load;
    Append(s.u, s.log, Passed(c, s.prog[c].finished - 1));
    LogsAlike(s, PassStep(s, c), [Passed(c, s.prog[c].finished - 1)]);
  }

  /** Events of other kinds do not matter. */
  lemma LogsAlike(s: State, t: State, more: seq<Event>)
    requires Shape(s) && Shape(t) && LogStarts(s) && LogDones(s) && LogMades(s) && t.log == s.log + more
    requires t.u == s.u && t.prog == s.prog && t.cells == s.cells
    requires forall e :: e in more ==> !e.Start? && !e.Done? && !e.Made?
    ensures LogStarts(t) && LogDones(t) && LogMades(t)
    ensures (forall e :: e in more ==> !e.Quitting?) ==> (HasQuit(t.log) <==> HasQuit(s.log))
  {
    Longer(s.log, more);
  }

  lemma PassKeeps(s: State, i: nat, status: nat)
    requires Vacated(s, i, false) && EndedWith(s, i, status) && (s.procs[i].ignore || status == 0)
    ensures Vacated(PassStep(s, s.procs[i].target), i, true)
  {
    hide Lawful, Load;
    var c := s.procs[i].target;
    var t := PassStep(s, c);
    assert Succeeded(s.u, s.log, c, s.prog[c].finished - 1);
    PassKeepsLog(s, c);
    LogOnly(s, t, -1);
    hide LogOk, ChildrenOk, SlotsOk, CellsOk;
    forall j: nat | j < |t.procs| && t.procs[j].valid ensures Conserved(t, j) {
      assert Conserved(s, j);
    }
    forall d: nat | d < |t.u.g| && d != c ensures Idle(t, d) {
      assert Idle(s, d);
    }
  }

  /** The slot and cell invariants do not depend on the log, the flags of the
      scheduler or the queues behind the running lines. */
  lemma LogOnly(s: State, t: State, reaped: int)
    requires Shape(s) && CellsOk(s) && SlotsOk(s, reaped) && ChildrenOk(s, reaped, 0)
    requires t == s.(log := t.log, quitting := t.quitting, abortFlg := t.abortFlg, useI := t.useI,
                    waitForCompletion := t.waitForCompletion)
    requires -1 <= t.useI < |t.procs|
    ensures Shape(t) && CellsOk(t) && SlotsOk(t, reaped) && ChildrenOk(t, reaped, 0)
  {
    forall d: nat | d < |t.u.g| ensures ProgOk(t, d) && OrderOk(t, d) && DiskOk(t, d) {
      assert ProgOk(s, d) && OrderOk(s, d) && DiskOk(s, d);
    }
    forall j: nat | j < |t.procs| ensures SlotOk(t, j, reaped) {
      assert SlotOk(s, j, reaped);
    }
  }

  /** Changing a queue disturbs nothing in Core. */
  ghost function QueueStep(s: State, i: nat, q: seq<Rcp>): State
    requires i < |s.procs|
  {
    s.(procs := s.procs[i := s.procs[i].(recipe := q)])
  }

  lemma QueueKeepsCore(s: State, i: nat, q: seq<Rcp>)
    requires Core(s, -1, 0) && i < |s.procs|
    ensures Core(QueueStep(s, i, q), -1, 0)
  {
    hide Lawful, Load;
    var t := QueueStep(s, i, q);
    UpdateSlot(s.procs, i, t.procs[i]);
    forall d: nat | d < |t.u.g| ensures ProgOk(t, d) && OrderOk(t, d) && DiskOk(t, d) {
      assert ProgOk(s, d) && OrderOk(s, d) && DiskOk(s, d);
    }
    forall j: nat | j < |t.procs| ensures SlotOk(t, j, -1) {
      assert SlotOk(s, j, -1);
    }
  }

  /** _finished_child takes the next line from the queue of slot `i`. */
  ghost function PopStep(s: State, i: nat): State
    requires i < |s.procs| && s.procs[i].recipe != []
  {
    QueueStep(s, i, s.procs[i].recipe[1..]).(useI := i)
  }

  /** It is the next line of its target, and goes into the vacated slot. */
  lemma PopGivesStartable(s: State, i: nat)
    requires Vacated(s, i, true) && s.procs[i].recipe != []
    ensures Core(PopStep(s, i), -1, 0) && Startable(PopStep(s, i), s.procs[i].target, s.procs[i].recipe[0], 0)
  {
    var c, q := s.procs[i].target, s.procs[i].recipe;
    var u := QueueStep(s, i, q[1..]);
    var t := PopStep(s, i);
    QueueKeepsCore(s, i, q[1..]);
    LogOnly(u, t, -1);
    assert IsLine(s.u, q[0], c, s.prog[c].started);
    forall j | 0 <= j < |q[1..]| ensures IsLine(s.u, q[1..][j], c, s.prog[c].started + 1 + j) {
      assert IsLine(s.u, q[j + 1], c, s.prog[c].started + (j + 1));
    }
    assert ProgOk(s, c) && Started(s.log, c, 0);
    StartedInTurn(s.u, s.log, c, 0);
    hide CellsOk, SlotsOk, ChildrenOk, IdleOk, QueuesOk, Lawful, Load, Command, InTurn;
    PopKeepsFlow(s, i);
  }

  lemma PopKeepsFlow(s: State, i: nat)
    requires Vacated(s, i, true) && s.procs[i].recipe != []
    ensures Flow(PopStep(s, i), i, s.procs[i].target)
  {
    hide LogOk, ChildrenOk, SlotsOk, CellsOk;
    var t := PopStep(s, i);
    forall j: nat | j < |t.procs| && t.procs[j].valid ensures Conserved(t, j) {
      assert Conserved(s, j);
    }
    forall d: nat | d < |t.u.g| && d != s.procs[i].target ensures Idle(t, d) {
      assert Idle(s, d);
    }
  }

  /** Nothing was queued and the recipe has more lines to be submitted. */
  lemma NothingWaits(s: State, i: nat)
    requires Vacated(s, i, true) && s.procs[i].recipe == [] && !s.procs[i].last
    ensures Flow(s, -1, -1)
  {
    hide LogOk, ChildrenOk, SlotsOk, CellsOk;
    forall d: nat | d < |s.u.g| ensures Idle(s, d) {
      assert d != s.procs[i].target ==> Idle(s, d);
    }
  }

  // ---- Made ----

  /** What Do_time() has put into the log: at most one reading. */
  ghost predicate IsReading(clock: seq<Event>) {
    clock == [] || (|clock| == 1 && clock[0].Clock? && clock[0].time > 0)
  }

  /** F_MADE is set, perhaps after a look at the clock. */
  ghost function MadeStep(s: State, c: nat, need: int, time: int, clock: seq<Event>): State
    requires c < |s.cells| && c < |s.prog|
  {
    s.(cells := s.cells[c := s.cells[c].(made := true, time := time)],
       prog := s.prog[c := s.prog[c].(need := need)],
       log := s.log + clock + [Made(c, need, time)])
  }

  /** `c` may be marked as made with this time stamp. */
  ghost predicate Makeable(s: State, c: nat, need: int, time: int, clock: seq<Event>) {
    && Core(s, -1, 0) && c < |s.u.g| && s.prog[c].owner == -1 && !s.cells[c].made
    && IsReading(clock) && NeedIs(s, c, need) && !Hopeless(s.u, c) && InTurn(s.u, s.log, c)
    && (s.prog[c].submitted > 0 ==> s.prog[c].need == need && s.prog[c].finished == |s.u.g[c].recipe|)
    && if FileTime(s.u, c) >= need then time == FileTime(s.u, c)
       else
         && (s.u.g[c].recipe != [] ==> s.prog[c].finished > 0 && RecipeOver(s.u, s.log, c))
         && Stamp(s.u.g[c], s.log + clock, need, s.disk[c], time)
  }

  lemma ReadingIsLawful(s: State, clock: seq<Event>)
    requires Shape(s) && LogOk(s) && IsReading(clock)
    ensures LogOk(s.(log := s.log + clock)) && HasQuit(s.log + clock) == HasQuit(s.log)
    ensures forall e :: e in s.log ==> e in s.log + clock
    ensures forall e :: e in s.log + clock && !e.Clock? ==> e in s.log
  {
    if clock != [] {
      Append(s.u, s.log, clock[0]);
      assert [clock[0]] == clock;
    } else {
      assert s.log + clock == s.log;
    }
    hide Lawful, Load;
    LogsAlike(s, s.(log := s.log + clock), clock);
  }

  lemma MadeIsAllowed(s: State, c: nat, need: int, time: int, clock: seq<Event>)
    requires Makeable(s, c, need, time, clock)
    ensures MayMake(s.u, s.log + clock, c, need, time)
  {
    hide Lawful, Load, SlotsOk, ChildrenOk, Stamp, Hopeless, FileTime, NeedIs, Needs, PrqMade, FileIs, CountValid, InTurn;
    assert ProgOk(s, c) && DiskOk(s, c) && forall p :: p in s.u.g[c].prq ==> s.cells[p].made by {
      PrqOf(s, c, need);
    }
    ReadingIsLawful(s, clock);
    var t := s.(log := s.log + clock);
    MadeAreMade(t, c);
    NeedIsNeeds(t, c, need);
    SameNeeds(s, t, c);
    Longer(s.log, clock);
    if FileTime(s.u, c) < need {
      FileAfterRecipe(s, c);
    }
    forall k | Started(t.log, c, k) ensures IsDone(t.log, c, k) {
    }
    FileStays(s.u, s.log, clock, c, s.disk[c]);
    InTurnStays(s.u, s.log, s.log + clock, c);
  }

  lemma PrqOf(s: State, c: nat, need: int)
    requires Shape(s) && c < |s.u.g| && NeedIs(s, c, need)
    ensures forall p :: p in s.u.g[c].prq ==> p < |s.u.g| && s.cells[p].made
  {
    ClosedAt(s.u.g, c);
  }

  lemma SameNeeds(s: State, t: State, c: nat)
    requires Shape(s) && Shape(t) && t.u == s.u && t.cells == s.cells && c < |s.u.g|
    ensures forall need :: NeedIs(s, c, need) ==> NeedIs(t, c, need)
  {
  }

  lemma FileStays(u: Setup, log: seq<Event>, more: seq<Event>, c: nat, file: nat)
    requires c < |u.g| == |u.disk|
    ensures FileIs(u, log, c, file) ==> FileIs(u, log + more, c, file)
  {
    assert forall e :: e in log ==> e in log + more;
  }

  lemma FileAfterRecipe(s: State, c: nat)
    requires Shape(s) && LogDones(s) && c < |s.u.g| && ProgOk(s, c) && DiskOk(s, c) && s.prog[c].owner == -1
    requires s.prog[c].finished == |s.u.g[c].recipe|
    ensures FileIs(s.u, s.log, c, s.disk[c])
  {
    if s.u.g[c].recipe != [] {
      assert IsDone(s.log, c, s.prog[c].finished - 1);
    }
  }

  lemma MadeKeepsLog(s: State, c: nat, need: int, time: int, clock: seq<Event>)
    requires Makeable(s, c, need, time, clock)
    ensures Shape(MadeStep(s, c, need, time, clock)) && LogOk(MadeStep(s, c, need, time, clock))
  {
    hide MayMake, SlotsOk, ChildrenOk, Stamp, Hopeless, FileTime, Lawful, Load, NeedIs, RecipeOver, CountValid;
    hide LogStarts, LogDones, LogMades, HasQuit, CellsOk;
    MadeIsAllowed(s, c, need, time, clock);
    ReadingIsLawful(s, clock);
    Append(s.u, s.log + clock, Made(c, need, time));
    MadesGrow(s.(log := s.log + clock), MadeStep(s, c, need, time, clock), c, need, time);
  }

  lemma MadesGrow(s: State, t: State, c: nat, need: int, time: int)
    requires Shape(s) && LogStarts(s) && LogDones(s) && LogMades(s) && c < |s.u.g| && !s.cells[c].made
    requires t == MadeStep(s, c, need, time, [])
    ensures LogStarts(t) && LogDones(t) && LogMades(t) && (HasQuit(t.log) <==> HasQuit(s.log))
  {
    assert s.log + [] == s.log;
    assert Made(c, need, time) in t.log;
    Longer(s.log, [Made(c, need, time)]);
  }

  lemma MadeKeepsCells(s: State, c: nat, need: int, time: int, clock: seq<Event>)
    requires Makeable(s, c, need, time, clock)
    ensures Shape(MadeStep(s, c, need, time, clock)) && CellsOk(MadeStep(s, c, need, time, clock))
  {
    hide LogOk, SlotsOk, ChildrenOk, Stamp, Hopeless;
    var t := MadeStep(s, c, need, time, clock);
    forall d: nat | d < |t.u.g| ensures ProgOk(t, d) && DiskOk(t, d) {
      assert ProgOk(s, d) && DiskOk(s, d);
    }
    forall d: nat | d < |t.u.g| ensures OrderOk(t, d) {
      assert OrderOk(s, d);
      NeedKept(s, t, c, d);
    }
  }

  /** A cell that is not made is nobody's made prerequisite. */
  lemma NeedKept(s: State, t: State, c: nat, d: nat)
    requires Shape(s) && Shape(t) && t.u == s.u && c < |s.u.g| && d < |s.u.g| && !s.cells[c].made
    requires forall b: nat :: b < |s.u.g| && b != c ==> t.cells[b] == s.cells[b]
    ensures forall need :: NeedIs(s, d, need) ==> NeedIs(t, d, need)
  {
    ClosedAt(s.u.g, d);
    forall need | NeedIs(s, d, need) ensures NeedIs(t, d, need) {
      assert c !in s.u.g[d].prq;
      assert forall p :: p in s.u.g[d].prq ==> p < |s.u.g|;
    }
  }

  lemma MadeKeepsCore(s: State, c: nat, need: int, time: int, clock: seq<Event>)
    requires Makeable(s, c, need, time, clock)
    ensures Core(MadeStep(s, c, need, time, clock), -1, 0)
  {
    hide LogOk, CellsOk, SlotsOk, ChildrenOk, Stamp, Hopeless, NeedIs, RecipeOver, FileTime, CountValid;
    MadeKeepsLog(s, c, need, time, clock);
    MadeKeepsCells(s, c, need, time, clock);
    MadeKeepsSlots(s, c, need, time, clock);
  }

  lemma MadeKeepsSlots(s: State, c: nat, need: int, time: int, clock: seq<Event>)
    requires Shape(s) && c < |s.u.g| && SlotsOk(s, -1) && ChildrenOk(s, -1, 0)
    ensures SlotsOk(MadeStep(s, c, need, time, clock), -1) && ChildrenOk(MadeStep(s, c, need, time, clock), -1, 0)
  {
    var t := MadeStep(s, c, need, time, clock);
    forall j: nat | j < |t.procs| ensures SlotOk(t, j, -1) {
      assert SlotOk(s, j, -1);
    }
  }

  lemma MadeKeepsFlow(s: State, c: nat, need: int, time: int, clock: seq<Event>)
    requires Shape(s) && c < |s.cells| == |s.u.g| == |s.prog| && Flow(s, -1, -1) && IsReading(clock)
    ensures Flow(MadeStep(s, c, need, time, clock), -1, -1)
  {
    var t := MadeStep(s, c, need, time, clock);
    forall j: nat | j < |t.procs| && t.procs[j].valid ensures Conserved(t, j) {
      assert Conserved(s, j);
    }
    forall d: nat | d < |t.u.g| ensures Idle(t, d) {
      assert Idle(s, d);
    }
  }

  lemma MadeAfterLastLine(s: State, i: nat, need: int, time: int, clock: seq<Event>)
    requires Vacated(s, i, true) && s.procs[i].recipe == [] && IsReading(clock)
    ensures Flow(MadeStep(s, s.procs[i].target, need, time, clock), -1, -1)
  {
    hide LogOk, ChildrenOk, SlotsOk, CellsOk;
    var t := MadeStep(s, s.procs[i].target, need, time, clock);
    forall j: nat | j < |t.procs| && t.procs[j].valid ensures Conserved(t, j) {
      assert Conserved(s, j);
    }
    forall d: nat | d < |t.u.g| ensures Idle(t, d) {
      assert d != s.procs[i].target ==> Idle(s, d);
    }
  }

  /** A recipe whose last line has ended can be marked as made. */
  lemma EndedIsOver(s: State, i: nat)
    requires Ended(s, i) && s.procs[i].last
    requires s.quitting || Passed(s.procs[i].target, s.prog[s.procs[i].target].finished - 1) in s.log
    ensures var c := s.procs[i].target;
            && Sensible(s.u) && s.prog[c].finished == |s.u.g[c].recipe| && s.prog[c].submitted > 0
            && RecipeOver(s.u, s.log, c) && !Hopeless(s.u, c) && InTurn(s.u, s.log, c)
            && Shape(s) && NeedIs(s, c, s.cells[c].time) && s.prog[c].need == s.cells[c].time && FileTime(s.u, c) < s.cells[c].time
  {
    var c := s.procs[i].target;
    assert ProgOk(s, c) && OrderOk(s, c);
    assert IsDone(s.log, c, s.prog[c].finished - 1) && Started(s.log, c, 0);
    StartedInTurn(s.u, s.log, c, 0);
    hide Lawful, Load, SlotsOk, ChildrenOk, NeedIs, InTurn;
  }

  // ---- Giving up ----

  /** Quit() is entered. */
  ghost function QuitStep(s: State, cause: Cause): State {
    s.(quitting := true, log := s.log + [Quitting(cause)])
  }

  lemma QuitKeeps(s: State, cause: Cause)
    requires Core(s, -1, 0) && !s.quitting && Justified(s.u, s.log, cause)
    ensures Core(QuitStep(s, cause), -1, 0)
  {
    hide Lawful, Load, Justified;
    var t := QuitStep(s, cause);
    Append(s.u, s.log, Quitting(cause));
    LogOnly(s, t, -1);
    LogsAlike(s, t, [Quitting(cause)]);
    assert Quitting(cause) in t.log;
  }

  // ---- Lines from the graph walk ----

  /** The graph walk hands one more line of `c` to runargv. */
  ghost function SubmitStep(s: State, c: nat): State
    requires c < |s.prog|
  {
    s.(prog := s.prog[c := s.prog[c].(submitted := s.prog[c].submitted + 1)])
  }

  /** The prerequisites of `c` are made, `c` is out of date, and its time stamp
      is the least acceptable one. */
  ghost predicate Schedulable(s: State, c: nat)
    requires Shape(s) && c < |s.u.g|
  {
    && !s.cells[c].made && s.prog[c].submitted < |s.u.g[c].recipe| && !s.cells[c].visited
    && s.prog[c].need == s.cells[c].time && NeedIs(s, c, s.cells[c].time) && FileTime(s.u, c) < s.cells[c].time
    && !Hopeless(s.u, c) && InTurn(s.u, s.log, c)
  }

  lemma SubmitKeepsCore(s: State, c: nat)
    requires Core(s, -1, 0) && c < |s.u.g| && Schedulable(s, c)
    ensures Core(SubmitStep(s, c), -1, 0)
  {
    hide Lawful, Load;
    var t := SubmitStep(s, c);
    forall d: nat | d < |t.u.g| ensures ProgOk(t, d) && OrderOk(t, d) && DiskOk(t, d) {
      assert ProgOk(s, d) && OrderOk(s, d) && DiskOk(s, d);
    }
    forall j: nat | j < |t.procs| ensures SlotOk(t, j, -1) {
      assert SlotOk(s, j, -1);
    }
  }

  lemma SubmitGivesStartable(s: State, c: nat, r: Rcp)
    requires Core(s, -1, 0) && Flow(s, -1, -1) && c < |s.u.g| && Schedulable(s, c) && IsLine(s.u, r, c, s.prog[c].submitted)
    requires s.useI == -1 && s.prog[c].owner == -1 && s.procCnt < |s.procs|
    ensures Startable(SubmitStep(s, c), c, r, 0)
  {
    hide LogOk, ChildrenOk;
    var t := SubmitStep(s, c);
    SubmitKeepsCore(s, c);
    assert Idle(s, c) && ProgOk(s, c);
    hide CellsOk;
    forall j: nat | j < |t.procs| && t.procs[j].valid ensures Conserved(t, j) {
      assert Conserved(s, j) && SlotOk(s, j, -1);
    }
    forall d: nat | d < |t.u.g| && d != c ensures Idle(t, d) {
      assert Idle(s, d);
    }
  }

  lemma ForkKeepsCore(s: State, line: Line, pid: int)
    requires Core(s, -1, 0) && pid > 0 && pid !in s.children
    ensures Core(s.(children := s.children[pid := line]), -1, pid)
  {
    hide Lawful, Load, CountValid;
    var t := s.(children := s.children[pid := line]);
    forall d: nat | d < |t.u.g| ensures ProgOk(t, d) && OrderOk(t, d) && DiskOk(t, d) {
      assert ProgOk(s, d) && OrderOk(s, d) && DiskOk(s, d);
    }
    forall j: nat | j < |t.procs| ensures SlotOk(t, j, -1) {
      assert SlotOk(s, j, -1);
    }
  }

  /** fork() returns a new process id. */
  lemma ForkKeepsStartable(s: State, c: nat, r: Rcp, pid: int)
    requires Startable(s, c, r, 0) && pid > 0 && pid !in s.children
    ensures Startable(s.(children := s.children[pid := r.line]), c, r, pid)
  {
    hide LogOk, CellsOk, SlotsOk, ChildrenOk, CountValid, Command;
    var t := s.(children := s.children[pid := r.line]);
    ForkKeepsCore(s, r.line, pid);
    forall j: nat | j < |t.procs| && t.procs[j].valid ensures Conserved(t, j) {
      assert Conserved(s, j);
    }
    forall d: nat | d < |t.u.g| && d != c ensures Idle(t, d) {
      assert Idle(s, d);
    }
  }

  /** _attach_cmd: the line waits behind the running line of its target. */
  ghost function AttachStep(s: State, i: nat, c: nat, r: Rcp): State
    requires i < |s.procs| && c < |s.prog|
  {
    QueueStep(SubmitStep(s, c), i, s.procs[i].recipe + [r])
  }

  lemma AttachKeeps(s: State, i: nat, c: nat, r: Rcp)
    requires Core(s, -1, 0) && Flow(s, -1, -1) && c < |s.u.g| && Schedulable(s, c)
    requires i < |s.procs| && s.procs[i].valid && s.procs[i].target == c
    requires IsLine(s.u, r, c, s.prog[c].submitted)
    ensures Core(AttachStep(s, i, c, r), -1, 0) && Flow(AttachStep(s, i, c, r), -1, -1)
  {
    hide LogOk, ChildrenOk;
    var t := AttachStep(s, i, c, r);
    SubmitKeepsCore(s, c);
    QueueKeepsCore(SubmitStep(s, c), i, s.procs[i].recipe + [r]);
    forall j: nat | j < |t.procs| && t.procs[j].valid ensures Conserved(t, j) {
      assert Conserved(s, j) && Conserved(s, i) && SlotOk(s, j, -1) && SlotOk(s, i, -1);
    }
    forall d: nat | d < |t.u.g| ensures Idle(t, d) {
      assert Idle(s, d) && SlotOk(s, i, -1) && ProgOk(s, d);
    }
  }

  // ---- What a call leaves alone ----

  /** A cell never loses progress, keeps its F_VISITED and F_STAT bits, keeps its
      time stamp until it is made, and a line that is still running still runs
      in the same slot and process. */
  ghost predicate CellSteady(s: State, t: State, c: nat)
    requires c < |s.u.g| == |s.cells| == |s.prog| == |t.cells| == |t.prog|
  {
    var f, f', p, p' := s.cells[c], t.cells[c], s.prog[c], t.prog[c];
    && f'.visited == f.visited && f'.stated == f.stated && f'.rules == f.rules && p'.need == p.need
    && p'.submitted >= p.submitted && p'.started >= p.started && p'.finished >= p.finished
    && (f.made ==> f'.made) && (f'.made == f.made ==> f'.time == f.time)
    && (0 <= p.owner < |s.procs| && p'.finished == p.finished ==>
          p'.owner == p.owner < |t.procs| && t.procs[p.owner].pid == s.procs[p.owner].pid)
  }

  /** Nothing is submitted for the cell, and if none of its lines is running
      nothing happens to it at all. */
  ghost predicate CellApart(s: State, t: State, c: nat)
    requires c < |s.u.g| == |s.cells| == |s.prog| == |s.disk| == |t.cells| == |t.prog| == |t.disk|
  {
    && t.prog[c].submitted == s.prog[c].submitted
    && (s.prog[c].owner == -1 ==>
          t.prog[c] == s.prog[c] && t.cells[c] == s.cells[c] && t.disk[c] == s.disk[c])
  }

  ghost predicate SameShape(s: State, t: State) {
    && t.u == s.u && |t.procs| == |s.procs|
    && |s.u.g| == |s.cells| == |s.prog| == |s.disk| == |t.cells| == |t.prog| == |t.disk|
    && s.log <= t.log && (s.quitting ==> t.quitting)
    && (s.waitForCompletion ==> t.waitForCompletion)
  }

  /** From `s` to `t` only lines that were submitted before, and lines of
      `target`, have been worked on. */
  ghost predicate Steady(s: State, t: State, target: int) {
    SameShape(s, t) && AllSteady(s, t) && AllApart(s, t, target)
  }

  ghost predicate AllSteady(s: State, t: State)
    requires SameShape(s, t)
  {
    forall c: nat :: c < |s.u.g| ==> CellSteady(s, t, c)
  }

  ghost predicate AllApart(s: State, t: State, target: int)
    requires SameShape(s, t)
  {
    forall c: nat :: c < |s.u.g| && c != target ==> CellApart(s, t, c)
  }

  lemma SteadyTrans(s: State, t: State, u: State, target: int)
    requires Steady(s, t, target) && Steady(t, u, target)
    ensures Steady(s, u, target)
  {
    forall c: nat | c < |s.u.g| ensures CellSteady(s, u, c) {
      assert CellSteady(s, t, c) && CellSteady(t, u, c);
    }
    forall c: nat | c < |s.u.g| && c != target ensures CellApart(s, u, c) {
      assert CellApart(s, t, c) && CellApart(t, u, c);
    }
  }

  lemma SteadyWiden(s: State, t: State, target: int)
    requires Steady(s, t, -1)
    ensures Steady(s, t, target)
  {
  }

  lemma SteadyAt(s: State, t: State, c: nat)
    requires Steady(s, t, -1) && c < |s.u.g|
    ensures t.prog[c].submitted == s.prog[c].submitted && t.prog[c].finished >= s.prog[c].finished
  {
    assert CellSteady(s, t, c) && CellApart(s, t, c);
  }

  /** Changes to queues, scheduler flags, children and the log are steady. */
  lemma SameCellsSteady(s: State, t: State, target: int)
    requires SameShape(s, t) && t.cells == s.cells && t.prog == s.prog && t.disk == s.disk
    requires forall i: nat :: i < |s.procs| ==> t.procs[i].pid == s.procs[i].pid
    ensures Steady(s, t, target)
  {
  }

  lemma OneCellSteady(s: State, t: State, c: nat)
    requires SameShape(s, t) && c < |s.u.g| && t.disk == s.disk
    requires t.cells == s.cells[c := t.cells[c]] && t.prog == s.prog[c := t.prog[c]]
    requires forall i: nat :: i < |s.procs| ==> t.procs[i].pid == s.procs[i].pid
    requires CellSteady(s, t, c)
    ensures Steady(s, t, c)
  {
  }

  /** As long as no line of `c` has been collected its slot and process stay. */
  lemma StillRunning(s: State, t: State, i: nat)
    requires Core(s, -1, 0) && i < |s.procs| && s.procs[i].valid
    requires Core(t, -1, 0) && Steady(s, t, -1)
    ensures var c := s.procs[i].target;
            c < |s.u.g| && (t.prog[c].finished > s.prog[c].finished ||
              (t.procs[i].valid && t.procs[i].target == c && t.procs[i].pid == s.procs[i].pid))
  {
    assert SlotOk(s, i, -1);
    var c := s.procs[i].target;
    assert CellSteady(s, t, c) && ProgOk(t, c) && ProgOk(s, c);
  }

  lemma SameProcess(s: State, i: nat, j: nat)
    requires Core(s, -1, 0) && i < |s.procs| && j < |s.procs|
    requires s.procs[i].valid && s.procs[j].valid && s.procs[i].pid == s.procs[j].pid
    ensures i == j
  {
    assert SlotOk(s, i, -1) && SlotOk(s, j, -1);
  }

  lemma RunningHasChild(s: State, i: nat)
    requires Core(s, -1, 0) && i < |s.procs| && s.procs[i].valid
    ensures s.procs[i].pid in s.children && s.procs[i].target < |s.u.g|
  {
    assert SlotOk(s, i, -1);
  }

  /** Made prerequisites keep their time stamps. */
  lemma NeedSteady(s: State, t: State, c: nat, need: int)
    requires Shape(s) && Shape(t) && SameShape(s, t) && AllSteady(s, t) && c < |s.u.g| && NeedIs(s, c, need)
    ensures NeedIs(t, c, need)
  {
    ClosedAt(s.u.g, c);
    forall p | p in s.u.g[c].prq ensures t.cells[p].made && t.cells[p].time == s.cells[p].time {
      assert p < |s.u.g| && CellSteady(s, t, p);
    }
  }

  lemma SchedulableSteady(s: State, t: State, c: nat)
    requires Core(s, -1, 0) && Steady(s, t, -1) && Shape(t)
    requires c < |s.u.g| && Schedulable(s, c) && s.prog[c].owner == -1
    ensures Schedulable(t, c) && t.prog[c] == s.prog[c]
  {
    assert CellApart(s, t, c);
    NeedSteady(s, t, c, s.cells[c].time);
    InTurnStays(s.u, s.log, t.log, c);
  }

  /** Finding the slot of a target is reading its progress. */
  lemma OwnerIsUnique(s: State, c: nat)
    requires Core(s, -1, 0) && c < |s.u.g|
    ensures -1 <= s.prog[c].owner < |s.procs|
    ensures forall i :: 0 <= i < |s.procs| && s.procs[i].valid && s.procs[i].target == c ==> i == s.prog[c].owner
    ensures s.prog[c].owner >= 0 ==>
              s.prog[c].owner < |s.procs| && s.procs[s.prog[c].owner].valid && s.procs[s.prog[c].owner].target == c
  {
    assert ProgOk(s, c);
    forall i | 0 <= i < |s.procs| && s.procs[i].valid && s.procs[i].target == c
      ensures i == s.prog[c].owner
    {
      assert SlotOk(s, i, -1);
    }
  }

  lemma FlagsKeepCore(s: State, aborting: bool, use: int, reaped: int)
    requires Core(s, reaped, 0) && -1 <= use < |s.procs|
    ensures Core(s.(abortFlg := aborting, useI := use), reaped, 0)
  {
    LogOnly(s, s.(abortFlg := aborting, useI := use), reaped);
  }

  lemma UseKeepsFlow(s: State, use: int)
    requires Shape(s) && Flow(s, -1, -1)
    ensures Flow(s.(useI := use), -1, -1)
  {
    var t := s.(useI := use);
    forall j: nat | j < |t.procs| && t.procs[j].valid ensures Conserved(t, j) {
      assert Conserved(s, j);
    }
    forall d: nat | d < |t.u.g| ensures Idle(t, d) {
      assert Idle(s, d);
    }
  }

  lemma ReapSteady(s: State, i: nat, stamp: nat)
    requires Core(s, -1, 0) && i < |s.procs| && s.procs[i].valid && s.procs[i].target < |s.u.g|
    ensures Steady(s, ReapStep(s, i, stamp), -1)
  {
    assert SlotOk(s, i, -1) && ProgOk(s, s.procs[i].target);
  }

  /** Collecting the line of slot `i` and working on its target afterwards is
      no interference with any cell that was not running. */
  lemma FinishSteady(s: State, i: nat, status: nat, t: State)
    requires Core(s, i, 0) && i < |s.procs| && s.procs[i].valid && s.procs[i].target < |s.u.g|
    requires Steady(FinishStep(s, i, status), t, s.procs[i].target)
    requires t.prog[s.procs[i].target].submitted == s.prog[s.procs[i].target].submitted
    ensures Steady(s, t, -1)
    ensures t.prog[s.procs[i].target].finished > s.prog[s.procs[i].target].finished
  {
    hide LogOk, ChildrenOk;
    var c, u := s.procs[i].target, FinishStep(s, i, status);
    assert SlotOk(s, i, i) && ProgOk(s, c) && CellSteady(u, t, c);
    forall d: nat | d < |s.u.g| ensures CellSteady(s, t, d) {
      assert CellSteady(u, t, d) && ProgOk(s, d);
    }
    forall d: nat | d < |s.u.g| ensures CellApart(s, t, d) {
      assert d != c ==> CellApart(u, t, d);
    }
  }

  lemma StartSteady(s: State, i: nat, pid: int, c: nat, r: Rcp)
    requires StartsIn(s, i, pid, c, r)
    ensures Steady(s, StartStep(s, i, pid, c, r), c)
  {
    hide LogOk, ChildrenOk;
    var t := StartStep(s, i, pid, c, r);
    forall d: nat | d < |s.u.g| ensures CellSteady(s, t, d) {
      assert ProgOk(s, d);
    }
  }

  lemma IdleCounts(s: State, c: nat, pending: int)
    requires Core(s, -1, pending) && c < |s.u.g| && s.prog[c].owner == -1
    ensures s.prog[c].started == s.prog[c].finished
  {
    assert ProgOk(s, c);
  }

  lemma WaitFlagKeeps(s: State, wait: bool)
    requires Core(s, -1, 0) && Flow(s, -1, -1)
    ensures var t := s.(waitForCompletion := wait); Core(t, -1, 0) && Flow(t, -1, -1)
  {
    var t := s.(waitForCompletion := wait);
    LogOnly(s, t, -1);
    forall j: nat | j < |t.procs| && t.procs[j].valid ensures Conserved(t, j) {
      assert Conserved(s, j);
    }
    forall d: nat | d < |t.u.g| ensures Idle(t, d) {
      assert Idle(s, d);
    }
  }

  lemma CoreIsLawful(s: State, reaped: int, pending: int)
    requires Core(s, reaped, pending)
    ensures Sensible(s.u) && Lawful(s.u, s.log) && (s.quitting <==> HasQuit(s.log))
  {
  }
}
