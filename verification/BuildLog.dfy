/** What a build does, as a log of events, and the rules for it. */
module BuildLog {
  // Every prefix of the log obeys the rules.  The scheduler (RunArgv) and the
  // graph walk (Make) keep their log lawful; Runs turns the rules into
  // statements about whole runs.

  import opened Dag

  // ---- Recipe lines ----

  predicate IsWhite(c: char) {
    c == ' ' || c == '\t'
  }

  predicate StartsWithWord(cmd: string, word: string) {
    word <= cmd && (|cmd| == |word| || IsWhite(cmd[|word|]))
  }

  /** Empty lines, `noop` and, outside a shell, `echo` start no process. */
  predicate IsInternal(line: Line) {
    line.cmd == "" || StartsWithWord(line.cmd, "noop") || (!line.shell && StartsWithWord(line.cmd, "echo"))
  }

  predicate HasMeta(cmd: string, metas: string) {
    exists i :: 0 <= i < |cmd| && cmd[i] in metas
  }

  /** Exactly these lines start no process: nothing at all, `noop`, also with
      arguments, and `echo` where no shell is called for. */
  lemma InternalLines(word: string, rest: string, ignore: bool, shell: bool)
    requires (word == "noop" || (word == "echo" && !shell)) && (rest == "" || rest[0] in {' ', '\t'})
    ensures IsInternal(Line(word + rest, ignore, shell)) && IsInternal(Line("", ignore, shell))
  {
    assert (word + rest)[..4] == word;
  }

  lemma OtherLines(line: Line)
    ensures IsInternal(line) && line.cmd != "" ==>
              && |line.cmd| >= 4 && (line.cmd[..4] == "noop" || (line.cmd[..4] == "echo" && !line.shell))
              && (|line.cmd| == 4 || line.cmd[4] in {' ', '\t'})
  {
  }

  /** The exit code that Handle_result extracts from a wait() status. */
  function ExitCode(status: nat): int {
    if status % 0x100 == 0 then status / 0x100
    else if status % 0x100 == 15 then -1
    else status % 0x80 + 128
  }

  /** Only a status of 0 is success; an exit code is taken from the second byte. */
  lemma ExitCodes(status: nat)
    ensures ExitCode(status) == 0 <==> status == 0
    ensures ExitCode(0x100 * status) == status
    ensures 0 < status < 0x80 && status != 15 ==> ExitCode(status) == ExitCode(status + 0x80) == 128 + status
  {
  }

  // ---- Where a build starts from ----

  /** The graph, the number of .ROOT, the modification times of the files (0 for
      no file), MAXPROCESS and the characters that call for a shell. */
  datatype Setup = Setup(g: Graph, root: nat, disk: seq<nat>, maxProc: nat, metas: string)

  ghost predicate Sensible(u: Setup) {
    Closed(u.g) && u.root < |u.g| == |u.disk| && u.maxProc >= 1
  }

  ghost predicate IsLineOf(u: Setup, c: nat, k: int) {
    c < |u.g| && 0 <= k < |u.g[c].recipe|
  }

  /** A recipe line as it is run: in a shell when it is told to be or has to be. */
  function Command(u: Setup, c: nat, k: nat): Line
    requires c < |u.g| && k < |u.g[c].recipe|
  {
    var line := u.g[c].recipe[k];
    line.(shell := line.shell || HasMeta(line.cmd, u.metas))
  }

  /** A shell is used when the line asks for it or has one of its characters. */
  lemma ShellIsUsed(u: Setup, c: nat, k: nat, a: string, meta: char, b: string)
    requires c < |u.g| && k < |u.g[c].recipe| && u.g[c].recipe[k].cmd == a + [meta] + b
    ensures Command(u, c, k).cmd == a + [meta] + b && Command(u, c, k).ignore == u.g[c].recipe[k].ignore
    ensures meta in u.metas || u.g[c].recipe[k].shell ==> Command(u, c, k).shell
    ensures !u.g[c].recipe[k].shell && (forall m :: m in u.metas ==> m !in a + [meta] + b) ==> !Command(u, c, k).shell
  {
    var cmd := a + [meta] + b;
    assert cmd[|a|] == meta;
    forall i | 0 <= i < |cmd| ensures cmd[i] in cmd {
    }
  }

  /** The time stamp that Make compares with: phony targets have none. */
  function FileTime(u: Setup, c: nat): nat
    requires c < |u.g| == |u.disk|
  {
    if u.g[c].phony then 0 else u.disk[c]
  }

  /** Make can only give up on this cell: there is no file, and a target that has
      a rule has no recipe either, or one that has none has no prerequisites. */
  predicate Hopeless(u: Setup, c: nat)
    requires c < |u.g| == |u.disk|
  {
    FileTime(u, c) == 0 &&
    if u.g[c].hasTarget then u.g[c].recipe == [] && !u.g[c].special else u.g[c].prq == []
  }

  // ---- Events ----

  /** Why dmake gives up: a line failed, or a target cannot be made. */
  datatype Cause = Failure(cell: nat, line: nat) | NoRule(cell: nat)

  datatype Event =
    | Start(cell: nat, line: nat, run: Line, forked: bool, slot: nat)  // a process or internal command begins
    | Done(cell: nat, line: nat, status: nat, stamp: nat)  // it was collected, and left its file like this
    | Passed(cell: nat, line: nat)              // its result was success, or ignored
    | Made(cell: nat, need: int, time: int)     // F_MADE is set: the newest prerequisite, and the time stamp
    | Clock(time: int)                          // Do_time()
    | Quitting(cause: Cause)                    // Quit() was entered

  /** Lines that have been started and not yet collected. */
  ghost function Load(log: seq<Event>): int {
    if log == [] then 0
    else
      Load(log[..|log| - 1]) +
      match log[|log| - 1]
      case Start(_, _, _, _, _) => 1
      case Done(_, _, _, _) => -1
      case _ => 0
  }

  ghost predicate Started(log: seq<Event>, c: nat, k: nat) {
    exists e :: e in log && e.Start? && e.cell == c && e.line == k
  }

  ghost predicate IsDone(log: seq<Event>, c: nat, k: nat) {
    exists e :: e in log && e.Done? && e.cell == c && e.line == k
  }

  ghost predicate IsMade(log: seq<Event>, c: nat) {
    exists e :: e in log && e.Made? && e.cell == c
  }

  ghost predicate HasQuit(log: seq<Event>) {
    exists e :: e in log && e.Quitting?
  }

  /** The line does not fail: its wait() status is 0, or failures are ignored. */
  ghost predicate Passes(u: Setup, c: nat, k: nat, status: nat) {
    IsLineOf(u, c, k) && (status == 0 || u.g[c].recipe[k].ignore)
  }

  ghost predicate Succeeded(u: Setup, log: seq<Event>, c: nat, k: nat) {
    exists e :: e in log && e.Done? && e.cell == c && e.line == k && Passes(u, c, k, e.status)
  }

  ghost predicate Failed(u: Setup, log: seq<Event>, c: nat, k: nat) {
    exists e :: e in log && e.Done? && e.cell == c && e.line == k && IsLineOf(u, c, k) && !Passes(u, c, k, e.status)
  }

  /** No line runs in the process queue. */
  ghost predicate SlotFree(log: seq<Event>, slot: nat) {
    forall e :: e in log && e.Start? && e.slot == slot ==> IsDone(log, e.cell, e.line)
  }

  // ---- Time stamps ----

  /** The time of the newest prerequisite, and at least 1. */
  ghost predicate Needs(u: Setup, log: seq<Event>, c: nat, need: int)
    requires c < |u.g|
  {
    && need >= 1
    && (forall e :: e in log && e.Made? && e.cell in u.g[c].prq ==> e.time <= need)
    && (need == 1 || exists e :: e in log && e.Made? && e.cell in u.g[c].prq && e.time == need)
  }

  /** The target is older than 1 or than a prerequisite. */
  ghost predicate OutOfDate(u: Setup, log: seq<Event>, c: nat)
    requires c < |u.g| == |u.disk|
  {
    FileTime(u, c) < 1 || exists e :: e in log && e.Made? && e.cell in u.g[c].prq && FileTime(u, c) < e.time
  }

  /** The modification time of the target's file behind its recipe. */
  ghost predicate FileIs(u: Setup, log: seq<Event>, c: nat, file: nat)
    requires c < |u.g| == |u.disk|
  {
    if u.g[c].recipe == [] then file == u.disk[c]
    else exists e :: e in log && e.Done? && e.cell == c && e.line == |u.g[c].recipe| - 1 && e.stamp == file
  }

  /** What the clock has just shown. */
  ghost predicate JustRead(log: seq<Event>, t: int) {
    log != [] && log[|log| - 1] == Clock(t)
  }

  /** The time stamp of a target that has been updated. */
  ghost predicate Stamp(cell: Cell, log: seq<Event>, need: int, file: nat, t: int) {
    if cell.phony then JustRead(log, t)
    else if file == 0 then (if cell.recipe == [] && need > 1 then t == need else JustRead(log, t))
    else if cell.recipe != [] then t == file
    else if need > 1 then t == if need > file then need else file
    else exists r :: JustRead(log, r) && t == if r > file then need else file
  }

  // ---- .SEQUENTIAL targets ----

  /** If `c` is .SEQUENTIAL, all its prerequisites in front of `p` are made. */
  ghost predicate Turn(u: Setup, log: seq<Event>, c: nat, p: nat)
    requires c < |u.g|
  {
    u.g[c].sequential ==> forall i :: 0 <= i < |u.g[c].prq| && p !in u.g[c].prq[..i + 1] ==> IsMade(log, u.g[c].prq[i])
  }

  /** The walk comes from .ROOT, and each of its steps was due. */
  ghost predicate Due(u: Setup, log: seq<Event>, w: seq<nat>) {
    Walk(u.g, w) && w[0] == u.root && forall x :: 0 <= x < |w| - 1 ==> Turn(u, log, w[x], w[x + 1])
  }

  ghost predicate InTurn(u: Setup, log: seq<Event>, c: nat) {
    exists w :: Due(u, log, w) && Last(w) == c
  }

  lemma DueStays(u: Setup, log: seq<Event>, log': seq<Event>, w: seq<nat>)
    requires Due(u, log, w) && log <= log'
    ensures Due(u, log', w)
  {
    assert log' == log + log'[|log|..];
    Longer(log, log'[|log|..]);
    forall x | 0 <= x < |w| - 1 ensures Turn(u, log', w[x], w[x + 1]) {
      assert Turn(u, log, w[x], w[x + 1]);
    }
  }

  lemma InTurnStays(u: Setup, log: seq<Event>, log': seq<Event>, c: nat)
    requires InTurn(u, log, c) && log <= log'
    ensures InTurn(u, log', c)
  {
    var w :| Due(u, log, w) && Last(w) == c;
    DueStays(u, log, log', w);
  }

  lemma InTurnReaches(u: Setup, log: seq<Event>, c: nat)
    requires InTurn(u, log, c)
    ensures Reaches(u.g, u.root, c)
  {
  }

  lemma RootInTurn(u: Setup, log: seq<Event>)
    requires Sensible(u)
    ensures InTurn(u, log, u.root)
  {
    assert Due(u, log, [u.root]);
  }

  lemma InTurnStep(u: Setup, log: seq<Event>, c: nat, p: nat)
    requires Sensible(u) && InTurn(u, log, c) && c < |u.g| && p in u.g[c].prq && Turn(u, log, c, p)
    ensures InTurn(u, log, p)
  {
    hide Turn;
    var w :| Due(u, log, w) && Last(w) == c;
    var v := w + [p];
    assert Due(u, log, v) by {
      forall x | 0 <= x < |v| - 1 ensures v[x + 1] in u.g[v[x]].prq && Turn(u, log, v[x], v[x + 1]) {
        assert x < |w| - 1 ==> Turn(u, log, w[x], w[x + 1]);
      }
    }
    assert Last(v) == p;
  }

  // ---- The rules ----

  /** The last line of the recipe is over; unless dmake is quitting it passed. */
  ghost predicate RecipeOver(u: Setup, log: seq<Event>, c: nat)
    requires c < |u.g|
  {
    var k := |u.g[c].recipe| - 1;
    k >= 0 && if HasQuit(log) then IsDone(log, c, k) else Passed(c, k) in log
  }

  ghost predicate PrqMade(u: Setup, log: seq<Event>, c: nat)
    requires c < |u.g|
  {
    forall p :: p in u.g[c].prq ==> IsMade(log, p)
  }

  ghost predicate MayMake(u: Setup, past: seq<Event>, c: nat, need: int, t: int)
    requires Sensible(u) && c < |u.g|
  {
    && InTurn(u, past, c) && !IsMade(past, c) && PrqMade(u, past, c) && Needs(u, past, c, need) && !Hopeless(u, c)
    && (forall k :: Started(past, c, k) ==> IsDone(past, c, k))
    && if FileTime(u, c) >= need then t == FileTime(u, c)
       else
         && (u.g[c].recipe != [] ==> RecipeOver(u, past, c))
         && exists file :: FileIs(u, past, c, file) && Stamp(u.g[c], past, need, file, t)
  }

  ghost predicate MayStart(u: Setup, past: seq<Event>, e: Event)
    requires Sensible(u) && e.Start?
  {
    && IsLineOf(u, e.cell, e.line)
    && e.run == Command(u, e.cell, e.line) && e.forked == !IsInternal(e.run)
    && e.slot < u.maxProc && SlotFree(past, e.slot) && Load(past) < u.maxProc
    && !Started(past, e.cell, e.line) && !IsMade(past, e.cell) && !HasQuit(past)
    && (e.line > 0 ==> Passed(e.cell, e.line - 1) in past)
    && InTurn(u, past, e.cell) && PrqMade(u, past, e.cell) && OutOfDate(u, past, e.cell)
  }

  ghost predicate Justified(u: Setup, past: seq<Event>, cause: Cause)
    requires Sensible(u)
  {
    match cause
    case Failure(c, k) => Failed(u, past, c, k)
    case NoRule(c) => c < |u.g| && InTurn(u, past, c) && Hopeless(u, c)
  }

  /** May event `e` happen after the events in `past`? */
  ghost predicate Allowed(u: Setup, past: seq<Event>, e: Event)
    requires Sensible(u)
  {
    match e
    case Start(_, _, _, _, _) => MayStart(u, past, e)
    case Done(c, k, _, _) => Started(past, c, k) && !IsDone(past, c, k)
    case Passed(c, k) => Succeeded(u, past, c, k) && !HasQuit(past)
    case Made(c, need, t) => c < |u.g| && MayMake(u, past, c, need, t)
    case Clock(t) => t > 0
    case Quitting(cause) => !HasQuit(past) && Justified(u, past, cause)
  }

  ghost predicate Lawful(u: Setup, log: seq<Event>)
    requires Sensible(u)
  {
    log == [] || (Lawful(u, log[..|log| - 1]) && Allowed(u, log[..|log| - 1], log[|log| - 1]))
  }

  lemma Append(u: Setup, log: seq<Event>, e: Event)
    requires Sensible(u) && Lawful(u, log) && Allowed(u, log, e)
    ensures Lawful(u, log + [e])
    ensures Load(log + [e]) == Load(log) + (if e.Start? then 1 else if e.Done? then -1 else 0)
  {
    assert (log + [e])[..|log + [e]| - 1] == log;
  }

  /** A line that was started was due. */
  lemma {:induction false} StartedInTurn(u: Setup, log: seq<Event>, c: nat, k: nat)
    requires Sensible(u) && Lawful(u, log) && Started(log, c, k)
    ensures InTurn(u, log, c)
  {
    hide InTurn, MayMake, OutOfDate, PrqMade, SlotFree, Justified, Succeeded;
    var front, last := log[..|log| - 1], log[|log| - 1];
    if last.Start? && last.cell == c && last.line == k {
      assert MayStart(u, front, last);
    } else {
      var e :| e in log && e.Start? && e.cell == c && e.line == k;
      assert log == front + [last] && e in front;
      StartedInTurn(u, front, c, k);
    }
    InTurnStays(u, front, log, c);
  }

  /** What has happened stays in a log that grows. */
  lemma Longer(log: seq<Event>, more: seq<Event>)
    ensures forall c, k :: Started(log, c, k) ==> Started(log + more, c, k)
    ensures forall c, k :: IsDone(log, c, k) ==> IsDone(log + more, c, k)
    ensures forall c :: IsMade(log, c) ==> IsMade(log + more, c)
    ensures HasQuit(log) ==> HasQuit(log + more)
  {
    assert forall e :: e in log ==> e in log + more;
  }
}
