/** What the rules for single events say about whole runs. */
module Runs {
  import opened Dag
  import opened BuildLog

  /** Every prefix of a lawful log is lawful, so every event was allowed. */
  lemma {:induction false} EventAllowed(u: Setup, log: seq<Event>, n: nat)
    requires Sensible(u) && Lawful(u, log) && n < |log|
    ensures Lawful(u, log[..n]) && Allowed(u, log[..n], log[n])
  {
    hide Allowed;
    var front := log[..|log| - 1];
    if n < |front| {
      EventAllowed(u, front, n);
      assert front[..n] == log[..n];
    }
  }

  lemma Position(log: seq<Event>, n: nat, e: Event) returns (m: nat)
    requires n <= |log| && e in log[..n]
    ensures m < n && log[m] == e
  {
    m :| 0 <= m < n && log[m] == e;
  }

  lemma Sooner(log: seq<Event>, m: nat, n: nat)
    requires m <= n <= |log|
    ensures forall e :: e in log[..m] ==> e in log[..n]
    ensures forall e :: e in log[..n] ==> e in log
  {
    assert log[..m] == log[..n][..m];
  }

  /** The event at position `m` is known from position `m` + 1 on. */
  lemma Known(log: seq<Event>, m: nat, n: nat)
    requires m < n <= |log|
    ensures log[m] in log[..n]
  {
    assert log[..n][m] == log[m];
  }

  // ---- Nothing happens twice ----

  predicate SameStep(a: Event, b: Event) {
    || (a.Start? && b.Start? && a.cell == b.cell && a.line == b.line)
    || (a.Done? && b.Done? && a.cell == b.cell && a.line == b.line)
    || (a.Made? && b.Made? && a.cell == b.cell)
    || (a.Quitting? && b.Quitting?)
  }

  /** No line is started or collected twice, no cell is made twice, and dmake
      gives up at most once. */
  lemma OnlyOnce(u: Setup, log: seq<Event>, m: nat, n: nat)
    requires Sensible(u) && Lawful(u, log) && m < n < |log|
    ensures !SameStep(log[m], log[n])
  {
    hide Needs, Stamp, FileIs, OutOfDate, SlotFree, PrqMade, Justified, Succeeded, Hopeless, RecipeOver;
    EventAllowed(u, log, n);
    Known(log, m, n);
  }

  lemma Unique(u: Setup, log: seq<Event>, e: Event, f: Event)
    requires Sensible(u) && Lawful(u, log) && e in log && f in log && SameStep(e, f)
    ensures e == f
  {
    hide Lawful;
    assert log[..|log|] == log;
    var m := Position(log, |log|, e);
    var n := Position(log, |log|, f);
    if m < n {
      OnlyOnce(u, log, m, n);
    } else if n < m {
      OnlyOnce(u, log, n, m);
    }
  }

  /** An event of a kind that happens once, and has happened by `n`, is in the
      log up to `n`. */
  lemma Before(u: Setup, log: seq<Event>, n: nat, e: Event, f: Event)
    requires Sensible(u) && Lawful(u, log) && n <= |log| && e in log && f in log[..n] && SameStep(e, f)
    ensures e in log[..n]
  {
    Sooner(log, n, n);
    Unique(u, log, e, f);
  }

  // ---- Order ----

  /** When a line starts, every earlier line of the same target has started and
      has been collected, and did not fail: the lines of a target run one at a
      time, in the order of its recipe, and up to the first failure. */
  lemma {:induction false} LinesInOrder(u: Setup, log: seq<Event>, n: nat, j: nat)
    requires Sensible(u) && Lawful(u, log) && n < |log| && log[n].Start? && j < log[n].line
    ensures Started(log[..n], log[n].cell, j) && Succeeded(u, log[..n], log[n].cell, j)
    decreases n
  {
    var c, k := log[n].cell, log[n].line - 1;
    var s := LineBefore(u, log, n);
    Sooner(log, s, n);
    if j < k {
      LinesInOrder(u, log, s, j);
    }
  }

  /** The line before the one that starts at `n`. */
  lemma LineBefore(u: Setup, log: seq<Event>, n: nat) returns (s: nat)
    requires Sensible(u) && Lawful(u, log) && n < |log| && log[n].Start? && log[n].line > 0
    ensures s < n && log[s].Start? && log[s].cell == log[n].cell && log[s].line == log[n].line - 1
    ensures Started(log[..n], log[n].cell, log[n].line - 1) && Succeeded(u, log[..n], log[n].cell, log[n].line - 1)
  {
    hide OutOfDate, PrqMade, SlotFree, MayMake, Passes;
    var c, k := log[n].cell, log[n].line - 1;
    EventAllowed(u, log, n);
    var m := Position(log, n, Passed(c, k));
    EventAllowed(u, log, m);
    Sooner(log, m, n);
    var e :| e in log[..m] && e.Done? && e.cell == c && e.line == k && Passes(u, c, k, e.status);
    s := StartOf(u, log, m, e);
    Known(log, s, n);
  }

  /** Where a line that has been collected was started. */
  lemma StartOf(u: Setup, log: seq<Event>, n: nat, e: Event) returns (s: nat)
    requires Sensible(u) && Lawful(u, log) && n <= |log| && e in log[..n] && e.Done?
    ensures s < n && log[s].Start? && log[s].cell == e.cell && log[s].line == e.line
  {
    var d := Position(log, n, e);
    EventAllowed(u, log, d);
    var f :| f in log[..d] && f.Start? && f.cell == e.cell && f.line == e.line;
    s := Position(log, d, f);
  }

  /** When a target is made or one of its lines starts, every cell on a walk
      below it is already made. */
  lemma {:induction false} DescendantsMade(u: Setup, log: seq<Event>, n: nat, w: seq<nat>)
    requires Sensible(u) && Lawful(u, log) && n < |log| && Walk(u.g, w) && |w| > 1
    requires (log[n].Made? || log[n].Start?) && log[n].cell == w[0]
    ensures IsMade(log[..n], Last(w))
    decreases |w|
  {
    hide Needs, Stamp, FileIs, OutOfDate, SlotFree, Hopeless, RecipeOver;
    EventAllowed(u, log, n);
    assert w[1] in u.g[w[0]].prq && IsMade(log[..n], w[1]);
    if |w| > 2 {
      var e :| e in log[..n] && e.Made? && e.cell == w[1];
      var m := Position(log, n, e);
      SubWalk(u.g, w, 1, |w|);
      DescendantsMade(u, log, m, w[1..|w|]);
      Sooner(log, m, n);
    }
  }

  /** A line that is started at all is started before its cell is made, on a
      target that is out of date, and is over then. */
  lemma StartsBeforeMade(u: Setup, log: seq<Event>, m: nat, x: nat)
    requires Sensible(u) && Lawful(u, log) && m < |log| && x < |log|
    requires log[m].Start? && log[x].Made? && log[x].cell == log[m].cell
    ensures m < x && IsDone(log[..x], log[m].cell, log[m].line)
    ensures log[m].cell < |u.g| && FileTime(u, log[m].cell) < log[x].need && RecipeOver(u, log[..x], log[m].cell)
  {
    var c := log[m].cell;
    hide Stamp, FileIs, SlotFree, Hopeless, RecipeOver, FileTime;
    EventAllowed(u, log, m);
    EventAllowed(u, log, x);
    if x < m {
      Known(log, x, m);
    }
    Known(log, m, x);
    Sooner(log, m, x);
    assert FileTime(u, c) < log[x].need;
  }

  /** Build order over a whole run: once a line of a target starts, no line of
      a cell below it is running, none ever starts again, and a recipe that was
      run below it has passed up to its last line. */
  lemma BuildOrder(u: Setup, log: seq<Event>, n: nat, w: seq<nat>, m: nat)
    requires Sensible(u) && Lawful(u, log) && n < |log| && log[n].Start?
    requires Walk(u.g, w) && |w| > 1 && log[n].cell == w[0]
    requires m < |log| && log[m].Start? && log[m].cell == Last(w)
    ensures m < n && IsDone(log[..n], Last(w), log[m].line)
    ensures forall k :: 0 <= k < |u.g[Last(w)].recipe| ==> Succeeded(u, log[..n], Last(w), k)
  {
    hide MayMake, OutOfDate, SlotFree, PrqMade, Lawful, FileTime, Passes;
    var c := Last(w);
    DescendantsMade(u, log, n, w);
    var e :| e in log[..n] && e.Made? && e.cell == c;
    var x := Position(log, n, e);
    StartsBeforeMade(u, log, m, x);
    EventAllowed(u, log, n);
    EventAllowed(u, log, m);
    Sooner(log, x, n);
    assert !HasQuit(log[..x]);
    forall k | 0 <= k < |u.g[c].recipe| ensures Succeeded(u, log[..n], c, k) {
      PassedAll(u, log, x, c, k);
    }
  }

  /** Where the last line of a recipe has passed, all of them succeeded. */
  lemma PassedAll(u: Setup, log: seq<Event>, n: nat, c: nat, k: nat)
    requires Sensible(u) && Lawful(u, log) && n <= |log| && c < |u.g| && k < |u.g[c].recipe|
    requires Passed(c, |u.g[c].recipe| - 1) in log[..n]
    ensures Started(log[..n], c, k) && Succeeded(u, log[..n], c, k)
  {
    hide MayMake, MayStart, Lawful, Passes;
    var last := |u.g[c].recipe| - 1;
    var m := Position(log, n, Passed(c, last));
    EventAllowed(u, log, m);
    Sooner(log, m, n);
    var e :| e in log[..m] && e.Done? && e.cell == c && e.line == last && Passes(u, c, last, e.status);
    var s := StartOf(u, log, m, e);
    Known(log, s, n);
    Sooner(log, s, n);
    if k < last {
      LinesInOrder(u, log, s, k);
    }
  }

  // ---- .SEQUENTIAL targets ----

  /** Every way from .ROOT to `d` goes from `c` to its prerequisite `p`. */
  ghost predicate OnlyThrough(u: Setup, c: nat, p: nat, d: nat) {
    forall w :: Walk(u.g, w) && w[0] == u.root && Last(w) == d ==> exists x :: 0 <= x < |w| - 1 && w[x] == c && w[x + 1] == p
  }

  /** The prerequisites of a .SEQUENTIAL target are made one after the other:
      nothing that is only needed for `p` is started, made or found hopeless
      before all the prerequisites in front of `p` are made. */
  lemma OneAfterTheOther(u: Setup, log: seq<Event>, n: nat, c: nat, p: nat, d: nat, i: nat)
    requires Sensible(u) && Lawful(u, log) && n < |log| && c < |u.g| && u.g[c].sequential && OnlyThrough(u, c, p, d)
    requires ((log[n].Start? || log[n].Made?) && log[n].cell == d) || log[n] == Quitting(NoRule(d))
    requires i < |u.g[c].prq| && p !in u.g[c].prq[..i + 1]
    ensures IsMade(log[..n], u.g[c].prq[i])
  {
    hide Lawful, Needs, Stamp, FileIs, OutOfDate, SlotFree, Hopeless, RecipeOver, PrqMade;
    EventAllowed(u, log, n);
    var w :| Due(u, log[..n], w) && Last(w) == d;
    var x :| 0 <= x < |w| - 1 && w[x] == c && w[x + 1] == p;
    assert Turn(u, log[..n], w[x], w[x + 1]);
  }

  /** ... and all the lines of recipes below those are over. */
  lemma OneIsOver(u: Setup, log: seq<Event>, n: nat, c: nat, p: nat, d: nat, i: nat, w: seq<nat>, m: nat)
    requires Sensible(u) && Lawful(u, log) && n < |log| && c < |u.g| && u.g[c].sequential && OnlyThrough(u, c, p, d)
    requires log[n].Start? && log[n].cell == d && i < |u.g[c].prq| && p !in u.g[c].prq[..i + 1]
    requires Walk(u.g, w) && w[0] == u.g[c].prq[i] && m < |log| && log[m].Start? && log[m].cell == Last(w)
    ensures m < n && IsDone(log[..n], Last(w), log[m].line)
    ensures forall k :: 0 <= k < |u.g[Last(w)].recipe| ==> Succeeded(u, log[..n], Last(w), k)
  {
    hide Lawful, MayMake, OutOfDate, SlotFree, PrqMade, OnlyThrough, Succeeded, RecipeOver;
    OneAfterTheOther(u, log, n, c, p, d, i);
    var x := MadeAlong(u, log, n, w);
    StartsBeforeMade(u, log, m, x);
    EventAllowed(u, log, n);
    Sooner(log, x, n);
    BeforeQuit(u, log, x, n, Last(w));
    EventAllowed(u, log, m);
    forall k | 0 <= k < |u.g[Last(w)].recipe| ensures Succeeded(u, log[..n], Last(w), k) {
      PassedAll(u, log, n, Last(w), k);
    }
  }

  /** Where the end of the walk was made, when its first cell was. */
  lemma MadeAlong(u: Setup, log: seq<Event>, n: nat, w: seq<nat>) returns (x: nat)
    requires Sensible(u) && Lawful(u, log) && n <= |log| && Walk(u.g, w) && IsMade(log[..n], w[0])
    ensures x < n && log[x].Made? && log[x].cell == Last(w)
  {
    hide Lawful;
    var e :| e in log[..n] && e.Made? && e.cell == w[0];
    x := Position(log, n, e);
    if |w| > 1 {
      var y := x;
      DescendantsMade(u, log, y, w);
      var f :| f in log[..y] && f.Made? && f.cell == Last(w);
      x := Position(log, y, f);
    }
  }

  /** dmake had not quit then, so the recipe has passed. */
  lemma BeforeQuit(u: Setup, log: seq<Event>, x: nat, n: nat, c: nat)
    requires x <= n <= |log| && !HasQuit(log[..n]) && c < |u.g|
    ensures RecipeOver(u, log[..x], c) ==> |u.g[c].recipe| > 0 && Passed(c, |u.g[c].recipe| - 1) in log[..x]
  {
    Sooner(log, x, n);
    assert !HasQuit(log[..x]);
  }

  // ---- Process queues ----

  /** At no point are more lines running than there are process queues. */
  lemma {:induction false} LoadBounded(u: Setup, log: seq<Event>, n: nat)
    requires Sensible(u) && Lawful(u, log) && n <= |log|
    ensures Load(log[..n]) <= u.maxProc
  {
    hide Lawful;
    if n > 0 {
      EventAllowed(u, log, n - 1);
      assert log[..n][..n - 1] == log[..n - 1];
      LoadBounded(u, log, n - 1);
    }
  }

  /** No two lines run in one process queue. */
  lemma SlotsApart(u: Setup, log: seq<Event>, m: nat, n: nat)
    requires Sensible(u) && Lawful(u, log) && m < n < |log|
    requires log[m].Start? && log[n].Start? && log[m].slot == log[n].slot
    ensures IsDone(log[..n], log[m].cell, log[m].line)
  {
    hide Lawful;
    EventAllowed(u, log, n);
    Known(log, m, n);
  }

  // ---- Giving up ----

  /** After Quit() nothing is started and nothing counts as passed. */
  lemma QuitIsFinal(u: Setup, log: seq<Event>, q: nat, n: nat)
    requires Sensible(u) && Lawful(u, log) && q < n < |log| && log[q].Quitting?
    ensures !log[n].Start? && !log[n].Passed? && !log[n].Quitting?
  {
    hide Lawful, MayMake;
    EventAllowed(u, log, n);
    Known(log, q, n);
  }

  /** Some line has failed. */
  ghost predicate SomeFailure(u: Setup, log: seq<Event>) {
    exists c, k :: Failed(u, log, c, k)
  }

  /** Some cell below .ROOT cannot be made. */
  ghost predicate SomeHopeless(u: Setup)
    requires Sensible(u)
  {
    exists c: nat :: c < |u.g| && Reaches(u.g, u.root, c) && Hopeless(u, c)
  }

  /** dmake does not give up without a reason. */
  lemma QuitHasCause(u: Setup, log: seq<Event>)
    requires Sensible(u) && Lawful(u, log) && HasQuit(log)
    ensures SomeFailure(u, log) || SomeHopeless(u)
  {
    hide Lawful, MayMake, MayStart, Hopeless;
    var e :| e in log && e.Quitting?;
    assert log[..|log|] == log;
    var q := Position(log, |log|, e);
    EventAllowed(u, log, q);
    Sooner(log, q, |log|);
    if e.cause.NoRule? {
      InTurnReaches(u, log[..q], e.cause.cell);
    } else {
      assert Failed(u, log, e.cause.cell, e.cause.line);
    }
  }

  // ---- Which recipes are run ----

  /** The decision that was taken for a made cell: where its file was older than
      1 or than the newest prerequisite every line of the recipe was run and did
      not fail, and otherwise none was started. */
  ghost predicate Decided(u: Setup, log: seq<Event>, c: nat)
    requires Sensible(u) && c < |u.g|
  {
    exists e :: e in log && e.Made? && e.cell == c && Needs(u, log, c, e.need) &&
      forall k: nat :: k < |u.g[c].recipe| ==>
        if FileTime(u, c) < e.need then Started(log, c, k) && Succeeded(u, log, c, k) else !Started(log, c, k)
  }

  lemma RecipeDecided(u: Setup, log: seq<Event>, c: nat)
    requires Sensible(u) && Lawful(u, log) && !HasQuit(log) && c < |u.g| && IsMade(log, c)
    ensures Decided(u, log, c)
  {
    hide Lawful, Stamp, FileIs, Hopeless, FileTime, Succeeded, OutOfDate, SlotFree;
    assert log[..|log|] == log;
    var e :| e in log && e.Made? && e.cell == c;
    var n := Position(log, |log|, e);
    EventAllowed(u, log, n);
    Sooner(log, n, |log|);
    NeedsStays(u, log, n, c, e.need);
    forall k: nat | k < |u.g[c].recipe|
      ensures if FileTime(u, c) < e.need then Started(log, c, k) && Succeeded(u, log, c, k) else !Started(log, c, k)
    {
      if FileTime(u, c) < e.need {
        PassedAll(u, log, |log|, c, k);
      } else if Started(log, c, k) {
        var f :| f in log && f.Start? && f.cell == c && f.line == k;
        var m := Position(log, |log|, f);
        StartsBeforeMade(u, log, m, n);
      }
    }
  }

  /** The prerequisites of a made cell have all the time stamps they will get. */
  lemma NeedsStays(u: Setup, log: seq<Event>, n: nat, c: nat, need: int)
    requires Sensible(u) && Lawful(u, log) && n <= |log| && c < |u.g| && PrqMade(u, log[..n], c)
    ensures Needs(u, log[..n], c, need) ==> Needs(u, log, c, need)
  {
    hide Lawful;
    Sooner(log, n, |log|);
    forall e | e in log && e.Made? && e.cell in u.g[c].prq ensures e in log[..n] {
      assert IsMade(log[..n], e.cell);
      var f :| f in log[..n] && f.Made? && f.cell == e.cell;
      Before(u, log, n, e, f);
    }
  }

  // ---- Time stamps ----

  /** Some file or some reading of the clock is at least as new as `x`. */
  ghost predicate Reached(u: Setup, log: seq<Event>, x: int) {
    || x <= 1
    || (exists i :: 0 <= i < |u.disk| && x <= u.disk[i])
    || exists e :: e in log && ((e.Done? && x <= e.stamp) || (e.Clock? && x <= e.time))
  }

  /** The clock never runs back and is never behind a file. */
  ghost predicate GoodClock(u: Setup, log: seq<Event>) {
    forall n :: 0 <= n < |log| && log[n].Clock? ==> Ahead(u, log[..n], log[n].time)
  }

  ghost predicate Ahead(u: Setup, past: seq<Event>, t: int) {
    && (forall i :: 0 <= i < |u.disk| ==> u.disk[i] <= t)
    && (forall e :: e in past && e.Done? ==> e.stamp <= t)
    && (forall e :: e in past && e.Clock? ==> e.time <= t)
  }

  /** A recipe that leaves a file leaves it no older than any prerequisite. */
  ghost predicate GoodRecipes(u: Setup, log: seq<Event>) {
    forall n :: 0 <= n < |log| && LeavesFile(u, log[n]) ==> NotOlder(u, log[..n], log[n].cell, log[n].stamp)
  }

  ghost predicate LeavesFile(u: Setup, e: Event) {
    e.Done? && e.cell < |u.g| && e.line == |u.g[e.cell].recipe| - 1 && !u.g[e.cell].phony && e.stamp > 0
  }

  ghost predicate NotOlder(u: Setup, log: seq<Event>, c: nat, t: int)
    requires c < |u.g|
  {
    forall e :: e in log && e.Made? && e.cell in u.g[c].prq ==> e.time <= t
  }

  lemma ReachedLater(u: Setup, log: seq<Event>, m: nat, n: nat, x: int)
    requires m <= n <= |log| && Reached(u, log[..m], x)
    ensures Reached(u, log[..n], x)
  {
    Sooner(log, m, n);
  }

  /** A time stamp is that of a file, a reading of the clock, or 1. */
  lemma {:induction false} MadeReached(u: Setup, log: seq<Event>, n: nat)
    requires Sensible(u) && Lawful(u, log) && n < |log| && log[n].Made?
    ensures Reached(u, log[..n], log[n].need) && Reached(u, log[..n], log[n].time)
    decreases n
  {
    hide Lawful, Hopeless, RecipeOver, PrqMade, Reached;
    EventAllowed(u, log, n);
    var c, need := log[n].cell, log[n].need;
    if need != 1 {
      var e :| e in log[..n] && e.Made? && e.cell in u.g[c].prq && e.time == need;
      var m := Position(log, n, e);
      MadeReached(u, log, m);
      ReachedLater(u, log, m, n, need);
    } else {
      ReachedOne(u, log[..n]);
    }
    TimeReached(u, log[..n], c, need, log[n].time);
  }

  lemma ReachedOne(u: Setup, log: seq<Event>)
    ensures Reached(u, log, 1) && Reached(u, log, 0)
  {
  }

  lemma TimeReached(u: Setup, past: seq<Event>, c: nat, need: int, t: int)
    requires Sensible(u) && c < |u.g| && MayMake(u, past, c, need, t) && Reached(u, past, need)
    ensures Reached(u, past, t)
  {
    hide Hopeless, RecipeOver, PrqMade, Needs;
    if FileTime(u, c) < need {
      var file :| FileIs(u, past, c, file) && Stamp(u.g[c], past, need, file, t);
      FileReached(u, past, c, file);
    }
  }

  lemma FileReached(u: Setup, past: seq<Event>, c: nat, file: nat)
    requires Sensible(u) && c < |u.g| && FileIs(u, past, c, file)
    ensures Reached(u, past, file)
  {
  }

  /** A good clock shows more than every time stamp given before. */
  lemma ClockIsAhead(u: Setup, log: seq<Event>, n: nat, x: int)
    requires Sensible(u) && Lawful(u, log) && n < |log| && log[n].Clock? && GoodClock(u, log) && Reached(u, log[..n], x)
    ensures x <= log[n].time
  {
    hide Lawful, MayMake, MayStart;
    EventAllowed(u, log, n);
    assert Ahead(u, log[..n], log[n].time);
  }

  /** With a good clock and good recipes no target ends up older than any of
      its prerequisites. */
  lemma TimesInOrder(u: Setup, log: seq<Event>, e: Event, f: Event)
    requires Sensible(u) && Lawful(u, log) && GoodClock(u, log) && GoodRecipes(u, log)
    requires e in log && f in log && e.Made? && f.Made? && e.cell < |u.g| && f.cell in u.g[e.cell].prq
    ensures f.time <= e.need <= e.time
  {
    hide Lawful, GoodClock, GoodRecipes, Hopeless, RecipeOver, FileTime, Stamp, FileIs;
    assert log[..|log|] == log;
    var n := Position(log, |log|, e);
    EventAllowed(u, log, n);
    NeedsStays(u, log, n, e.cell, e.need);
    if FileTime(u, e.cell) < e.need {
      var file :| FileIs(u, log[..n], e.cell, file) && Stamp(u.g[e.cell], log[..n], e.need, file, e.time);
      UpdatedIsNew(u, log, n, file);
    }
  }

  lemma UpdatedIsNew(u: Setup, log: seq<Event>, n: nat, file: nat)
    requires Sensible(u) && Lawful(u, log) && GoodClock(u, log) && GoodRecipes(u, log) && n < |log| && log[n].Made?
    requires log[n].cell < |u.g| && FileIs(u, log[..n], log[n].cell, file)
    requires Stamp(u.g[log[n].cell], log[..n], log[n].need, file, log[n].time)
    ensures log[n].need <= log[n].time
  {
    hide Lawful, GoodClock, GoodRecipes, FileIs;
    var cell, need := u.g[log[n].cell], log[n].need;
    if JustRead(log[..n], log[n].time) {
      ReadingIsNew(u, log, n);
    } else if !cell.phony && cell.recipe != [] && file > 0 {
      FileIsNew(u, log, n, file);
    }
  }

  lemma ReadingIsNew(u: Setup, log: seq<Event>, n: nat)
    requires Sensible(u) && Lawful(u, log) && GoodClock(u, log) && n < |log| && log[n].Made? && JustRead(log[..n], log[n].time)
    ensures log[n].need <= log[n].time
  {
    hide Lawful, GoodClock, Hopeless, RecipeOver, PrqMade, Stamp, FileIs, Reached;
    EventAllowed(u, log, n);
    var c, need := log[n].cell, log[n].need;
    if need == 1 {
      ReachedOne(u, log[..n - 1]);
    } else {
      var e :| e in log[..n] && e.Made? && e.cell in u.g[c].prq && e.time == need;
      var m := Position(log, n, e);
      MadeReached(u, log, m);
      ReachedLater(u, log, m, n - 1, need);
    }
    ClockIsAhead(u, log, n - 1, need);
  }

  lemma FileIsNew(u: Setup, log: seq<Event>, n: nat, file: nat)
    requires Sensible(u) && Lawful(u, log) && GoodRecipes(u, log) && n < |log| && log[n].Made? && log[n].cell < |u.g|
    requires file > 0 && !u.g[log[n].cell].phony && u.g[log[n].cell].recipe != [] && FileIs(u, log[..n], log[n].cell, file)
    ensures log[n].need <= file
  {
    hide Lawful, Hopeless, RecipeOver, PrqMade, Stamp, FileTime;
    EventAllowed(u, log, n);
    var c, need := log[n].cell, log[n].need;
    var e :| e in log[..n] && e.Done? && e.cell == c && e.line == |u.g[c].recipe| - 1 && e.stamp == file;
    var d := Position(log, n, e);
    assert LeavesFile(u, log[d]) && NotOlder(u, log[..d], c, file);
    if need != 1 {
      var f :| f in log[..n] && f.Made? && f.cell in u.g[c].prq && f.time == need;
      PrqBefore(u, log, d, n, e, f);
    }
  }

  /** A line is collected when the prerequisites of its target are made. */
  lemma PrqBefore(u: Setup, log: seq<Event>, d: nat, n: nat, e: Event, f: Event)
    requires Sensible(u) && Lawful(u, log) && d < n <= |log| && log[d] == e && e.Done? && e.cell < |u.g|
    requires f in log[..n] && f.Made? && f.cell in u.g[e.cell].prq
    ensures f in log[..d]
  {
    hide Lawful, MayMake, OutOfDate, SlotFree;
    Known(log, d, d + 1);
    var s := StartOf(u, log, d + 1, e);
    EventAllowed(u, log, s);
    assert s < d;
    var x :| x in log[..s] && x.Made? && x.cell == f.cell;
    Sooner(log, s, d);
    Sooner(log, n, n);
    Before(u, log, d, f, x);
  }

  /** The other way round: a recipe that leaves its file older than a
      prerequisite gets its target a time stamp that is older. */
  lemma LeftBehind(u: Setup, log: seq<Event>, e: Event, f: Event, d: Event)
    requires Sensible(u) && Lawful(u, log) && e in log && f in log && d in log && e.Made? && f.Made?
    requires e.cell < |u.g| && f.cell in u.g[e.cell].prq && LeavesFile(u, d) && d.cell == e.cell && d.stamp < f.time
    ensures e.time == d.stamp < f.time
  {
    hide Lawful, Hopeless, RecipeOver, OutOfDate, SlotFree;
    assert log[..|log|] == log;
    var n := Position(log, |log|, e);
    EventAllowed(u, log, n);
    var s := StartOf(u, log, |log|, d);
    StartsBeforeMade(u, log, s, n);
    Sooner(log, n, |log|);
    var file :| FileIs(u, log[..n], e.cell, file) && Stamp(u.g[e.cell], log[..n], e.need, file, e.time);
    var x :| x in log[..n] && x.Done? && x.cell == e.cell && x.line == d.line && x.stamp == file;
    Unique(u, log, x, d);
  }

  /** The time stamp of this target is what the clock shows: it is phony, or has
      no file, not even behind its recipe. */
  ghost predicate TakesClock(u: Setup, log: seq<Event>, e: Event)
    requires Sensible(u) && e.Made? && e.cell < |u.g|
  {
    u.g[e.cell].phony || (FileIs(u, log, e.cell, 0) && (u.g[e.cell].recipe != [] || e.need <= 1))
  }

  /** ... and so does a clock that is behind.  Such a target is older than its
      newest prerequisite only if the clock is bad. */
  lemma ReadBehind(u: Setup, log: seq<Event>, n: nat, f: Event)
    requires Sensible(u) && Lawful(u, log) && n < |log| && log[n].Made? && log[n].cell < |u.g|
    requires TakesClock(u, log[..n], log[n]) && f in log && f.Made? && f.cell in u.g[log[n].cell].prq
    ensures n > 0 && log[n - 1] == Clock(log[n].time) && f.time <= log[n].need
    ensures log[n - 1].time < f.time ==> log[n].time < f.time
    ensures log[n].time < log[n].need ==> !GoodClock(u, log)
  {
    hide Lawful, Hopeless, RecipeOver, OutOfDate, SlotFree, GoodClock;
    EventAllowed(u, log, n);
    NeedsStays(u, log, n, log[n].cell, log[n].need);
    ClockIsTaken(u, log, n);
    if GoodClock(u, log) {
      ReadingIsNew(u, log, n);
    }
  }

  lemma ClockIsTaken(u: Setup, log: seq<Event>, n: nat)
    requires Sensible(u) && Lawful(u, log) && n < |log| && log[n].Made? && log[n].cell < |u.g|
    requires TakesClock(u, log[..n], log[n])
    ensures JustRead(log[..n], log[n].time)
  {
    hide Lawful, Hopeless, RecipeOver, OutOfDate, SlotFree, PrqMade;
    EventAllowed(u, log, n);
    var c, cell := log[n].cell, u.g[log[n].cell];
    if !cell.phony && cell.recipe != [] {
      var x :| x in log[..n] && x.Done? && x.cell == c && x.line == |cell.recipe| - 1 && x.stamp == 0;
      var s := StartOf(u, log, n, x);
      StartsBeforeMade(u, log, s, n);
      var file :| FileIs(u, log[..n], c, file) && Stamp(cell, log[..n], log[n].need, file, log[n].time);
      var y :| y in log[..n] && y.Done? && y.cell == c && y.line == |cell.recipe| - 1 && y.stamp == file;
      Sooner(log, n, n);
      Unique(u, log, x, y);
    }
  }

  // ---- A second run ----

  /** Below .ROOT every file target has a file, depends only on file targets,
      and no file it depends on is newer. */
  ghost predicate SettledFiles(u: Setup)
    requires Sensible(u)
  {
    forall c: nat :: c < |u.g| && Reaches(u.g, u.root, c) && !u.g[c].phony ==>
      u.disk[c] >= 1 && forall p :: p in u.g[c].prq ==> !u.g[p].phony && u.disk[p] <= u.disk[c]
  }

  /** Where the files are settled no line of a file target is started, and a
      file target keeps the time stamp of its file. */
  lemma {:induction false} FilesLeftAlone(u: Setup, log: seq<Event>, n: nat)
    requires Sensible(u) && Lawful(u, log) && SettledFiles(u) && n < |log| && (log[n].Start? || log[n].Made?)
    requires log[n].cell < |u.g| && Reaches(u.g, u.root, log[n].cell) && !u.g[log[n].cell].phony
    ensures log[n].Made? && log[n].time == u.disk[log[n].cell]
    decreases n
  {
    hide Lawful, Hopeless, RecipeOver, Stamp, FileIs, Reaches, SlotFree;
    EventAllowed(u, log, n);
    var c := log[n].cell;
    forall e | e in log[..n] && e.Made? && e.cell in u.g[c].prq ensures e.time <= u.disk[c] {
      var m := Position(log, n, e);
      ReachesBelow(u.g, u.root, c, e.cell);
      FilesLeftAlone(u, log, m);
    }
  }

  /** The files as they are when the run is over. */
  ghost predicate FilesAre(u: Setup, log: seq<Event>, disk: seq<nat>)
    requires Sensible(u)
  {
    |disk| == |u.g| && forall c: nat :: c < |u.g| ==> FileNow(u, log, c, disk[c])
  }

  ghost predicate FileNow(u: Setup, log: seq<Event>, c: nat, file: nat)
    requires Sensible(u) && c < |u.g|
  {
    && (!Started(log, c, 0) ==> file == u.disk[c])
    && (IsMade(log, c) && Started(log, c, 0) ==> FileIs(u, log, c, file))
  }

  ghost predicate AllMade(u: Setup, log: seq<Event>) {
    forall c: nat :: c < |u.g| && Reaches(u.g, u.root, c) ==> IsMade(log, c)
  }

  /** A target that lives as a file: not phony, and with a recipe unless it is a
      leaf.  Others, like `all: prog lib`, just stand for their prerequisites. */
  predicate IsFile(u: Setup, c: nat)
    requires c < |u.g|
  {
    !u.g[c].phony && (u.g[c].recipe != [] || u.g[c].prq == [])
  }

  /** A run with a good clock and good recipes leaves no file older than a file
      that it depends on, whatever is in between. */
  lemma RunSettles(u: Setup, log: seq<Event>, disk: seq<nat>, w: seq<nat>)
    requires Sensible(u) && Lawful(u, log) && GoodClock(u, log) && GoodRecipes(u, log) && FilesAre(u, log, disk)
    requires Walk(u.g, w) && IsMade(log, w[0])
    requires IsFile(u, w[0]) && IsFile(u, Last(w)) && disk[w[0]] >= 1 && disk[Last(w)] >= 1
    ensures disk[Last(w)] <= disk[w[0]]
  {
    hide Lawful, GoodClock, GoodRecipes, FileNow, FilesAre;
    var e := MadeFileTime(u, log, disk, w[0]);
    var f := TimesAlong(u, log, w, e);
    var x := MadeFileTime(u, log, disk, Last(w));
    Unique(u, log, f, x);
  }

  /** Times go down along a walk. */
  lemma {:induction false} TimesAlong(u: Setup, log: seq<Event>, w: seq<nat>, e: Event) returns (f: Event)
    requires Sensible(u) && Lawful(u, log) && GoodClock(u, log) && GoodRecipes(u, log)
    requires Walk(u.g, w) && e in log && e.Made? && e.cell == w[0]
    ensures f in log && f.Made? && f.cell == Last(w) && f.time <= e.time
    decreases |w|
  {
    hide Lawful, GoodClock, GoodRecipes, MayMake;
    f := e;
    if |w| > 1 {
      assert w[1] in u.g[w[0]].prq;
      var g := MadeBelow(u, log, e, w[1]);
      TimesInOrder(u, log, e, g);
      SubWalk(u.g, w, 1, |w|);
      f := TimesAlong(u, log, w[1..|w|], g);
    }
  }

  /** The event that made a prerequisite. */
  lemma MadeBelow(u: Setup, log: seq<Event>, e: Event, p: nat) returns (f: Event)
    requires Sensible(u) && Lawful(u, log) && e in log && e.Made? && e.cell < |u.g| && p in u.g[e.cell].prq
    ensures f in log && f.Made? && f.cell == p
  {
    hide Lawful, Needs, Hopeless, RecipeOver, Stamp, FileIs;
    assert log[..|log|] == log;
    var n := Position(log, |log|, e);
    EventAllowed(u, log, n);
    f :| f in log[..n] && f.Made? && f.cell == p;
    Sooner(log, n, |log|);
  }

  /** A made file target has the time stamp of its file. */
  lemma MadeFileTime(u: Setup, log: seq<Event>, disk: seq<nat>, c: nat) returns (e: Event)
    requires Sensible(u) && Lawful(u, log) && FilesAre(u, log, disk) && IsMade(log, c)
    requires c < |u.g| && IsFile(u, c) && disk[c] >= 1
    ensures e in log && e.Made? && e.cell == c && e.time == disk[c]
  {
    hide Lawful, Hopeless, Stamp, PrqMade;
    assert log[..|log|] == log && FileNow(u, log, c, disk[c]);
    e :| e in log && e.Made? && e.cell == c;
    var n := Position(log, |log|, e);
    EventAllowed(u, log, n);
    Sooner(log, n, |log|);
    if Started(log, c, 0) {
      FileOfMade(u, log, n, disk[c]);
    } else if FileTime(u, c) < e.need && u.g[c].recipe != [] {
      LastWasStarted(u, log, n, c);
    }
  }

  lemma LastWasStarted(u: Setup, log: seq<Event>, n: nat, c: nat)
    requires Sensible(u) && Lawful(u, log) && n <= |log| && c < |u.g| && RecipeOver(u, log[..n], c)
    ensures Started(log, c, 0)
  {
    hide Lawful, MayMake, MayStart;
    var k := |u.g[c].recipe| - 1;
    if !HasQuit(log[..n]) {
      PassedAll(u, log, n, c, 0);
      Sooner(log, n, |log|);
    } else {
      var e :| e in log[..n] && e.Done? && e.cell == c && e.line == k;
      var s := StartOf(u, log, n, e);
      assert log[..|log|] == log;
      Known(log, s, |log|);
      if k > 0 {
        LinesInOrder(u, log, s, 0);
        Sooner(log, s, |log|);
      }
    }
  }

  lemma FileOfMade(u: Setup, log: seq<Event>, n: nat, file: nat)
    requires Sensible(u) && Lawful(u, log) && n < |log| && log[n].Made? && log[n].cell < |u.g| && !u.g[log[n].cell].phony
    requires Started(log, log[n].cell, 0) && FileIs(u, log, log[n].cell, file) && file >= 1
    ensures log[n].time == file
  {
    hide Lawful, Hopeless, OutOfDate, SlotFree;
    var c := log[n].cell;
    EventAllowed(u, log, n);
    assert log[..|log|] == log;
    var b :| b in log && b.Start? && b.cell == c && b.line == 0;
    var m := Position(log, |log|, b);
    EventAllowed(u, log, m);
    StartsBeforeMade(u, log, m, n);
    Sooner(log, n, |log|);
    var f :| FileIs(u, log[..n], c, f) && Stamp(u.g[c], log[..n], log[n].need, f, log[n].time);
    var x :| x in log[..n] && x.Done? && x.cell == c && x.line == |u.g[c].recipe| - 1 && x.stamp == f;
    var y :| y in log && y.Done? && y.cell == c && y.line == |u.g[c].recipe| - 1 && y.stamp == file;
    Unique(u, log, x, y);
  }

  // ---- Two runs in a row ----

  /** Nothing below the cell is phony, and what lives as a file has one, with a
      time stamp that can be told from "no time" (0) and from the least one (1).
      A target without a recipe needs no file, and may have one of any age. */
  ghost predicate OnFiles(u: Setup, disk: seq<nat>, c: nat)
    requires Sensible(u) && |disk| == |u.g| && c < |u.g|
  {
    forall d: nat :: d < |u.g| && Reaches(u.g, c, d) ==> !u.g[d].phony && (IsFile(u, d) ==> disk[d] >= 2)
  }

  lemma OnFilesBelow(u: Setup, disk: seq<nat>, c: nat, p: nat)
    requires Sensible(u) && |disk| == |u.g| && c < |u.g| && OnFiles(u, disk, c) && p in u.g[c].prq
    ensures p < |u.g| && OnFiles(u, disk, p) && !u.g[c].phony && (IsFile(u, c) ==> disk[c] >= 2)
  {
    ClosedAt(u.g, c);
    OnFilesHere(u, disk, c);
    forall d: nat | d < |u.g| && Reaches(u.g, p, d) ensures !u.g[d].phony && (IsFile(u, d) ==> disk[d] >= 2) {
      ReachesStep(u.g, c, p, d);
    }
  }

  lemma OnFilesHere(u: Setup, disk: seq<nat>, c: nat)
    requires Sensible(u) && |disk| == |u.g| && c < |u.g| && OnFiles(u, disk, c)
    ensures !u.g[c].phony && (IsFile(u, c) ==> disk[c] >= 2)
  {
    ReachesSelf(u.g, c);
  }

  /** The first run. */
  ghost predicate GoodRun(u: Setup, log: seq<Event>, disk: seq<nat>) {
    && Sensible(u) && Lawful(u, log) && GoodClock(u, log) && GoodRecipes(u, log)
    && |disk| == |u.g| && FilesAre(u, log, disk)
  }

  /** Nothing on files is made with a time below 2. */
  lemma {:induction false} TimesCount(u: Setup, log: seq<Event>, disk: seq<nat>, n: nat)
    requires GoodRun(u, log, disk) && n < |log| && log[n].Made? && log[n].cell < |u.g| && OnFiles(u, disk, log[n].cell)
    ensures log[n].time >= 2 && (u.g[log[n].cell].prq != [] ==> log[n].need >= 2)
    decreases n
  {
    hide Lawful, GoodClock, GoodRecipes, FileNow, MayMake, OnFiles, FilesAre, IsFile;
    var e, c := log[n], log[n].cell;
    assert log[..|log|] == log;
    Known(log, n, |log|);
    if u.g[c].prq == [] {
      OnFilesHere(u, disk, c);
      LeafIsFile(u, c);
      var x := MadeFileTime(u, log, disk, c);
      Unique(u, log, e, x);
    } else {
      var p := u.g[c].prq[0];
      OnFilesBelow(u, disk, c, p);
      var f, m := MadeEarlier(u, log, n, p);
      TimesCount(u, log, disk, m);
      TimesInOrder(u, log, e, f);
    }
  }

  lemma LeafIsFile(u: Setup, c: nat)
    requires c < |u.g| && !u.g[c].phony && (u.g[c].recipe != [] || u.g[c].prq == [])
    ensures IsFile(u, c)
  {
  }

  lemma MadeEarlier(u: Setup, log: seq<Event>, n: nat, p: nat) returns (f: Event, m: nat)
    requires Sensible(u) && Lawful(u, log) && n < |log| && log[n].Made? && log[n].cell < |u.g| && p in u.g[log[n].cell].prq
    ensures m < n && log[m] == f && f in log && f.Made? && f.cell == p
  {
    hide Lawful, Needs, Hopeless, RecipeOver, Stamp, FileIs;
    EventAllowed(u, log, n);
    f :| f in log[..n] && f.Made? && f.cell == p;
    m := Position(log, n, f);
  }

  /** The time stamp of a target without a recipe is that of its newest
      prerequisite, or that of a file that is newer. */
  lemma VirtualTime(u: Setup, log: seq<Event>, n: nat)
    requires Sensible(u) && Lawful(u, log) && n < |log| && log[n].Made? && log[n].cell < |u.g|
    requires !u.g[log[n].cell].phony && u.g[log[n].cell].recipe == [] && log[n].need >= 2
    ensures log[n].time == if u.disk[log[n].cell] > log[n].need then u.disk[log[n].cell] else log[n].need
  {
    hide Lawful, Hopeless, RecipeOver, PrqMade, Needs;
    EventAllowed(u, log, n);
  }

  /** A target without a recipe keeps the file that it may have. */
  lemma VirtualFile(u: Setup, log: seq<Event>, disk: seq<nat>, c: nat)
    requires Sensible(u) && Lawful(u, log) && FilesAre(u, log, disk) && c < |u.g| && u.g[c].recipe == []
    ensures disk[c] == u.disk[c]
  {
    hide Lawful, MayMake, OutOfDate, SlotFree, PrqMade;
    assert FileNow(u, log, c, disk[c]);
    if Started(log, c, 0) {
      var e :| e in log && e.Start? && e.cell == c && e.line == 0;
      assert log[..|log|] == log;
      var n := Position(log, |log|, e);
      EventAllowed(u, log, n);
    }
  }

  /** The event makes a cell, and gives it the time stamp that it got before. */
  ghost predicate MadeAsBefore(log: seq<Event>, e: Event) {
    e.Made? && exists x :: x in log && x.Made? && x.cell == e.cell && x.time == e.time
  }

  /** On a cell on files below .ROOT no line is started, and it keeps its time. */
  ghost predicate Repeats(u: Setup, log: seq<Event>, disk: seq<nat>, log': seq<Event>)
    requires Sensible(u) && |disk| == |u.g|
  {
    forall e :: e in log' && (e.Start? || e.Made?) && e.cell < |u.g| && Reaches(u.g, u.root, e.cell) && OnFiles(u, disk, e.cell) ==>
      MadeAsBefore(log, e)
  }

  /** The second run makes every cell on files with the time stamp that the first
      run gave it, and starts no line of it. */
  lemma {:induction false} SecondRun(u: Setup, log: seq<Event>, disk: seq<nat>, log': seq<Event>, n: nat)
    requires GoodRun(u, log, disk) && Lawful(u.(disk := disk), log')
    requires n < |log'| && (log'[n].Start? || log'[n].Made?)
    requires log'[n].cell < |u.g| && OnFiles(u, disk, log'[n].cell) && IsMade(log, log'[n].cell)
    ensures MadeAsBefore(log, log'[n])
    decreases n
  {
    hide Lawful, GoodClock, GoodRecipes, FilesAre, OnFiles, MayMake, MayStart;
    var c, v := log'[n].cell, u.(disk := disk);
    var e :| e in log && e.Made? && e.cell == c;
    OnFilesHere(u, disk, c);
    forall f | f in log'[..n] && f.Made? && f.cell in u.g[c].prq
      ensures MadeAsBefore(log, f)
    {
      var m := Position(log', n, f);
      OnFilesBelow(u, disk, c, f.cell);
      var x := MadeBelow(u, log, e, f.cell);
      SecondRun(u, log, disk, log', m);
    }
    SameAgain(u, log, disk, log', n, e);
  }

  /** ... when it is so for the prerequisites. */
  lemma SameAgain(u: Setup, log: seq<Event>, disk: seq<nat>, log': seq<Event>, n: nat, e: Event)
    requires GoodRun(u, log, disk) && Lawful(u.(disk := disk), log')
    requires n < |log'| && (log'[n].Start? || log'[n].Made?) && log'[n].cell < |u.g|
    requires OnFiles(u, disk, log'[n].cell) && e in log && e.Made? && e.cell == log'[n].cell
    requires forall f :: f in log'[..n] && f.Made? && f.cell in u.g[log'[n].cell].prq ==> MadeAsBefore(log, f)
    ensures log'[n].Made? && log'[n].time == e.time
  {
    hide Lawful, GoodClock, GoodRecipes, FilesAre, OnFiles, IsFile, Hopeless, RecipeOver, Stamp, FileIs, SlotFree, Reaches;
    var c, v := log'[n].cell, u.(disk := disk);
    OnFilesHere(u, disk, c);
    NotNewer(u, log, log'[..n], c, e);
    EventAllowed(v, log', n);
    if IsFile(u, c) {
      FileIsFile(u, c);
      var x := MadeFileTime(u, log, disk, c);
      Unique(u, log, e, x);
      TimesNeed(u, log, e);
    } else {
      FileIsFile(u, c);
      assert log'[n].Made?;
      SameNeed(u, log, log', n, v, e);
      assert log[..|log|] == log;
      var m := Position(log, |log|, e);
      TimesCount(u, log, disk, m);
      VirtualTime(u, log, m);
      VirtualTime(v, log', n);
      VirtualFile(u, log, disk, c);
    }
  }

  lemma FileIsFile(u: Setup, c: nat)
    requires c < |u.g| && !u.g[c].phony
    ensures IsFile(u, c) <==> u.g[c].recipe != [] || u.g[c].prq == []
  {
  }

  /** No prerequisite is newer in the second run. */
  lemma NotNewer(u: Setup, log: seq<Event>, past: seq<Event>, c: nat, e: Event)
    requires Sensible(u) && Lawful(u, log) && GoodClock(u, log) && GoodRecipes(u, log) && c < |u.g|
    requires e in log && e.Made? && e.cell == c
    requires forall f :: f in past && f.Made? && f.cell in u.g[c].prq ==> MadeAsBefore(log, f)
    ensures forall f :: f in past && f.Made? && f.cell in u.g[c].prq ==> f.time <= e.need && f.time <= e.time
  {
    hide Lawful, GoodClock, GoodRecipes;
    forall f | f in past && f.Made? && f.cell in u.g[c].prq ensures f.time <= e.need && f.time <= e.time {
      var x :| x in log && x.Made? && x.cell == f.cell && x.time == f.time;
      TimesInOrder(u, log, e, x);
    }
  }

  /** What was needed is not more than what was reached. */
  lemma TimesNeed(u: Setup, log: seq<Event>, e: Event)
    requires Sensible(u) && Lawful(u, log) && GoodClock(u, log) && GoodRecipes(u, log) && e in log && e.Made? && e.cell < |u.g|
    ensures 1 <= e.need && (e.need <= e.time || e.need == 1)
  {
    hide Lawful, GoodClock, GoodRecipes, Hopeless, RecipeOver, Stamp, FileIs, PrqMade;
    assert log[..|log|] == log;
    var n := Position(log, |log|, e);
    EventAllowed(u, log, n);
    if e.need != 1 {
      var f :| f in log[..n] && f.Made? && f.cell in u.g[e.cell].prq && f.time == e.need;
      Sooner(log, n, |log|);
      TimesInOrder(u, log, e, f);
    }
  }

  /** Both runs see the same newest prerequisite. */
  lemma SameNeed(u: Setup, log: seq<Event>, log': seq<Event>, n: nat, v: Setup, e: Event)
    requires Sensible(u) && Lawful(u, log) && GoodClock(u, log) && GoodRecipes(u, log)
    requires Sensible(v) && v.g == u.g && Lawful(v, log') && n < |log'| && log'[n].Made? && log'[n].cell < |u.g|
    requires e in log && e.Made? && e.cell == log'[n].cell
    requires forall f :: f in log'[..n] && f.Made? && f.cell in u.g[log'[n].cell].prq ==> MadeAsBefore(log, f)
    ensures log'[n].need == e.need
  {
    hide Lawful, GoodClock, GoodRecipes, Hopeless, RecipeOver, Stamp, FileIs;
    var c := e.cell;
    NotNewer(u, log, log'[..n], c, e);
    EventAllowed(v, log', n);
    assert log[..|log|] == log;
    var m := Position(log, |log|, e);
    EventAllowed(u, log, m);
    if e.need != 1 {
      var f :| f in log[..m] && f.Made? && f.cell in u.g[c].prq && f.time == e.need;
      Sooner(log, m, |log|);
      assert IsMade(log'[..n], f.cell);
      var f' :| f' in log'[..n] && f'.Made? && f'.cell == f.cell;
      var x :| x in log && x.Made? && x.cell == f'.cell && x.time == f'.time;
      Unique(u, log, x, f);
    }
  }
}
