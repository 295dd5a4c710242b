/** The conditional machine of getinp.c: .IF, .ELIF, .ELSE and .END, and the
    skipping of lines in Get_line(). */
module GetInp {

  const MAX_COND_DEPTH := 20

  /** An input line.  A condition comes with its truth value: how expressions
      are evaluated is not part of this model. */
  datatype Line = If(cond: bool) | Elif(cond: bool) | Else | End | Text(s: string)

  /** The messages with which dmake stops. */
  datatype Fault = ElifWithoutIf | TooDeep | ElseWithoutIf | ElseTwice | UnmatchedEnd

  datatype Result<T> = Ok(value: T) | Fatal(fault: Fault)

  // ---- The machine on a stack ----

  /** One level of nesting: are lines skipped in the current branch, has a branch
      been taken, has .ELSE been seen? */
  datatype Frame = Frame(skip: bool, accepted: bool, seenElse: bool)

  function Skipping(stack: seq<Frame>): bool {
    stack != [] && stack[|stack| - 1].skip
  }

  /** One control line. */
  function Step(stack: seq<Frame>, line: Line): Result<seq<Frame>> {
    var n := |stack|;
    match line
    case If(cond) =>
      if n + 1 == MAX_COND_DEPTH then Fatal(TooDeep)
      else Ok(stack + [Frame(if cond then Skipping(stack) else true, cond, false)])
    case Elif(cond) =>
      if n == 0 || stack[n - 1].seenElse then Fatal(ElifWithoutIf)
      else
        var top, outer := stack[n - 1], stack[..n - 1];
        Ok(outer + [if cond && !top.accepted then Frame(Skipping(outer), true, false) else top.(skip := true)])
    case Else =>
      if n == 0 then Fatal(ElseWithoutIf)
      else if stack[n - 1].seenElse then Fatal(ElseTwice)
      else
        var top, outer := stack[n - 1], stack[..n - 1];
        var skip := if top.accepted then true else if !Skipping(outer) then !top.skip else top.skip;
        Ok(outer + [top.(skip := skip, seenElse := true)])
    case End => if n == 0 then Fatal(UnmatchedEnd) else Ok(stack[..n - 1])
    case Text(_) => Ok(stack)
  }

  /** The lines that Get_line() returns, and the nesting at the end of the file. */
  datatype Outcome = Outcome(stack: seq<Frame>, lines: seq<string>)

  function Run(stack: seq<Frame>, lines: seq<Line>): Result<Outcome>
    decreases lines
  {
    if lines == [] then Ok(Outcome(stack, []))
    else
      match Step(stack, lines[0])
      case Fatal(f) => Fatal(f)
      case Ok(next) => Add(Returned(stack, lines[0]), Run(next, lines[1..]))
  }

  /** More lines in front. */
  function Add(lines: seq<string>, r: Result<Outcome>): Result<Outcome> {
    match r
    case Fatal(f) => Fatal(f)
    case Ok(o) => Ok(o.(lines := lines + o.lines))
  }

  lemma AddLaws(x: seq<string>, y: seq<string>, r: Result<Outcome>)
    ensures Add(x, Add(y, r)) == Add(x + y, r) && Add([], r) == r
  {
    if r.Ok? {
      assert x + (y + r.value.lines) == (x + y) + r.value.lines;
      assert [] + r.value.lines == r.value.lines;
    }
  }

  function Returned(stack: seq<Frame>, line: Line): seq<string> {
    if line.Text? && !Skipping(stack) then [line.s] else []
  }

  // ---- What conditionals mean ----

  /** A makefile as a tree. */
  datatype Items = Nil | Cons(head: Item, tail: Items)
  datatype Item = Plain(s: string) | Group(cond: bool, body: Items, rest: Branches)
  datatype Branches = Endif | ElseBranch(last: Items) | ElifBranch(cond: bool, body: Items, rest: Branches)

  /** The lines of a tree. */
  function Flatten(items: Items): seq<Line> {
    match items
    case Nil => []
    case Cons(Plain(s), tail) => [Text(s)] + Flatten(tail)
    case Cons(Group(cond, body, rest), tail) => [If(cond)] + Flatten(body) + FlattenRest(rest) + Flatten(tail)
  }

  function FlattenRest(rest: Branches): seq<Line> {
    match rest
    case Endif => [End]
    case ElseBranch(last) => [Else] + Flatten(last) + [End]
    case ElifBranch(cond, body, more) => [Elif(cond)] + Flatten(body) + FlattenRest(more)
  }

  /** The text lines of the branches that are taken: of each group the first
      one with a true condition, or else the last one. */
  function Taken(items: Items): seq<string> {
    match items
    case Nil => []
    case Cons(Plain(s), tail) => [s] + Taken(tail)
    case Cons(Group(cond, body, rest), tail) => (if cond then Taken(body) else TakenRest(rest)) + Taken(tail)
  }

  function TakenRest(rest: Branches): seq<string> {
    match rest
    case Endif => []
    case ElseBranch(last) => Taken(last)
    case ElifBranch(cond, body, more) => if cond then Taken(body) else TakenRest(more)
  }

  function Max(a: nat, b: nat): nat {
    if a < b then b else a
  }

  function Depth(items: Items): nat {
    match items
    case Nil => 0
    case Cons(Plain(_), tail) => Depth(tail)
    case Cons(Group(_, body, rest), tail) => Max(1 + Max(Depth(body), DepthRest(rest)), Depth(tail))
  }

  function DepthRest(rest: Branches): nat {
    match rest
    case Endif => 0
    case ElseBranch(last) => Depth(last)
    case ElifBranch(_, body, more) => Max(Depth(body), DepthRest(more))
  }

  // ---- The machine takes the right branches ----

  function Then(a: Result<Outcome>, lines: seq<Line>): Result<Outcome> {
    match a
    case Fatal(f) => Fatal(f)
    case Ok(o) => Add(o.lines, Run(o.stack, lines))
  }

  lemma {:induction false} RunAppend(stack: seq<Frame>, a: seq<Line>, b: seq<Line>)
    ensures Run(stack, a + b) == Then(Run(stack, a), b)
    decreases a
  {
    if a == [] {
      assert a + b == b;
      AddLaws([], [], Run(stack, b));
    } else {
      assert (a + b)[1..] == a[1..] + b;
      var step := Step(stack, a[0]);
      if step.Ok? {
        RunAppend(step.value, a[1..], b);
        var first := Run(step.value, a[1..]);
        if first.Ok? {
          AddLaws(Returned(stack, a[0]), first.value.lines, Run(first.value.stack, b));
        }
      }
    }
  }

  /** A run in two parts. */
  lemma RunBoth(stack: seq<Frame>, a: seq<Line>, b: seq<Line>, x: Outcome, y: Outcome)
    requires Run(stack, a) == Ok(x) && Run(x.stack, b) == Ok(y)
    ensures Run(stack, a + b) == Ok(Outcome(y.stack, x.lines + y.lines))
  {
    RunAppend(stack, a, b);
  }

  /** ... and in two parts after a control line. */
  lemma RunControl(stack: seq<Frame>, line: Line, a: seq<Line>, b: seq<Line>, next: seq<Frame>, x: Outcome, y: Outcome)
    requires !line.Text? && Step(stack, line) == Ok(next) && Run(next, a) == Ok(x) && Run(x.stack, b) == Ok(y)
    ensures Run(stack, [line] + a + b) == Ok(Outcome(y.stack, x.lines + y.lines))
  {
    RunBoth(next, a, b, x, y);
    var all := [line] + a + b;
    assert all[0] == line && all[1..] == a + b;
    AddLaws([], [], Run(next, a + b));
  }

  function Shown(stack: seq<Frame>, lines: seq<string>): seq<string> {
    if Skipping(stack) then [] else lines
  }

  /** The lines of a tree leave the nesting as it was, and exactly the lines of
      the branches taken are returned, none at all inside a skipped branch. */
  lemma {:induction false} RunItems(stack: seq<Frame>, items: Items)
    requires |stack| + Depth(items) < MAX_COND_DEPTH
    ensures Run(stack, Flatten(items)) == Ok(Outcome(stack, Shown(stack, Taken(items))))
    decreases items
  {
    match items
    case Nil =>
    case Cons(Plain(s), tail) =>
      assert Flatten(items)[1..] == Flatten(tail);
      RunItems(stack, tail);
      assert Shown(stack, Taken(items)) == Returned(stack, Text(s)) + Shown(stack, Taken(tail));
    case Cons(Group(cond, body, rest), tail) =>
      var inner := stack + [Frame(if cond then Skipping(stack) else true, cond, false)];
      assert inner[..|stack|] == stack && inner == stack + [inner[|stack|]];
      RunItems(inner, body);
      RunRest(stack, inner[|stack|], rest);
      RunItems(stack, tail);
      var mine := if cond then [] else Shown(stack, TakenRest(rest));
      var group := Outcome(stack, Shown(inner, Taken(body)) + mine);
      RunControl(stack, If(cond), Flatten(body), FlattenRest(rest), inner, Outcome(inner, Shown(inner, Taken(body))), Outcome(stack, mine));
      RunBoth(stack, [If(cond)] + Flatten(body) + FlattenRest(rest), Flatten(tail), group, Outcome(stack, Shown(stack, Taken(tail))));
      GroupShown(stack, inner, cond, Taken(body), TakenRest(rest), Taken(tail));
  }

  lemma GroupShown(stack: seq<Frame>, inner: seq<Frame>, cond: bool, body: seq<string>, rest: seq<string>, tail: seq<string>)
    requires Skipping(inner) == if cond then Skipping(stack) else true
    ensures Shown(stack, (if cond then body else rest) + tail) ==
            Shown(inner, body) + (if cond then [] else Shown(stack, rest)) + Shown(stack, tail)
  {
    if Skipping(stack) {
    } else if cond {
      assert body + [] + tail == body + tail;
    } else {
      assert [] + rest + tail == rest + tail;
    }
  }

  /** ... and so from any branch of a group to its end. */
  lemma {:induction false} RunRest(outer: seq<Frame>, top: Frame, rest: Branches)
    requires |outer| + 1 + DepthRest(rest) < MAX_COND_DEPTH && !top.seenElse && (!top.accepted ==> top.skip)
    ensures Run(outer + [top], FlattenRest(rest)) ==
            Ok(Outcome(outer, if top.accepted then [] else Shown(outer, TakenRest(rest))))
    decreases rest
  {
    var stack := outer + [top];
    assert stack[..|outer|] == outer;
    match rest
    case Endif =>
      RunEnd(stack);
    case ElseBranch(last) =>
      var next := Step(stack, Else).value;
      assert next[..|outer|] == outer;
      RunItems(next, last);
      RunEnd(next);
      RunControl(stack, Else, Flatten(last), [End], next, Outcome(next, Shown(next, Taken(last))), Outcome(outer, []));
      assert Shown(next, Taken(last)) + [] == if top.accepted then [] else Shown(outer, TakenRest(rest));
    case ElifBranch(cond, body, more) =>
      var next := Step(stack, Elif(cond)).value;
      assert next == outer + [next[|outer|]];
      RunItems(next, body);
      RunRest(outer, next[|outer|], more);
      var theirs := if next[|outer|].accepted then [] else Shown(outer, TakenRest(more));
      RunControl(stack, Elif(cond), Flatten(body), FlattenRest(more), next, Outcome(next, Shown(next, Taken(body))), Outcome(outer, theirs));
      assert Shown(next, Taken(body)) + theirs == if top.accepted then [] else Shown(outer, TakenRest(rest));
  }

  lemma RunEnd(stack: seq<Frame>)
    requires stack != []
    ensures Run(stack, [End]) == Ok(Outcome(stack[..|stack| - 1], []))
  {
    assert [End][1..] == [];
    AddLaws([], [], Run(stack[..|stack| - 1], []));
  }

  /** A run that ends well closes the open groups: what remains are the rest of
      the current branch, the further branches of its group, and so on. */
  ghost predicate Closes(stack: seq<Frame>, lines: seq<Line>)
    decreases |stack|
  {
    exists items :: |stack| + Depth(items) < MAX_COND_DEPTH &&
      if stack == [] then lines == Flatten(items)
      else exists rest, tail ::
        && |stack| + DepthRest(rest) < MAX_COND_DEPTH && (stack[|stack| - 1].seenElse ==> rest == Endif)
        && lines == Flatten(items) + FlattenRest(rest) + tail
        && Closes(stack[..|stack| - 1], tail)
  }

  lemma ClosesWith(stack: seq<Frame>, lines: seq<Line>, items: Items, rest: Branches, tail: seq<Line>)
    requires stack != [] && |stack| + Depth(items) < MAX_COND_DEPTH && |stack| + DepthRest(rest) < MAX_COND_DEPTH
    requires (stack[|stack| - 1].seenElse ==> rest == Endif) && lines == Flatten(items) + FlattenRest(rest) + tail
    requires Closes(stack[..|stack| - 1], tail)
    ensures Closes(stack, lines)
  {
  }

  /** A run that stops without a message and outside all groups has read the
      lines of a tree. */
  lemma {:induction false} RunCloses(stack: seq<Frame>, lines: seq<Line>)
    requires |stack| < MAX_COND_DEPTH && Run(stack, lines).Ok? && Run(stack, lines).value.stack == []
    ensures Closes(stack, lines)
    decreases lines
  {
    if lines == [] {
      assert Flatten(Nil) == [] && Depth(Nil) == 0;
    } else {
      hide Closes;
      RunCloses(Step(stack, lines[0]).value, lines[1..]);
      LineCloses(stack, lines, Step(stack, lines[0]).value);
    }
  }

  /** The first line. */
  lemma LineCloses(stack: seq<Frame>, lines: seq<Line>, next: seq<Frame>)
    requires lines != [] && |stack| < MAX_COND_DEPTH && Step(stack, lines[0]) == Ok(next) && Closes(next, lines[1..])
    ensures Closes(stack, lines)
  {
    hide Closes, Depth, DepthRest, Flatten, FlattenRest;
    var more := lines[1..];
    assert lines == [lines[0]] + more;
    match lines[0]
    case Text(s) => TextCloses(stack, s, more);
    case If(cond) =>
      assert next == stack + [next[|stack|]];
      IfCloses(stack, next[|stack|], cond, more);
    case Elif(cond) => BranchCloses(stack, lines, next);
    case Else => BranchCloses(stack, lines, next);
    case End => EndCloses(stack, lines, more);
  }

  lemma BranchCloses(stack: seq<Frame>, lines: seq<Line>, next: seq<Frame>)
    requires lines != [] && (lines[0].Elif? || lines[0].Else?)
    requires |stack| < MAX_COND_DEPTH && Step(stack, lines[0]) == Ok(next) && Closes(next, lines[1..])
    ensures Closes(stack, lines)
  {
    hide Closes, Depth, DepthRest, Flatten, FlattenRest;
    var n := |stack|;
    assert |next| == n > 0 && next[..n - 1] == stack[..n - 1] && lines == [lines[0]] + lines[1..];
    var items, rest, tail := Opened(next, lines[1..]);
    if lines[0].Elif? {
      ElifCloses(stack, lines[0].cond, items, rest, tail, lines);
    } else {
      ElseEnds(rest);
      ElseCloses(stack, items, tail, lines);
    }
  }

  lemma ElseEnds(rest: Branches)
    ensures rest == Endif ==> FlattenRest(rest) == [End]
  {
  }

  lemma EndCloses(stack: seq<Frame>, lines: seq<Line>, more: seq<Line>)
    requires stack != [] && |stack| < MAX_COND_DEPTH && lines == [End] + more && Closes(stack[..|stack| - 1], more)
    ensures Closes(stack, lines)
  {
    hide Closes;
    assert lines == Flatten(Nil) + FlattenRest(Endif) + more && Depth(Nil) == DepthRest(Endif) == 0;
    ClosesWith(stack, lines, Nil, Endif, more);
  }

  /** What is known of the lines behind an open group. */
  lemma Opened(stack: seq<Frame>, lines: seq<Line>) returns (items: Items, rest: Branches, tail: seq<Line>)
    requires stack != [] && Closes(stack, lines)
    ensures |stack| + Depth(items) < MAX_COND_DEPTH && |stack| + DepthRest(rest) < MAX_COND_DEPTH
    ensures (stack[|stack| - 1].seenElse ==> rest == Endif) && lines == Flatten(items) + FlattenRest(rest) + tail
    ensures Closes(stack[..|stack| - 1], tail)
  {
    items :| |stack| + Depth(items) < MAX_COND_DEPTH && exists rest, tail ::
      && |stack| + DepthRest(rest) < MAX_COND_DEPTH && (stack[|stack| - 1].seenElse ==> rest == Endif)
      && lines == Flatten(items) + FlattenRest(rest) + tail
      && Closes(stack[..|stack| - 1], tail);
    rest, tail :|
      && |stack| + DepthRest(rest) < MAX_COND_DEPTH && (stack[|stack| - 1].seenElse ==> rest == Endif)
      && lines == Flatten(items) + FlattenRest(rest) + tail
      && Closes(stack[..|stack| - 1], tail);
  }

  lemma TextCloses(stack: seq<Frame>, s: string, more: seq<Line>)
    requires Closes(stack, more)
    ensures Closes(stack, [Text(s)] + more)
  {
    if stack == [] {
      var items :| Depth(items) < MAX_COND_DEPTH && more == Flatten(items);
      var longer := Cons(Plain(s), items);
      assert Flatten(longer) == [Text(s)] + more && Depth(longer) == Depth(items);
    } else {
      var items, rest, tail := Opened(stack, more);
      var longer := Cons(Plain(s), items);
      assert [Text(s)] + more == Flatten(longer) + FlattenRest(rest) + tail && Depth(longer) == Depth(items);
      ClosesWith(stack, [Text(s)] + more, longer, rest, tail);
    }
  }

  lemma IfCloses(stack: seq<Frame>, top: Frame, cond: bool, more: seq<Line>)
    requires Closes(stack + [top], more)
    ensures Closes(stack, [If(cond)] + more)
  {
    var body, rest, tail := Opened(stack + [top], more);
    assert (stack + [top])[..|stack|] == stack;
    GroupCloses(stack, cond, body, rest, tail, [If(cond)] + more);
  }

  lemma GroupCloses(stack: seq<Frame>, cond: bool, body: Items, rest: Branches, tail: seq<Line>, lines: seq<Line>)
    requires |stack| + 1 + Depth(body) < MAX_COND_DEPTH && |stack| + 1 + DepthRest(rest) < MAX_COND_DEPTH
    requires Closes(stack, tail) && lines == [If(cond)] + (Flatten(body) + FlattenRest(rest) + tail)
    ensures Closes(stack, lines)
  {
    if stack == [] {
      ClosesOutside(stack, tail);
      var items :| Depth(items) < MAX_COND_DEPTH && Flatten(items) == tail;
      var all := Cons(Group(cond, body, rest), items);
      Regroup([If(cond)], Flatten(body), FlattenRest(rest), tail, [], []);
      assert tail + [] + [] == tail && Flatten(all) + [] + [] == Flatten(all);
      assert Flatten(all) == lines && Depth(all) < MAX_COND_DEPTH;
    } else {
      InnerGroupCloses(stack, cond, body, rest, tail, lines);
    }
  }

  lemma InnerGroupCloses(stack: seq<Frame>, cond: bool, body: Items, rest: Branches, tail: seq<Line>, lines: seq<Line>)
    requires |stack| + 1 + Depth(body) < MAX_COND_DEPTH && |stack| + 1 + DepthRest(rest) < MAX_COND_DEPTH
    requires Closes(stack, tail) && lines == [If(cond)] + (Flatten(body) + FlattenRest(rest) + tail) && stack != []
    ensures Closes(stack, lines)
  {
    hide Closes;
    var items, last, end := Opened(stack, tail);
    var all := Cons(Group(cond, body, rest), items);
    Regroup([If(cond)], Flatten(body), FlattenRest(rest), Flatten(items), FlattenRest(last), end);
    ClosesWith(stack, lines, all, last, end);
  }

  lemma Regroup(a: seq<Line>, b: seq<Line>, c: seq<Line>, d: seq<Line>, e: seq<Line>, f: seq<Line>)
    ensures a + (b + c + (d + e + f)) == (a + b + c + d) + e + f
  {
  }

  lemma ElifCloses(stack: seq<Frame>, cond: bool, items: Items, rest: Branches, tail: seq<Line>, lines: seq<Line>)
    requires stack != [] && !stack[|stack| - 1].seenElse && Closes(stack[..|stack| - 1], tail)
    requires |stack| + Depth(items) < MAX_COND_DEPTH && |stack| + DepthRest(rest) < MAX_COND_DEPTH
    requires lines == [Elif(cond)] + (Flatten(items) + FlattenRest(rest) + tail)
    ensures Closes(stack, lines)
  {
    hide Closes;
    var all := ElifBranch(cond, items, rest);
    assert FlattenRest(all) + tail == lines && Flatten(Nil) + FlattenRest(all) == FlattenRest(all);
    ClosesWith(stack, lines, Nil, all, tail);
  }

  lemma ElseCloses(stack: seq<Frame>, items: Items, tail: seq<Line>, lines: seq<Line>)
    requires stack != [] && !stack[|stack| - 1].seenElse && Closes(stack[..|stack| - 1], tail)
    requires |stack| + Depth(items) < MAX_COND_DEPTH && lines == [Else] + (Flatten(items) + [End] + tail)
    ensures Closes(stack, lines)
  {
    hide Closes;
    var all := ElseBranch(items);
    assert FlattenRest(all) + tail == lines && Flatten(Nil) + FlattenRest(all) == FlattenRest(all);
    ClosesWith(stack, lines, Nil, all, tail);
  }

  lemma ClosesOutside(stack: seq<Frame>, lines: seq<Line>)
    requires stack == [] && Closes(stack, lines)
    ensures exists items :: Depth(items) < MAX_COND_DEPTH && Flatten(items) == lines
  {
  }

  /** Reading a file goes well exactly when its lines are well nested, at most
      MAX_COND_DEPTH - 1 deep; then the lines returned are those of the branches
      taken. */
  lemma Conditionals(lines: seq<Line>)
    ensures (Run([], lines).Ok? && Run([], lines).value.stack == []) <==>
            exists items :: Depth(items) < MAX_COND_DEPTH && Flatten(items) == lines
    ensures forall items :: Depth(items) < MAX_COND_DEPTH && Flatten(items) == lines ==>
              Run([], lines) == Ok(Outcome([], Taken(items)))
  {
    if Run([], lines).Ok? && Run([], lines).value.stack == [] {
      RunCloses([], lines);
      ClosesOutside([], lines);
    }
    forall items | Depth(items) < MAX_COND_DEPTH && Flatten(items) == lines
      ensures Run([], lines) == Ok(Outcome([], Taken(items)))
    {
      RunItems([], items);
    }
  }

  /** Where lines are not skipped, no enclosing branch is skipped. */
  ghost predicate Layered(stack: seq<Frame>) {
    forall i :: 0 <= i < |stack| && !stack[i].skip ==> !Skipping(stack[..i])
  }

  lemma StepKeepsLayers(stack: seq<Frame>, line: Line)
    requires Layered(stack) && Step(stack, line).Ok?
    ensures Layered(Step(stack, line).value)
  {
    var next := Step(stack, line).value;
    forall i | 0 <= i < |next| && !next[i].skip ensures !Skipping(next[..i]) {
      assert i < |stack| ==> next[..i] == stack[..i];
      assert i == |stack| ==> next[..i] == stack;
    }
  }

  /** ... at every point of a run: a line that is returned is inside taken
      branches only. */
  lemma {:induction false} TakenAllTheWay(stack: seq<Frame>, lines: seq<Line>, i: nat)
    requires Layered(stack) && Run(stack, lines).Ok? && !Skipping(Run(stack, lines).value.stack)
    requires i < |Run(stack, lines).value.stack|
    ensures !Run(stack, lines).value.stack[i].skip
    decreases lines
  {
    if lines == [] {
      NotSkipped(stack, i);
    } else {
      StepKeepsLayers(stack, lines[0]);
      TakenAllTheWay(Step(stack, lines[0]).value, lines[1..], i);
    }
  }

  lemma {:induction false} NotSkipped(stack: seq<Frame>, i: nat)
    requires Layered(stack) && !Skipping(stack) && i < |stack|
    ensures !stack[i].skip
  {
    var last := |stack| - 1;
    if i < last {
      forall k | 0 <= k < last && !stack[..last][k].skip ensures !Skipping(stack[..last][..k]) {
        assert stack[..last][..k] == stack[..k];
      }
      NotSkipped(stack[..last], i);
    }
  }

  // ---- The machine as it is written ----

  /** The bits of ifcntl[]. */
  datatype Control = Control(seenIf: bool, seenElse: bool, seenElif: bool, acceptIf: bool, acceptElif: bool)

  const SEEN_END := Control(false, false, false, false, false)

  function FrameOf(action: int, ctl: Control): Frame {
    Frame(action == 1, ctl.acceptIf || ctl.acceptElif, ctl.seenElse)
  }

  /** The levels 1 to `n` of the two tables. */
  function StackOf(action: seq<int>, ifcntl: seq<Control>, n: nat): (r: seq<Frame>)
    requires n < |action| && n < |ifcntl|
    ensures |r| == n && forall l :: 0 <= l < n ==> r[l] == FrameOf(action[l + 1], ifcntl[l + 1])
  {
    if n == 0 then [] else StackOf(action, ifcntl, n - 1) + [FrameOf(action[n], ifcntl[n])]
  }

  ghost predicate Tables(action: seq<int>, ifcntl: seq<Control>, n: int) {
    && |action| == |ifcntl| == MAX_COND_DEPTH && 0 <= n < MAX_COND_DEPTH
    && action[0] == 0 && ifcntl[0] == SEEN_END
    && (forall l :: n < l < MAX_COND_DEPTH ==> ifcntl[l] == SEEN_END)
    && (forall l :: 0 < l <= n ==> Level(action[l], ifcntl[l]))
  }

  ghost predicate Level(action: int, ctl: Control) {
    && ctl.seenIf && action in {0, 1}
    && (!ctl.seenElse && !ctl.acceptIf && !ctl.acceptElif ==> action == 1)
  }

  lemma SkippingIs(action: seq<int>, ifcntl: seq<Control>, n: int)
    requires 0 <= n < |action| == |ifcntl| && action[0] == 0
    ensures Skipping(StackOf(action, ifcntl, n)) == (action[n] == 1)
  {
  }

  /** Only the top level has changed, or one has been added. */
  lemma TopChanged(a: seq<int>, c: seq<Control>, b: seq<int>, d: seq<Control>, n: int)
    requires 0 < n < |a| == |b| == |c| == |d|
    requires forall l :: 0 <= l < n ==> a[l] == b[l] && c[l] == d[l]
    ensures StackOf(b, d, n) == StackOf(a, c, n - 1) + [FrameOf(b[n], d[n])]
    ensures StackOf(a, c, n)[..n - 1] == StackOf(a, c, n - 1)
  {
  }

  lemma SameStack(a: seq<int>, c: seq<Control>, b: seq<int>, d: seq<Control>, n: nat)
    requires n < |a| == |b| == |c| == |d| && forall l :: 0 <= l <= n ==> a[l] == b[l] && c[l] == d[l]
    ensures StackOf(a, c, n) == StackOf(b, d, n)
  {
  }

  lemma ElseStep(a: seq<int>, c: seq<Control>, b: seq<int>, d: seq<Control>, n: nat)
    requires 0 < n && Tables(a, c, n) && |a| == |b| == |c| == |d| && !c[n].seenElse
    requires forall l :: 0 <= l < |a| && l != n ==> a[l] == b[l] && c[l] == d[l]
    requires b[n] == if c[n].acceptIf || c[n].acceptElif then 1 else if a[n - 1] != 1 then 1 - a[n] else a[n]
    requires d[n] == c[n].(seenElse := true)
    ensures Step(StackOf(a, c, n), Else) == Ok(StackOf(b, d, n)) && Tables(b, d, n)
  {
    TopChanged(a, c, b, d, n);
    SkippingIs(a, c, n - 1);
  }

  lemma IfStep(a: seq<int>, c: seq<Control>, b: seq<int>, d: seq<Control>, n: nat, cond: bool)
    requires Tables(a, c, n) && n + 1 < MAX_COND_DEPTH == |b| == |d|
    requires forall l :: 0 <= l < |a| && l != n + 1 ==> a[l] == b[l] && c[l] == d[l]
    requires d[n + 1].seenIf && !d[n + 1].seenElse && b[n + 1] == (if cond then a[n] else 1)
    requires (d[n + 1].acceptIf || d[n + 1].acceptElif) == cond
    ensures Step(StackOf(a, c, n), If(cond)) == Ok(StackOf(b, d, n + 1)) && Tables(b, d, n + 1)
  {
    SkippingIs(a, c, n);
    TopChanged(a, c, b, d, n + 1);
  }

  lemma ElifStep(a: seq<int>, c: seq<Control>, b: seq<int>, d: seq<Control>, n: nat, cond: bool)
    requires 0 < n && Tables(a, c, n) && |a| == |b| == |c| == |d| && !c[n].seenElse
    requires forall l :: 0 <= l < |a| && l != n ==> a[l] == b[l] && c[l] == d[l]
    requires d[n].seenIf == c[n].seenIf && d[n].seenElse == c[n].seenElse
    requires var was := c[n].acceptIf || c[n].acceptElif;
             b[n] == (if cond && !was then a[n - 1] else 1) && (d[n].acceptIf || d[n].acceptElif) == (was || cond)
    ensures Step(StackOf(a, c, n), Elif(cond)) == Ok(StackOf(b, d, n)) && Tables(b, d, n)
  {
    SkippingIs(a, c, n - 1);
    TopChanged(a, c, b, d, n);
  }

  class Reader {
    const action: array<int>        // 1: skip
    const ifcntl: array<Control>
    var nest: int                   // Nest_level
    var skip: bool

    ghost predicate Valid()
      reads this, action, ifcntl
    {
      Tables(action[..], ifcntl[..], nest) && skip == (action[nest] == 1)
    }

    ghost function Stack(): seq<Frame>
      requires Valid()
      reads this, action, ifcntl
    {
      StackOf(action[..], ifcntl[..], nest)
    }

    constructor ()
      ensures Valid() && Stack() == [] && !skip && fresh(action) && fresh(ifcntl)
    {
      action := new int[MAX_COND_DEPTH](_ => 0);
      ifcntl := new Control[MAX_COND_DEPTH](_ => SEEN_END);
      nest := 0;
      skip := false;
    }

    /** The outcome `r` of a control line in the state with stack `was`. */
    ghost predicate Did(was: seq<Frame>, line: Line, r: Result<bool>)
      reads this, action, ifcntl
    {
      match Step(was, line)
      case Fatal(f) => r == Fatal(f)
      case Ok(next) => Valid() && Stack() == next && r == Ok(skip)
    }

    /** _handle_conditional(): whether the lines that follow are skipped. */
    method HandleConditional(line: Line) returns (r: Result<bool>)
      requires Valid() && !line.Text?
      modifies `nest, `skip, action, ifcntl
      ensures Did(old(Stack()), line, r)
    {
      match line
      case If(cond) => r := HandleIf(cond);
      case Elif(cond) => r := HandleElif(cond);
      case Else => r := HandleElse();
      case End => r := HandleEnd();
    }

    /** .IF, .IFEQ and .IFNEQ */
    method HandleIf(cond: bool) returns (r: Result<bool>)
      requires Valid()
      modifies `nest, `skip, action, ifcntl
      ensures Did(old(Stack()), If(cond), r)
    {
      ghost var a, c, n := action[..], ifcntl[..], nest;
      if nest + 1 == MAX_COND_DEPTH {
        return Fatal(TooDeep);
      }
      nest := nest + 1;
      action[nest] := 1;
      ifcntl[nest] := ifcntl[nest].(seenIf := true);
      Branch(cond, false);
      IfStep(a, c, action[..], ifcntl[..], n, cond);
      skip := action[nest] == 1;
      r := Ok(skip);
    }

    /** .ELIF */
    method HandleElif(cond: bool) returns (r: Result<bool>)
      requires Valid()
      modifies `nest, `skip, action, ifcntl
      ensures Did(old(Stack()), Elif(cond), r)
    {
      ghost var a, c, n := action[..], ifcntl[..], nest;
      if !ifcntl[nest].seenIf || ifcntl[nest].seenElse {
        return Fatal(ElifWithoutIf);
      }
      ifcntl[nest] := ifcntl[nest].(seenElif := true);
      Branch(cond, true);
      ElifStep(a, c, action[..], ifcntl[..], nest, cond);
      skip := action[nest] == 1;
      r := Ok(skip);
    }

    /** .ELSE */
    method HandleElse() returns (r: Result<bool>)
      requires Valid()
      modifies `nest, `skip, action, ifcntl
      ensures Did(old(Stack()), Else, r)
    {
      ghost var a, c, n := action[..], ifcntl[..], nest;
      if nest <= 0 {
        return Fatal(ElseWithoutIf);
      }
      if ifcntl[nest].seenElse {
        return Fatal(ElseTwice);
      }
      SkippingIs(a, c, n - 1);
      var flip := action[nest];
      if ifcntl[nest].acceptIf || ifcntl[nest].acceptElif {
        flip := 1;
      } else if action[nest - 1] != 1 {
        flip := 1 - flip;
      }
      action[nest] := flip;
      ifcntl[nest] := ifcntl[nest].(seenElse := true);
      ElseStep(a, c, action[..], ifcntl[..], nest);
      skip := action[nest] == 1;
      r := Ok(skip);
    }

    /** .END and .ENDIF */
    method HandleEnd() returns (r: Result<bool>)
      requires Valid()
      modifies `nest, `skip, action, ifcntl
      ensures Did(old(Stack()), End, r)
    {
      ghost var a, c, n := action[..], ifcntl[..], nest;
      ifcntl[nest] := SEEN_END;
      nest := nest - 1;
      if nest < 0 {
        return Fatal(UnmatchedEnd);
      }
      TopChanged(a, c, a, c, n);
      SameStack(a, c, action[..], ifcntl[..], nest);
      skip := action[nest] == 1;
      r := Ok(skip);
    }

    /** The common end of .IF and .ELIF. */
    method Branch(cond: bool, elif: bool)
      requires action.Length == ifcntl.Length == MAX_COND_DEPTH && 0 < nest < MAX_COND_DEPTH
      modifies action, ifcntl
      ensures forall l :: 0 <= l < MAX_COND_DEPTH && l != nest ==> action[l] == old(action[l]) && ifcntl[l] == old(ifcntl[l])
      ensures ifcntl[nest].seenIf == old(ifcntl[nest].seenIf) && ifcntl[nest].seenElse == old(ifcntl[nest].seenElse)
      ensures var was := old(ifcntl[nest].acceptIf || ifcntl[nest].acceptElif);
              && action[nest] == (if cond && !was then action[nest - 1] else 1)
              && (ifcntl[nest].acceptIf || ifcntl[nest].acceptElif) == (was || cond)
    {
      if cond {
        if !(ifcntl[nest].acceptIf || ifcntl[nest].acceptElif) {
          action[nest] := action[nest - 1];
          ifcntl[nest] := if elif then ifcntl[nest].(acceptElif := true) else ifcntl[nest].(acceptIf := true);
        } else {
          action[nest] := 1;
        }
      } else {
        action[nest] := 1;
      }
    }

    /** Read a whole file: the lines that Get_line() returns until its end. */
    method ReadFile(lines: seq<Line>) returns (r: Result<seq<string>>)
      requires Valid() && Stack() == []
      modifies `nest, `skip, action, ifcntl
      ensures match Run([], lines)
              case Fatal(f) => r == Fatal(f)
              case Ok(o) => r == Ok(o.lines) && Valid() && Stack() == o.stack
    {
      var out: seq<string> := [];
      AddLaws([], [], Run([], lines));
      for i := 0 to |lines|
        invariant Valid() && Run([], lines) == Add(out, Run(Stack(), lines[i..]))
      {
        assert lines[i..][1..] == lines[i + 1..];
        ghost var stack := Stack();
        SkippingIs(action[..], ifcntl[..], nest);
        if Step(stack, lines[i]).Ok? {
          AddLaws(out, Returned(stack, lines[i]), Run(Step(stack, lines[i]).value, lines[i + 1..]));
        }
        if lines[i].Text? {
          assert out == out + [];
          if !skip {
            out := out + [lines[i].s];
          }
        } else {
          assert out == out + [];
          var res := HandleConditional(lines[i]);
          if res.Fatal? {
            return Fatal(res.fault);
          }
        }
      }
      assert out + [] == out;
      r := Ok(out);
    }
  }
}
