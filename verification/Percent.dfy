/** The pattern automata of percent.c: one machine for every %-target, run in
    lockstep over a name, and the exact language that they accept. */
module Percent {

  const NUL: char := '\0'
  const NIL := -1

  /** A state of a machine; states are numbered from the start of its table. */
  datatype State = State(symbol: char, startPercent: bool, endPercent: bool, accept: bool, hit: int, miss: int)

  datatype Status = Active | Accepted | Failed

  /** A machine (struct DFA with the status of its NFA entry).  pstart and pend
      are offsets into the name that is matched. */
  datatype Machine = Machine(name: string, states: seq<State>, cState: int, pstart: int, pend: int, status: Status)

  /** An entry of the list of matches (struct DFALINK): which machine, the text
      of %, and the number of the state in which it accepted. */
  datatype Link = Link(meta: nat, per: string, state: int)

  // ---- Patterns and texts ----

  predicate NulFree(s: string) {
    forall i :: 0 <= i < |s| ==> s[i] != NUL
  }

  /** A C string, read at a position up to its terminator. */
  function CharAt(text: string, k: nat): char
    requires k <= |text|
  {
    if k < |text| then text[k] else NUL
  }

  /** The name has its only % at position `p`. */
  ghost predicate Meta(name: string, p: nat) {
    && NulFree(name) && p < |name| && name[p] == '%'
    && forall i :: 0 <= i < |name| && i != p ==> name[i] != '%'
  }

  /** Where the first % is, or the length. */
  function PercentAt(name: string): (p: nat)
    ensures p <= |name| && (p < |name| ==> name[p] == '%') && forall i :: 0 <= i < p ==> name[i] != '%'
  {
    if name == "" || name[0] == '%' then 0 else 1 + PercentAt(name[1..])
  }

  /** A %-target: exactly one %. */
  ghost predicate IsMeta(name: string) {
    Meta(name, PercentAt(name))
  }

  // ---- The state table ----

  /** Where the machine goes back to: behind the last % before position `i`. */
  function PerState(name: string, i: nat): int
    requires i <= |name|
  {
    if i == 0 then NIL else if name[i - 1] == '%' then i else PerState(name, i - 1)
  }

  function StateAt(name: string, i: nat): State
    requires i <= |name|
  {
    var endPercent := i > 0 && name[i - 1] == '%';
    if i == |name| then State(NUL, false, endPercent, true, 0, PerState(name, i))
    else if name[i] == '%' then State(NUL, true, false, false, i + 1, i + 1)
    else State(name[i], false, endPercent, false, i + 1, PerState(name, i))
  }

  function Table(name: string): seq<State> {
    seq(|name| + 1, i requires 0 <= i <= |name| => StateAt(name, i))
  }

  function Fresh(name: string): Machine {
    Machine(name, Table(name), 0, 0, 0, Active)
  }

  /** Build the machine for a name; `error` says that there is more than one %. */
  method BuildDfa(name: string) returns (dfa: Machine, error: bool)
    requires NulFree(name)
    ensures dfa == Fresh(name)
    ensures error <==> exists i, j :: 0 <= i < j < |name| && name[i] == '%' && name[j] == '%'
  {
    var states: seq<State> := [];
    var perState, pcount, endPercent := NIL, 0, false;
    error := false;
    var i := 0;
    while true
      invariant 0 <= i <= |name| && |states| == i
      invariant forall k :: 0 <= k < i ==> states[k] == StateAt(name, k)
      invariant perState == PerState(name, i) && endPercent == (i > 0 && name[i - 1] == '%')
      invariant pcount == 0 ==> forall k :: 0 <= k < i ==> name[k] != '%'
      invariant pcount > 0 ==> exists k :: 0 <= k < i && name[k] == '%'
      invariant error <==> exists k, j :: 0 <= k < j < i && name[k] == '%' && name[j] == '%'
      decreases |name| - i
    {
      var c := CharAt(name, i);
      if c == '%' {
        if pcount > 0 {
          error := true;
        }
        pcount := pcount + 1;
        perState := i + 1;
        states := states + [State(NUL, true, false, false, i + 1, i + 1)];
        endPercent := true;
      } else {
        states := states + [State(c, false, endPercent, c == NUL, if c == NUL then 0 else i + 1, perState)];
        endPercent := false;
      }
      if c == NUL {
        break;
      }
      i := i + 1;
    }
    assert states == Table(name);
    dfa := Machine(name, states, 0, 0, 0, Active);
  }

  // ---- One step ----

  /** The machine is in one of its states. */
  ghost predicate Runnable(m: Machine) {
    && IsMeta(m.name) && m.states == Table(m.name)
    && 0 <= m.cState <= |m.name|
  }

  /** The state whose symbol is compared: a % stands for the one behind it. */
  function Current(m: Machine): int
    requires 0 <= m.cState < |m.states|
  {
    if m.states[m.cState].startPercent then m.cState + 1 else m.cState
  }

  lemma CurrentIsState(m: Machine)
    requires Runnable(m)
    ensures m.cState < |m.states| && Current(m) < |m.states| && !m.states[Current(m)].startPercent
  {
  }

  /** _shift_dfa(): one character. */
  function Shift(m: Machine, text: string, k: nat): (r: Machine)
    requires 0 <= m.cState < |m.states| && Current(m) < |m.states| && k <= |text|
  {
    var c, sp := CharAt(text, k), m.states[Current(m)];
    var s := if Current(m) != m.cState then m.(pstart := k) else m;
    if sp.symbol == c then
      var t := if sp.endPercent then s.(pend := k) else s;
      if sp.accept then t.(status := Accepted) else t.(cState := sp.hit)
    else if sp.miss == NIL || c == NUL then s.(cState := sp.miss, status := Failed)
    else s.(cState := sp.miss)
  }

  /** The terminator stops every machine, and only there does one accept. */
  lemma ShiftAtNul(m: Machine, text: string, k: nat)
    requires Runnable(m) && m.status == Active && NulFree(text) && k <= |text|
    ensures m.cState < |m.states| && Current(m) < |m.states|
    ensures k == |text| ==> Shift(m, text, k).status != Active
    ensures k < |text| ==> Shift(m, text, k).status != Accepted
    ensures Shift(m, text, k).status == Active ==> Runnable(Shift(m, text, k))
    ensures Shift(m, text, k).name == m.name && Shift(m, text, k).states == m.states
  {
    CurrentIsState(m);
    PerStateBounds(m.name, Current(m));
    assert m.states[Current(m)] == StateAt(m.name, Current(m));
  }

  lemma {:induction false} PerStateBounds(name: string, i: nat)
    requires i <= |name|
    ensures PerState(name, i) == NIL || 0 < PerState(name, i) <= i
  {
    if i > 0 {
      PerStateBounds(name, i - 1);
    }
  }

  // ---- A machine alone ----

  /** The machine reads on from position `k` until it accepts or fails. */
  function RunFrom(m: Machine, text: string, k: nat): (r: Machine)
    requires m.status == Active ==> k <= |text| && Runnable(m) && NulFree(text)
    decreases if m.status == Active then |text| + 1 - k else 0
  {
    if m.status != Active then m
    else
      ShiftAtNul(m, text, k);
      RunFrom(Shift(m, text, k), text, k + 1)
  }

  lemma RunStep(m: Machine, text: string, k: nat)
    requires m.status == Active && k <= |text| && Runnable(m) && NulFree(text)
    ensures m.cState < |m.states| && Current(m) < |m.states|
    ensures var r := Shift(m, text, k);
            && r.name == m.name && r.states == m.states
            && (r.status == Active ==> Runnable(r) && k < |text| && RunFrom(m, text, k) == RunFrom(r, text, k + 1))
            && (r.status != Active ==> RunFrom(m, text, k) == r)
  {
    ShiftAtNul(m, text, k);
  }

  // ---- The language ----

  /** A block that the scan skips: the first `j` characters of the suffix, then
      one that is not the next character of the suffix. */
  ghost predicate Block(s: string, suffix: string, j: nat) {
    j < |s| && j <= |suffix| && s[..j] == suffix[..j] && (j < |suffix| ==> s[j] != suffix[j])
  }

  /** What % can stand for in front of the suffix: a sequence of blocks. */
  ghost predicate IsStem(s: string, suffix: string) {
    s == "" || exists j: nat :: Block(s, suffix, j) && IsStem(s[j + 1..], suffix)
  }

  /** From position `b` on, the text is a stem and the suffix. */
  ghost predicate Rest(text: string, b: nat, suffix: string) {
    && b + |suffix| <= |text|
    && text[|text| - |suffix|..] == suffix && IsStem(text[b..|text| - |suffix|], suffix)
  }

  /** Skipping one block: `j` characters of the suffix were matched, the next
      character is another one. */
  lemma SkipBlock(text: string, b: nat, j: nat, suffix: string)
    requires b + j < |text| && j <= |suffix| && text[b..b + j] == suffix[..j]
    requires j < |suffix| ==> text[b + j] != suffix[j]
    ensures Rest(text, b, suffix) <==> Rest(text, b + j + 1, suffix)
  {
    hide IsStem, Block;
    if Rest(text, b + j + 1, suffix) {
      BlockInFront(text[b..|text| - |suffix|], text, b, j, suffix);
    }
    if Rest(text, b, suffix) {
      var s := text[b..|text| - |suffix|];
      assert text[b..][j] == text[b + j];
      if s != "" {
        BlockBehind(s, text, b, j, suffix);
      }
    }
  }

  lemma BlockInFront(s: string, text: string, b: nat, j: nat, suffix: string)
    requires b + j < |text| - |suffix| && j <= |suffix| && text[b..b + j] == suffix[..j]
    requires j < |suffix| ==> text[b + j] != suffix[j]
    requires s == text[b..|text| - |suffix|] && IsStem(text[b + j + 1..|text| - |suffix|], suffix)
    ensures IsStem(s, suffix)
  {
    assert s[..j] == text[b..b + j] && s[j + 1..] == text[b + j + 1..|text| - |suffix|];
    assert Block(s, suffix, j);
  }

  lemma BlockBehind(s: string, text: string, b: nat, j: nat, suffix: string)
    requires b + j < |text| && j <= |suffix| && text[b..b + j] == suffix[..j]
    requires j < |suffix| ==> text[b + j] != suffix[j]
    requires b + |suffix| <= |text| && s == text[b..|text| - |suffix|] && s != "" && IsStem(s, suffix)
    ensures b + j < |text| - |suffix| && IsStem(text[b + j + 1..|text| - |suffix|], suffix)
  {
    var i: nat :| Block(s, suffix, i) && IsStem(s[i + 1..], suffix);
    BlockIsUnique(text, b, j, suffix, i);
    assert s[j + 1..] == text[b + j + 1..|text| - |suffix|];
  }

  lemma BlockIsUnique(text: string, b: nat, j: nat, suffix: string, i: nat)
    requires b + j < |text| && j <= |suffix| && text[b..b + j] == suffix[..j]
    requires j < |suffix| ==> text[b + j] != suffix[j]
    requires b + |suffix| <= |text| && Block(text[b..|text| - |suffix|], suffix, i)
    ensures i == j
  {
    var s := text[b..|text| - |suffix|];
    forall x | 0 <= x < j ensures text[b + x] == suffix[x] {
      assert text[b..b + j][x] == suffix[..j][x];
    }
    forall x | 0 <= x < i ensures text[b + x] == suffix[x] {
      assert s[..i][x] == suffix[..i][x];
    }
  }

  /** The machine is scanning for the suffix: an attempt began at `b`, and `k`
      is reached. */
  ghost predicate Scanning(m: Machine, p: nat, text: string, b: nat, k: nat) {
    && Meta(m.name, p) && m.states == Table(m.name) && m.status == Active && b <= k <= |text| && NulFree(text)
    && k - b <= |m.name| - p - 1
    && (m.cState == p + 1 + (k - b) || (m.cState == p && k == b))
    && text[b..k] == m.name[p + 1..][..k - b]
    && (k > b ==> m.pend == b)
  }

  lemma {:induction false} PerStateBehind(name: string, p: nat, i: nat)
    requires Meta(name, p) && i <= |name|
    ensures PerState(name, i) == if i <= p then NIL else p + 1
  {
    if i > 0 {
      PerStateBehind(name, p, i - 1);
    }
  }

  /** The states behind the %. */
  lemma ScanState(name: string, p: nat, j: nat)
    requires Meta(name, p) && p + 1 + j <= |name|
    ensures |Table(name)| == |name| + 1 && PercentAt(name) == p
    ensures Table(name)[p].startPercent
    ensures var suffix := name[p + 1..];
            Table(name)[p + 1 + j] ==
            if j == |suffix| then State(NUL, false, j == 0, true, 0, p + 1)
            else State(suffix[j], false, j == 0, false, p + 2 + j, p + 1)
    ensures NulFree(name[p + 1..])
  {
    PerStateBehind(name, p, p + 1 + j);
  }

  /** One character of the scan. */
  lemma ScanStep(m: Machine, p: nat, text: string, b: nat, k: nat)
    requires Scanning(m, p, text, b, k)
    ensures Runnable(m) && m.cState < |m.states| && Current(m) == p + 1 + (k - b) && Current(m) < |m.states|
    ensures var suffix, j, r := m.name[p + 1..], k - b, Shift(m, text, k);
            && r.pstart == (if m.cState == p then k else m.pstart) && (k < |text| ==> r.cState != p)
            && (if j < |suffix| && k < |text| && text[k] == suffix[j] then Scanning(r, p, text, b, k + 1)
                else if k < |text| then Scanning(r, p, text, k + 1, k + 1) && r.cState == p + 1
                else if j == |suffix| then r.status == Accepted && r.pend == b && r.cState == m.cState
                else r.status == Failed)
  {
    hide Table, Meta;
    var suffix, j := m.name[p + 1..], k - b;
    ScanState(m.name, p, j);
    if j < |suffix| && k < |text| && text[k] == suffix[j] {
      assert text[b..k + 1] == text[b..k] + [text[k]] == suffix[..j + 1];
    }
  }

  /** How the scan from `b` ends, read at `k`. */
  ghost predicate Scanned(m: Machine, r: Machine, p: nat, text: string, b: nat, k: nat, suffix: string) {
    && (r.status == Accepted <==> Rest(text, b, suffix))
    && (r.status == Accepted ==>
         && r.pend == |text| - |suffix| && r.pstart == (if m.cState == p then k else m.pstart)
         && r.cState == (if m.cState == p && k == |text| then p else |m.name|))
  }

  /** The scan accepts exactly when the rest is a stem and the suffix. */
  lemma {:induction false} ScanIsRest(m: Machine, p: nat, text: string, b: nat, k: nat, suffix: string)
    requires Scanning(m, p, text, b, k) && suffix == m.name[p + 1..]
    ensures Runnable(m) && Scanned(m, RunFrom(m, text, k), p, text, b, k, suffix)
    decreases |text| - k
  {
    hide Rest, IsStem, Scanning, Runnable, Shift, Current, StateAt, RunFrom;
    ScanBounds(m, p, text, b, k);
    ScanStep(m, p, text, b, k);
    RunStep(m, text, k);
    var r := Shift(m, text, k);
    var j := k - b;
    if j < |suffix| && k < |text| && text[k] == suffix[j] {
      ScanBounds(r, p, text, b, k + 1);
      ScanIsRest(r, p, text, b, k + 1, suffix);
    } else if k < |text| {
      SkipBlock(text, b, j, suffix);
      ScanBounds(r, p, text, k + 1, k + 1);
      ScanIsRest(r, p, text, k + 1, k + 1, suffix);
    } else {
      RestAtEnd(text, b, j, suffix);
    }
  }

  lemma ScanBounds(m: Machine, p: nat, text: string, b: nat, k: nat)
    requires Scanning(m, p, text, b, k)
    ensures p < |m.name| && b <= k <= |text| && k - b <= |m.name| - p - 1 && m.status == Active && NulFree(text)
    ensures text[b..k] == m.name[p + 1..][..k - b] && m.cState in {p, p + 1 + (k - b)} && (m.cState == p ==> k == b)
  {
  }

  lemma RestAtEnd(text: string, b: nat, j: nat, suffix: string)
    requires b + j == |text| && j <= |suffix| && text[b..] == suffix[..j]
    ensures Rest(text, b, suffix) <==> j == |suffix|
  {
    if j == |suffix| {
      assert text[b..b] == "";
    }
  }

  /** The machine is still comparing the part before the %. */
  ghost predicate Leading(m: Machine, p: nat, text: string, k: nat) {
    && Meta(m.name, p) && m.states == Table(m.name) && m.status == Active && NulFree(text)
    && k <= p && k <= |text| && m.cState == k && text[..k] == m.name[..k]
  }

  lemma LeadStep(m: Machine, p: nat, text: string, k: nat)
    requires Leading(m, p, text, k)
    ensures Runnable(m) && m.cState < |m.states| && Current(m) < |m.states|
    ensures k == p ==> Scanning(m, p, text, p, p)
    ensures k < p ==>
              var r := Shift(m, text, k);
              if k < |text| && text[k] == m.name[k] then Leading(r, p, text, k + 1) else r.status == Failed
  {
    assert m.states[m.cState] == StateAt(m.name, m.cState);
    PerStateBehind(m.name, p, m.cState);
    if k < |text| && text[k] == m.name[k] && k < p {
      assert text[..k + 1] == text[..k] + [text[k]] == m.name[..k + 1];
    }
  }

  lemma {:induction false} LeadIsPrefix(m: Machine, p: nat, text: string, k: nat)
    requires Leading(m, p, text, k)
    ensures Runnable(m)
    ensures var r := RunFrom(m, text, k);
            && (r.status == Accepted <==>
                 p <= |text| && text[..p] == m.name[..p] && Rest(text, p, m.name[p + 1..]))
            && (r.status == Accepted ==>
                 && r.pstart == p && r.pend == |text| - |m.name[p + 1..]|
                 && r.cState == (if p == |text| then p else |m.name|))
    decreases p - k
  {
    LeadStep(m, p, text, k);
    RunStep(m, text, k);
    if k == p {
      ScanIsRest(m, p, text, p, p, m.name[p + 1..]);
    } else {
      var r := Shift(m, text, k);
      if k < |text| && text[k] == m.name[k] {
        LeadIsPrefix(r, p, text, k + 1);
      } else if p <= |text| {
        assert text[..p][k] == text[k] && m.name[..p][k] == m.name[k];
      }
    }
  }

  /** The pattern accepts the text with stem `stem`. */
  ghost predicate Matches(name: string, p: nat, text: string, stem: string)
    requires p < |name|
  {
    text == name[..p] + stem + name[p + 1..] && IsStem(stem, name[p + 1..])
  }

  /** The exact language of a pattern, and what it reports: the text is the part
      before the %, a stem, and the part behind it; [pstart, pend) is the stem. */
  lemma Language(name: string, p: nat, text: string)
    requires Meta(name, p) && NulFree(text)
    ensures Runnable(Fresh(name))
    ensures var m := RunFrom(Fresh(name), text, 0);
            && (m.status == Accepted <==> exists stem :: Matches(name, p, text, stem))
            && (m.status == Accepted ==>
                 && 0 <= m.pstart <= m.pend <= |text| && Matches(name, p, text, text[m.pstart..m.pend])
                 && m.cState == (if p == |text| then p else |name|))
  {
    assert Leading(Fresh(name), p, text, 0);
    hide Runnable, RunFrom, Leading, Meta;
    LeadIsPrefix(Fresh(name), p, text, 0);
    TextSplits(name, p, text);
  }

  lemma TextSplits(name: string, p: nat, text: string)
    requires p < |name|
    ensures (p <= |text| && text[..p] == name[..p] && Rest(text, p, name[p + 1..])) <==>
            exists stem :: Matches(name, p, text, stem)
    ensures p <= |text| && text[..p] == name[..p] && Rest(text, p, name[p + 1..]) ==>
              Matches(name, p, text, text[p..|text| - |name[p + 1..]|])
  {
    var suffix := name[p + 1..];
    var e := |text| - |suffix|;
    if p <= |text| && text[..p] == name[..p] && Rest(text, p, suffix) {
      assert text == text[..p] + text[p..e] + text[e..];
      assert Matches(name, p, text, text[p..e]);
    }
    if stem :| Matches(name, p, text, stem) {
      assert text[..p] == name[..p] && text[p..e] == stem && text[e..] == suffix;
    }
  }

  // ---- How this compares with what one would expect of % ----

  /** A text without the character behind the % can always stand for it, as
      _build_dfa() documents. */
  lemma {:induction false} PlainStem(s: string, suffix: string)
    requires suffix == "" || suffix[0] !in s
    ensures IsStem(s, suffix)
  {
    if s != "" {
      PlainStem(s[1..], suffix);
      assert Block(s, suffix, 0);
    }
  }

  /** But that is not all that % stands for: `%.o` matches "a.b.o". */
  lemma DottedStem()
    ensures Matches("%.o", 0, "a.b.o", "a.b")
  {
    assert Block("a.b", ".o", 0) && "a.b"[1..] == ".b";
    assert ".b"[..1] == ".o"[..1] && Block(".b", ".o", 1);
    assert ".b"[2..] == "";
  }

  /** And it does not match everything that ends in the suffix: in "a..o" the
      first dot starts an attempt, and the second one is used up in ending it. */
  lemma DoubledDot()
    ensures !exists stem :: Matches("%.o", 0, "a..o", stem)
  {
    assert !IsStem(".", ".o");
    assert "a."[1..] == ".";
    assert !IsStem("a.", ".o") by {
      assert "a."[..1][0] == 'a' && ".o"[..1][0] == '.';
    }
    assert "%.o"[..0] == "" && "%.o"[1..] == ".o";
    forall stem | "a..o" == "" + stem + ".o" ensures stem == "a." {
      assert stem == ("" + stem + ".o")[..2];
    }
  }

  // ---- The list of matches ----

  /** Insert in front of the first entry whose state number is not smaller:
      dl_state is the negated state number. */
  function Insert(list: seq<Link>, dl: Link): (r: seq<Link>)
    ensures multiset(r) == multiset(list) + multiset{dl}
  {
    if list == [] then [dl]
    else if dl.state <= list[0].state then [dl] + list
    else
      assert list == [list[0]] + list[1..];
      [list[0]] + Insert(list[1..], dl)
  }

  /** The machine as an entry of the list. */
  function LinkOf(m: Machine, i: nat, text: string): Link
    requires 0 <= m.pstart <= m.pend <= |text|
  {
    Link(i, text[m.pstart..m.pend], m.cState)
  }

  /** What a machine makes of the text on its own. */
  function Alone(name: string, text: string): Machine
    requires NulFree(text) && IsMeta(name)
  {
    RunFrom(Fresh(name), text, 0)
  }

  ghost predicate AllMeta(names: seq<string>) {
    forall i :: 0 <= i < |names| ==> IsMeta(names[i])
  }

  /** The matches among the first `n` machines, each run alone, inserted in turn. */
  ghost function Matching(names: seq<string>, n: nat, text: string): seq<Link>
    requires n <= |names| && AllMeta(names) && NulFree(text)
  {
    if n == 0 then []
    else
      var rest, m := Matching(names, n - 1, text), Alone(names[n - 1], text);
      if m.status == Accepted && 0 <= m.pstart <= m.pend <= |text| then Insert(rest, LinkOf(m, n - 1, text)) else rest
  }

  /** Entry `dl` is the match of a machine with its stem and end state. */
  ghost predicate Stands(names: seq<string>, dl: Link, text: string)
    requires AllMeta(names)
  {
    && dl.meta < |names| && Accepts(names[dl.meta], text, dl.per)
    && dl.state == if PercentAt(names[dl.meta]) == |text| then |text| else |names[dl.meta]|
  }

  ghost predicate Accepts(name: string, text: string, stem: string)
    requires IsMeta(name)
  {
    Matches(name, PercentAt(name), text, stem)
  }

  predicate Before(a: Link, b: Link) {
    a.state < b.state || (a.state == b.state && a.meta > b.meta)
  }

  ghost predicate InOrder(list: seq<Link>) {
    forall i, j :: 0 <= i < j < |list| ==> Before(list[i], list[j])
  }

  lemma ConsInOrder(x: Link, list: seq<Link>)
    requires InOrder(list) && forall y :: y in list ==> Before(x, y)
    ensures InOrder([x] + list)
  {
    var r := [x] + list;
    forall i, j | 0 <= i < j < |r| ensures Before(r[i], r[j]) {
      assert r[j] == list[j - 1] && list[j - 1] in list;
      assert i > 0 ==> r[i] == list[i - 1];
    }
  }

  lemma {:induction false} InsertInOrder(list: seq<Link>, dl: Link)
    requires InOrder(list) && forall i :: 0 <= i < |list| ==> list[i].meta < dl.meta
    ensures InOrder(Insert(list, dl))
    ensures forall x :: x in Insert(list, dl) <==> x == dl || x in list
  {
    hide InOrder;
    InsertMembers(list, dl);
    if list == [] {
      OneInOrder(dl);
    } else {
      TailInOrder(list);
      if dl.state <= list[0].state {
        ConsInOrder(dl, list);
      } else {
        InsertMembers(list[1..], dl);
        InsertInOrder(list[1..], dl);
        ConsInOrder(list[0], Insert(list[1..], dl));
      }
    }
  }

  lemma OneInOrder(dl: Link)
    ensures InOrder([dl]) && InOrder([])
  {
  }

  lemma TailInOrder(list: seq<Link>)
    requires InOrder(list) && list != []
    ensures InOrder(list[1..]) && forall y :: y in list[1..] ==> Before(list[0], y)
    ensures forall y :: y in list ==> y.state >= list[0].state
  {
  }

  lemma {:induction false} InsertAt(list: seq<Link>, dl: Link, t: nat)
    requires t <= |list| && (forall i :: 0 <= i < t ==> dl.state > list[i].state)
    requires t < |list| ==> dl.state <= list[t].state
    ensures Insert(list, dl) == list[..t] + [dl] + list[t..]
  {
    if t == 0 {
      assert list[..0] + [dl] + list[0..] == [dl] + list;
    } else {
      var tail := list[1..];
      InsertAt(tail, dl, t - 1);
      SplitAt(list, t);
      Regroup([list[0]], tail[..t - 1], [dl], tail[t - 1..]);
    }
  }

  lemma Regroup(a: seq<Link>, b: seq<Link>, c: seq<Link>, d: seq<Link>)
    ensures a + (b + c + d) == (a + b) + c + d
  {
  }

  lemma SplitAt(list: seq<Link>, t: nat)
    requires 0 < t <= |list|
    ensures list[..t] == [list[0]] + list[1..][..t - 1] && list[t..] == list[1..][t - 1..]
  {
  }

  lemma InsertMembers(list: seq<Link>, dl: Link)
    ensures forall x :: x in Insert(list, dl) <==> x == dl || x in list
  {
    forall x ensures x in Insert(list, dl) <==> x == dl || x in list {
      assert x in Insert(list, dl) <==> x in multiset(Insert(list, dl));
      assert x in list <==> x in multiset(list);
    }
  }

  /** The list holds exactly the machines that match, each with its stem; it is
      sorted by state number, which is the length of the pattern but for an
      empty stem at the end of the text, and for equal numbers by descending
      position.  (The comment at the head of Match_dfa() has it the other way.) */
  lemma {:induction false} MatchingIsExact(names: seq<string>, n: nat, text: string)
    requires n <= |names| && AllMeta(names) && NulFree(text)
    ensures InOrder(Matching(names, n, text))
    ensures forall dl :: dl in Matching(names, n, text) ==> dl.meta < n && Stands(names, dl, text)
    ensures forall i, stem :: 0 <= i < n && Accepts(names[i], text, stem) ==>
              exists dl :: dl in Matching(names, n, text) && dl.meta == i && dl.per == stem
  {
    hide Alone, Matches, InOrder, Insert, Stands, Accepts, IsMeta;
    if n == 0 {
      OneInOrder(Link(0, "", 0));
    } else {
      MatchingIsExact(names, n - 1, text);
      AloneStands(names, n - 1, text);
      var list, all := Matching(names, n - 1, text), Matching(names, n, text);
      var m := Alone(names[n - 1], text);
      if m.status == Accepted {
        InsertInOrder(list, LinkOf(m, n - 1, text));
      }
      forall i, stem | 0 <= i < n && Accepts(names[i], text, stem)
        ensures exists dl :: dl in all && dl.meta == i && dl.per == stem
      {
        if i == n - 1 {
          assert LinkOf(m, i, text) in all;
        } else {
          var dl :| dl in list && dl.meta == i && dl.per == stem;
          assert dl in all;
        }
      }
    }
  }

  lemma MatchingNone(names: seq<string>, text: string)
    requires AllMeta(names) && NulFree(text)
    ensures Matching(names, 0, text) == []
  {
  }

  lemma AloneStands(names: seq<string>, i: nat, text: string)
    requires i < |names| && AllMeta(names) && NulFree(text)
    ensures var m := Alone(names[i], text);
            && (m.status == Accepted ==>
                 && 0 <= m.pstart <= m.pend <= |text| && Stands(names, LinkOf(m, i, text), text)
                 && forall stem :: Accepts(names[i], text, stem) ==> stem == text[m.pstart..m.pend])
            && (m.status != Accepted ==> forall stem :: !Accepts(names[i], text, stem))
  {
    hide Matches, RunFrom;
    var p := PercentAt(names[i]);
    Language(names[i], p, text);
    forall stem | Matches(names[i], p, text, stem)
      ensures forall t :: Matches(names[i], p, text, t) ==> stem == t
    {
      forall t | Matches(names[i], p, text, t) ensures stem == t {
        StemIsUnique(names[i], p, text, stem, t);
      }
    }
  }

  lemma StemIsUnique(name: string, p: nat, text: string, s: string, t: string)
    requires p < |name| && Matches(name, p, text, s) && Matches(name, p, text, t)
    ensures s == t
  {
    assert s == text[p..|text| - |name[p + 1..]|] == t;
  }

  // ---- All machines in lockstep ----

  /** A machine at its start state; pstart and pend may be left over from an
      earlier name. */
  ghost predicate Ready(m: Machine) {
    IsMeta(m.name) && m.states == Table(m.name) && m.cState == 0 && m.status == Active
  }

  /** Left-over values make no difference. */
  lemma ReadyRunsAlone(m: Machine, text: string)
    requires Ready(m) && NulFree(text)
    ensures Runnable(m)
    ensures var r, a := RunFrom(m, text, 0), Alone(m.name, text);
            && (r.status == Accepted <==> a.status == Accepted)
            && (r.status == Accepted ==> r.pstart == a.pstart && r.pend == a.pend && r.cState == a.cState
                                         && 0 <= r.pstart <= r.pend <= |text|)
  {
    var p := PercentAt(m.name);
    assert Leading(m, p, text, 0);
    hide Leading, RunFrom, Rest;
    LeadIsPrefix(m, p, text, 0);
    assert Leading(Fresh(m.name), p, text, 0) by {
      LeadingFresh(m.name, p, text);
    }
    LeadIsPrefix(Fresh(m.name), p, text, 0);
    Language(m.name, p, text);
  }

  lemma LeadingFresh(name: string, p: nat, text: string)
    requires Meta(name, p) && NulFree(text)
    ensures Leading(Fresh(name), p, text, 0)
  {
  }

  /** Machine `m` has read `k` characters since it was `s`. */
  ghost predicate OnTrack(s: Machine, m: Machine, text: string, k: nat)
    requires NulFree(text)
  {
    && Ready(s) && Runnable(s) && m.name == s.name && m.states == s.states
    && (m.status == Active ==> k <= |text| && Runnable(m))
    && (m.status == Accepted ==> k > |text|)
    && RunFrom(m, text, k) == RunFrom(s, text, 0)
  }

  lemma TrackStep(s: Machine, m: Machine, text: string, k: nat)
    requires NulFree(text) && OnTrack(s, m, text, k)
    ensures m.status != Active ==> OnTrack(s, m, text, k + 1)
    ensures m.status == Active ==>
              && k <= |text| && m.cState < |m.states| && 0 <= m.cState && Current(m) < |m.states|
              && OnTrack(s, Shift(m, text, k), text, k + 1)
  {
    if m.status == Active {
      RunStep(m, text, k);
      ShiftAtNul(m, text, k);
    }
  }

  /** How one more machine changes the list. */
  lemma TrackEnd(names: seq<string>, i: nat, s: Machine, m: Machine, text: string, k: nat)
    requires NulFree(text) && AllMeta(names) && i < |names| && s.name == names[i] && OnTrack(s, m, text, k) && m.status != Active
    ensures m.status == Accepted ==>
              0 <= m.pstart <= m.pend <= |text|
              && Matching(names, i + 1, text) == Insert(Matching(names, i, text), LinkOf(m, i, text))
    ensures m.status != Accepted ==> Matching(names, i + 1, text) == Matching(names, i, text)
  {
    ReadyRunsAlone(s, text);
  }

  /** The first `n` machines have read `k` + 1 characters, the others `k`. */
  ghost predicate Tracked(s: seq<Machine>, nfa: seq<Machine>, text: string, k: nat, n: nat)
    requires NulFree(text)
  {
    && |nfa| == |s|
    && (forall i :: 0 <= i < |nfa| && i < n ==> OnTrack(s[i], nfa[i], text, k + 1))
    && (forall i :: 0 <= i < |nfa| && i >= n ==> OnTrack(s[i], nfa[i], text, k))
  }

  function NamesOf(nfa: seq<Machine>): (names: seq<string>)
    ensures |names| == |nfa| && forall i :: 0 <= i < |nfa| ==> names[i] == nfa[i].name
  {
    seq(|nfa|, i requires 0 <= i < |nfa| => nfa[i].name)
  }

  ghost predicate AllReady(nfa: seq<Machine>) {
    forall i :: 0 <= i < |nfa| ==> Ready(nfa[i])
  }

  lemma TrackStart(s: seq<Machine>, text: string)
    requires NulFree(text) && AllReady(s)
    ensures Tracked(s, s, text, 0, 0) && AllMeta(NamesOf(s))
  {
    forall i | 0 <= i < |s| ensures OnTrack(s[i], s[i], text, 0) {
      ReadyRunsAlone(s[i], text);
    }
  }

  lemma TrackTurn(s: seq<Machine>, nfa: seq<Machine>, text: string, k: nat)
    requires NulFree(text) && Tracked(s, nfa, text, k, |nfa|)
    ensures Tracked(s, nfa, text, k + 1, 0)
  {
    hide OnTrack;
  }

  /** When no machine is running before the end, none has accepted. */
  lemma {:induction false} NoneMatches(s: seq<Machine>, nfa: seq<Machine>, text: string, k: nat, n: nat)
    requires NulFree(text) && Tracked(s, nfa, text, k, 0) && k <= |text| && AllMeta(NamesOf(s)) && n <= |nfa|
    requires forall i :: 0 <= i < |nfa| ==> nfa[i].status != Active
    ensures Matching(NamesOf(s), n, text) == []
  {
    if n > 0 {
      NoneMatches(s, nfa, text, k, n - 1);
      TrackEnd(NamesOf(s), n - 1, s[n - 1], nfa[n - 1], text, k);
    }
  }

  /** How far the list is when the first `n` machines have had their turn. */
  ghost predicate Listed(list: seq<Link>, s: seq<Machine>, text: string, k: nat, n: nat)
    requires NulFree(text) && AllMeta(NamesOf(s)) && n <= |s|
  {
    list == if k < |text| then [] else Matching(NamesOf(s), if k == |text| then n else |s|, text)
  }

  /** One machine reads one character. */
  lemma TurnStep(s: seq<Machine>, nfa: seq<Machine>, text: string, k: nat, i: nat, list: seq<Link>)
    requires NulFree(text) && Tracked(s, nfa, text, k, i) && i < |nfa| && AllMeta(NamesOf(s))
    requires Listed(list, s, text, k, i)
    ensures nfa[i].status != Active ==> Tracked(s, nfa, text, k, i + 1) && Listed(list, s, text, k, i + 1)
    ensures nfa[i].status == Active ==>
              && k <= |text| && 0 <= nfa[i].cState < |nfa[i].states| && Current(nfa[i]) < |nfa[i].states|
              && var m := Shift(nfa[i], text, k);
              && Tracked(s, nfa[i := m], text, k, i + 1)
              && (m.status == Accepted ==> 0 <= m.pstart <= m.pend <= |text|)
              && Listed(if m.status == Accepted then Insert(list, LinkOf(m, i, text)) else list, s, text, k, i + 1)
  {
    hide Insert, Alone, Shift, Runnable, Ready;
    TrackStep(s[i], nfa[i], text, k);
    var m := if nfa[i].status == Active then Shift(nfa[i], text, k) else nfa[i];
    if m.status != Active && k == |text| {
      TrackEnd(NamesOf(s), i, s[i], m, text, k + 1);
    }
  }

  class Nfa {
    var nfa: seq<Machine>

    ghost predicate Valid()
      reads this
    {
      AllReady(nfa)
    }

    constructor ()
      ensures Valid() && NamesOf(nfa) == []
    {
      nfa := [];
    }

    /** A new machine goes to the head of the list. */
    method AddNfa(name: string)
      requires Valid() && IsMeta(name)
      modifies this
      ensures Valid() && NamesOf(nfa) == [name] + NamesOf(old(nfa))
    {
      var dfa, error := BuildDfa(name);
      nfa := [dfa] + nfa;
    }

    /** dl in front of the first entry that is not ahead of it. */
    static method InsertLink(list: seq<Link>, dl: Link) returns (r: seq<Link>)
      ensures r == Insert(list, dl)
    {
      var t := 0;
      while t < |list| && dl.state > list[t].state
        invariant t <= |list| && forall i :: 0 <= i < t ==> dl.state > list[i].state
      {
        t := t + 1;
      }
      InsertAt(list, dl, t);
      r := list[..t] + [dl] + list[t..];
    }

    /** One turn: every running machine reads character `k`. */
    method Turn(buf: string, k: nat, matches: seq<Link>, ghost s: seq<Machine>) returns (list: seq<Link>, adv: bool)
      requires NulFree(buf) && AllMeta(NamesOf(s)) && Tracked(s, nfa, buf, k, 0) && Listed(matches, s, buf, k, 0)
      modifies this
      ensures Tracked(s, nfa, buf, k, |nfa|) && Listed(list, s, buf, k, |s|)
      ensures adv ==> k <= |buf|
      ensures !adv ==> forall i :: 0 <= i < |nfa| ==> nfa[i].status != Active
    {
      hide OnTrack, Ready, Matching, AllMeta, Listed, Insert, Shift;
      list, adv := matches, false;
      for i := 0 to |nfa|
        invariant Tracked(s, nfa, buf, k, i) && Listed(list, s, buf, k, i)
        invariant !adv ==> forall j :: 0 <= j < i ==> nfa[j].status != Active
        invariant adv ==> k <= |buf|
      {
        TurnStep(s, nfa, buf, k, i, list);
        if nfa[i].status == Active {
          adv := true;
          nfa := nfa[i := Shift(nfa[i], buf, k)];
          if nfa[i].status == Accepted {
            list := InsertLink(list, LinkOf(nfa[i], i, buf));
          }
        }
      }
    }

    method Reset(ghost s: seq<Machine>, ghost buf: string, ghost k: nat)
      requires NulFree(buf) && Tracked(s, nfa, buf, k, 0)
      modifies this
      ensures Valid() && NamesOf(nfa) == NamesOf(s)
    {
      for i := 0 to |nfa|
        invariant |nfa| == |s|
        invariant forall j :: 0 <= j < i ==> Ready(nfa[j]) && nfa[j].name == s[j].name
        invariant forall j :: i <= j < |nfa| ==> OnTrack(s[j], nfa[j], buf, k)
      {
        nfa := nfa[i := nfa[i].(status := Active, cState := 0)];
      }
    }

    /** Every machine reads the name, one character of it in turn; the list has
        the machines that match, and they are ready for the next name. */
    method MatchDfa(buf: string) returns (list: seq<Link>)
      requires Valid() && NulFree(buf)
      modifies this
      ensures Valid() && NamesOf(nfa) == NamesOf(old(nfa))
      ensures list == Matching(NamesOf(nfa), |nfa|, buf)
    {
      ghost var s := nfa;
      list := [];
      var k, adv := 0, true;
      hide OnTrack, Ready, Matching, AllMeta;
      TrackStart(s, buf);
      while adv
        invariant AllMeta(NamesOf(s)) && Tracked(s, nfa, buf, k, 0)
        invariant list == if k <= |buf| then [] else Matching(NamesOf(s), |s|, buf)
        invariant adv ==> k <= |buf| + 1
        invariant !adv ==> forall i :: 0 <= i < |nfa| ==> nfa[i].status != Active
        decreases |buf| + 2 - k, adv
      {
        assert Matching(NamesOf(s), 0, buf) == [] by {
          MatchingNone(NamesOf(s), buf);
        }
        list, adv := Turn(buf, k, list, s);
        TrackTurn(s, nfa, buf, k);
        k := k + 1;
      }
      if k <= |buf| {
        NoneMatches(s, nfa, buf, k, |s|);
      }
      Reset(s, buf, k);
    }
  }
}
