/** Inference by %-rules (infer.c): a breadth-first search over chains of rules,
    cut off by comparing the sets of rules that matched along a chain. */
module Infer {
  import opened Percent

  /** One edge of a %-target: its prerequisite pattern, or none at all. */
  datatype Edge = Plain(prq: string, noInfer: bool) | Bare

  /** The inference graph and what is known of the world.  Machine i belongs to
      target patterns[i], which has the edges edges[i]. */
  datatype Config = Config(
    patterns: seq<string>, edges: seq<seq<Edge>>,
    present: set<string>,        // names with a non-zero time stamp
    recipes: set<string>,        // names with a recipe of their own
    prep: nat, noInfer: bool, transitive: bool)

  /** An entry of a set of matched rules (struct DFALINK in dfa_subset()). */
  datatype Element = Element(meta: nat, per: string, prep: nat, delete: bool)

  /** One inferred prerequisite: the rule and edge, the text of %, the name. */
  datatype Hop = Hop(meta: nat, edge: nat, per: string, bare: bool, name: string)

  ghost predicate Wf(c: Config) {
    && AllMeta(c.patterns) && |c.edges| == |c.patterns|
    && forall i, x :: 0 <= i < |c.edges| && 0 <= x < |c.edges[i]| && c.edges[i][x].Plain? ==> NulFree(c.edges[i][x].prq)
  }

  // ---- dfa_subset() ----

  predicate Has(s: seq<Element>, m: nat) {
    exists i :: 0 <= i < |s| && s[i].meta == m
  }

  /** Position of a rule in a set that has it. */
  function Find(s: seq<Element>, m: nat): (i: nat)
    requires Has(s, m)
    ensures i < |s| && s[i].meta == m && forall j :: 0 <= j < i ==> s[j].meta != m
  {
    if s[0].meta == m then 0
    else
      assert Has(s[1..], m) by {
        var i :| 0 <= i < |s| && s[i].meta == m;
        assert s[1..][i - 1].meta == m;
      }
      1 + Find(s[1..], m)
  }

  predicate Includes(pdfa: seq<Element>, s: seq<Element>) {
    forall i :: 0 <= i < |s| ==> Has(pdfa, s[i].meta)
  }

  /** A rule occurs in a set at most once. */
  ghost predicate Distinct(s: seq<Element>) {
    forall i, j :: 0 <= i < j < |s| ==> s[i].meta != s[j].meta
  }

  /** How an element fares against its namesake in an earlier set. */
  function Raise(x: Element, e: Element, prep: nat): Element {
    if e.prep + 1 > prep then x.(delete := true) else x.(prep := e.prep + 1)
  }

  function RaisedBy(x: Element, s: seq<Element>, prep: nat): Element {
    if Has(s, x.meta) then Raise(x, s[Find(s, x.meta)], prep) else x
  }

  /** The set after comparison with one earlier set. */
  function Raised(pdfa: seq<Element>, s: seq<Element>, prep: nat): (r: seq<Element>)
    ensures |r| == |pdfa|
    ensures forall i :: 0 <= i < |r| ==> r[i].meta == pdfa[i].meta && r[i].per == pdfa[i].per
  {
    if Includes(pdfa, s)
    then seq(|pdfa|, i requires 0 <= i < |pdfa| => RaisedBy(pdfa[i], s, prep))
    else pdfa
  }

  /** ... with a stack of sets, the nearest first. */
  function Against(pdfa: seq<Element>, stack: seq<seq<Element>>, prep: nat): (r: seq<Element>)
    ensures |r| == |pdfa|
    ensures forall i :: 0 <= i < |r| ==> r[i].meta == pdfa[i].meta && r[i].per == pdfa[i].per
  {
    if stack == [] then pdfa
    else Raised(Against(pdfa, stack[..|stack| - 1], prep), stack[|stack| - 1], prep)
  }

  function Undeleted(s: seq<Element>): (r: seq<Element>)
    ensures forall x :: x in r <==> x in s && !x.delete
    ensures |r| <= |s|
  {
    if s == [] then []
    else
      var k := |s| - 1;
      var rest := Undeleted(s[..k]);
      assert s == s[..k] + [s[k]];
      if s[k].delete then rest else rest + [s[k]]
  }

  function Cut(pdfa: seq<Element>, stack: seq<seq<Element>>, prep: nat): seq<Element> {
    Undeleted(Against(pdfa, stack, prep))
  }

  method DfaSubset(matches: seq<Element>, stack: seq<seq<Element>>, prep: nat) returns (r: seq<Element>)
    requires Distinct(matches) && forall k :: 0 <= k < |stack| ==> Distinct(stack[k])
    ensures r == Cut(matches, stack, prep)
  {
    var pdfa := matches;
    var k := 0;
    while k < |stack|
      invariant k <= |stack| && pdfa == Against(matches, stack[..k], prep)
    {
      assert stack[..k + 1][..k] == stack[..k];
      var subset, members := LookUp(pdfa, stack[k]);
      if subset {
        pdfa := Count(pdfa, stack[k], members, prep);
      }
      k := k + 1;
    }
    assert stack[..k] == stack;
    r := [];
    for i := 0 to |pdfa|
      invariant r == Undeleted(pdfa[..i])
    {
      assert pdfa[..i + 1][..i] == pdfa[..i];
      if !pdfa[i].delete {
        r := r + [pdfa[i]];
      }
    }
    assert pdfa[..|pdfa|] == pdfa;
  }

  /** Is every element of `s` in `pdfa`, and where (dl_member)? */
  method LookUp(pdfa: seq<Element>, s: seq<Element>) returns (subset: bool, members: seq<nat>)
    ensures subset <==> Includes(pdfa, s)
    ensures subset ==> |members| == |s| && forall i :: 0 <= i < |s| ==> members[i] < |pdfa| && pdfa[members[i]].meta == s[i].meta
  {
    subset, members := true, [];
    var i := 0;
    while subset && i < |s|
      invariant i <= |s| && (subset ==> |members| == i)
      invariant subset ==> forall j :: 0 <= j < i ==> members[j] < |pdfa| && pdfa[members[j]].meta == s[j].meta
      invariant !subset ==> !Includes(pdfa, s)
    {
      var x := 0;
      while x < |pdfa| && pdfa[x].meta != s[i].meta
        invariant x <= |pdfa| && forall j :: 0 <= j < x ==> pdfa[j].meta != s[i].meta
      {
        x := x + 1;
      }
      subset := x < |pdfa|;
      members := members + [x];
      i := i + 1;
    }
  }

  method Count(pdfa: seq<Element>, s: seq<Element>, members: seq<nat>, prep: nat) returns (r: seq<Element>)
    requires Distinct(s) && Distinct(pdfa) && Includes(pdfa, s) && |members| == |s|
    requires forall i :: 0 <= i < |s| ==> members[i] < |pdfa| && pdfa[members[i]].meta == s[i].meta
    ensures r == Raised(pdfa, s, prep)
  {
    r := pdfa;
    for i := 0 to |s|
      invariant |r| == |pdfa|
      invariant forall j :: 0 <= j < i ==> r[members[j]] == Raise(pdfa[members[j]], s[j], prep)
      invariant forall x :: 0 <= x < |r| && x !in members[..i] ==> r[x] == pdfa[x]
    {
      assert members[i] !in members[..i];
      var mem, npr := members[i], s[i].prep + 1;
      if npr > prep {
        r := r[mem := r[mem].(delete := true)];
      } else {
        r := r[mem := r[mem].(prep := npr)];
      }
    }
    Counted(pdfa, s, members, prep, r);
  }

  lemma Counted(pdfa: seq<Element>, s: seq<Element>, members: seq<nat>, prep: nat, r: seq<Element>)
    requires Distinct(s) && Distinct(pdfa) && Includes(pdfa, s) && |members| == |s| && |r| == |pdfa|
    requires forall i :: 0 <= i < |s| ==> members[i] < |pdfa| && pdfa[members[i]].meta == s[i].meta
    requires forall j :: 0 <= j < |s| ==> r[members[j]] == Raise(pdfa[members[j]], s[j], prep)
    requires forall x :: 0 <= x < |r| && x !in members[..|s|] ==> r[x] == pdfa[x]
    ensures r == Raised(pdfa, s, prep)
  {
    forall j | 0 <= j < |s| ensures Has(s, pdfa[members[j]].meta) {
      assert s[j].meta == pdfa[members[j]].meta;
    }
    forall x | 0 <= x < |r| ensures r[x] == RaisedBy(pdfa[x], s, prep) {
      if Has(s, pdfa[x].meta) {
        var j := Find(s, pdfa[x].meta);
        assert members[j] == x;
      }
    }
  }

  // ---- What the cut-off achieves, set by set ----

  /** Element `e` of an earlier set that is included is counted up: gone when
      its count exceeds the maximum, else with a count of at least one. */
  lemma {:induction false} Counts(pdfa: seq<Element>, stack: seq<seq<Element>>, prep: nat, k: nat, i: nat)
    requires k < |stack| && i < |pdfa| && Includes(pdfa, stack[k]) && Has(stack[k], pdfa[i].meta)
    ensures stack[k][Find(stack[k], pdfa[i].meta)].prep + 1 > prep ==> Against(pdfa, stack, prep)[i].delete
    ensures Against(pdfa, stack, prep)[i].delete || Against(pdfa, stack, prep)[i].prep >= 1
  {
    var last := |stack| - 1;
    var before := Against(pdfa, stack[..last], prep);
    assert before[i].meta == pdfa[i].meta;
    SameMetas(pdfa, before, stack[last]);
    if k < last {
      assert stack[..last][k] == stack[k];
      Counts(pdfa, stack[..last], prep, k, i);
    }
  }

  lemma SameMetas(a: seq<Element>, b: seq<Element>, s: seq<Element>)
    requires |a| == |b| && forall i :: 0 <= i < |a| ==> a[i].meta == b[i].meta
    ensures Includes(a, s) <==> Includes(b, s)
  {
    forall m: nat ensures Has(a, m) <==> Has(b, m) {
      if Has(a, m) {
        var i :| 0 <= i < |a| && a[i].meta == m;
        assert b[i].meta == m;
      }
      if Has(b, m) {
        var i :| 0 <= i < |b| && b[i].meta == m;
        assert a[i].meta == m;
      }
    }
  }

  ghost function Metas(s: seq<Element>): set<nat> {
    set i | 0 <= i < |s| :: s[i].meta
  }

  lemma MetasHas(s: seq<Element>, m: nat)
    ensures m in Metas(s) <==> Has(s, m)
  {
  }

  /** An element that survives came from the matches, and was not deleted. */
  lemma Survivor(pdfa: seq<Element>, stack: seq<seq<Element>>, prep: nat, m: nat)
    requires m in Metas(Cut(pdfa, stack, prep)) && Distinct(pdfa)
    ensures Has(pdfa, m) && !Against(pdfa, stack, prep)[Find(pdfa, m)].delete
    ensures Against(pdfa, stack, prep)[Find(pdfa, m)] in Cut(pdfa, stack, prep)
    ensures forall e :: e in Cut(pdfa, stack, prep) && e.meta == m ==> e == Against(pdfa, stack, prep)[Find(pdfa, m)]
  {
    SurvivorOf(pdfa, Against(pdfa, stack, prep), m);
  }

  lemma SurvivorOf(pdfa: seq<Element>, a: seq<Element>, m: nat)
    requires Distinct(pdfa) && |a| == |pdfa| && forall i :: 0 <= i < |a| ==> a[i].meta == pdfa[i].meta
    requires m in Metas(Undeleted(a))
    ensures Has(pdfa, m) && !a[Find(pdfa, m)].delete && a[Find(pdfa, m)] in Undeleted(a)
    ensures forall e :: e in Undeleted(a) && e.meta == m ==> e == a[Find(pdfa, m)]
  {
    var r := Undeleted(a);
    hide Undeleted;
    var x :| 0 <= x < |r| && r[x].meta == m;
    assert r[x] in a;
    var i :| 0 <= i < |a| && a[i] == r[x];
    assert pdfa[i].meta == m;
    assert Find(pdfa, m) == i;
    forall e | e in r && e.meta == m ensures e == a[i] {
      assert e in a;
      var j :| 0 <= j < |a| && a[j] == e;
      assert pdfa[j].meta == m;
    }
  }

  /** With the default PREP of 0, no earlier set is included in what is left. */
  lemma CutAtZero(pdfa: seq<Element>, stack: seq<seq<Element>>, k: nat)
    requires Distinct(pdfa) && k < |stack| && stack[k] != []
    ensures !(Metas(stack[k]) <= Metas(Cut(pdfa, stack, 0)))
  {
    if Metas(stack[k]) <= Metas(Cut(pdfa, stack, 0)) {
      IncludedSets(pdfa, stack, 0, k);
      var m := stack[k][0].meta;
      assert m in Metas(stack[k]);
      Survivor(pdfa, stack, 0, m);
      Counts(pdfa, stack, 0, k, Find(pdfa, m));
    }
  }

  lemma IncludedSets(pdfa: seq<Element>, stack: seq<seq<Element>>, prep: nat, k: nat)
    requires Distinct(pdfa) && k < |stack| && Metas(stack[k]) <= Metas(Cut(pdfa, stack, prep))
    ensures Includes(pdfa, stack[k])
  {
    forall i | 0 <= i < |stack[k]| ensures Has(pdfa, stack[k][i].meta) {
      assert stack[k][i].meta in Metas(stack[k]);
      Survivor(pdfa, stack, prep, stack[k][i].meta);
    }
  }

  function PrepOf(s: seq<Element>, m: nat): nat
    requires Has(s, m)
  {
    s[Find(s, m)].prep
  }

  /** With PREP 1, a set that is included in what is left had not counted yet. */
  lemma CutAtOne(pdfa: seq<Element>, stack: seq<seq<Element>>, k: nat, m: nat)
    requires Distinct(pdfa) && k < |stack| && Has(stack[k], m)
    requires Metas(stack[k]) <= Metas(Cut(pdfa, stack, 1))
    ensures PrepOf(stack[k], m) == 0
  {
    IncludedSets(pdfa, stack, 1, k);
    MetasHas(stack[k], m);
    Survivor(pdfa, stack, 1, m);
    Counts(pdfa, stack, 1, k, Find(pdfa, m));
  }

  /** ... and one that is met again has. */
  lemma MetAgain(pdfa: seq<Element>, stack: seq<seq<Element>>, k: nat, m: nat)
    requires Distinct(pdfa) && k < |stack|
    requires Metas(stack[k]) == Metas(Cut(pdfa, stack, 1)) && Has(Cut(pdfa, stack, 1), m)
    ensures PrepOf(Cut(pdfa, stack, 1), m) >= 1
  {
    var r := Cut(pdfa, stack, 1);
    IncludedSets(pdfa, stack, 1, k);
    MetasHas(r, m);
    MetasHas(stack[k], m);
    Survivor(pdfa, stack, 1, m);
    Counts(pdfa, stack, 1, k, Find(pdfa, m));
    assert r[Find(r, m)] in r;
  }

  /** Rule `m` is counted up by this earlier set. */
  ghost predicate CountsUp(pdfa: seq<Element>, s: seq<Element>, m: nat) {
    Includes(pdfa, s) && Has(s, m)
  }

  ghost predicate TooOften(pdfa: seq<Element>, stack: seq<seq<Element>>, prep: nat, m: nat) {
    exists k :: 0 <= k < |stack| && CountsUp(pdfa, stack[k], m) && PrepOf(stack[k], m) >= prep
  }

  /** A rule is cut exactly when an earlier set that is included in the matches
      has it with a count that cannot grow any more. */
  lemma CutExactly(pdfa: seq<Element>, stack: seq<seq<Element>>, prep: nat, m: nat)
    requires Distinct(pdfa) && forall i :: 0 <= i < |pdfa| ==> !pdfa[i].delete
    ensures m in Metas(Cut(pdfa, stack, prep)) <==> Has(pdfa, m) && !TooOften(pdfa, stack, prep, m)
  {
    hide Against, Includes, TooOften;
    if m in Metas(Cut(pdfa, stack, prep)) {
      Survivor(pdfa, stack, prep, m);
    }
    if Has(pdfa, m) {
      var i := Find(pdfa, m);
      DeletedExactly(pdfa, stack, prep, i);
      if !Against(pdfa, stack, prep)[i].delete {
        var e := Against(pdfa, stack, prep)[i];
        assert e in Cut(pdfa, stack, prep) && e.meta == m;
      }
    }
  }

  lemma {:induction false} DeletedExactly(pdfa: seq<Element>, stack: seq<seq<Element>>, prep: nat, i: nat)
    requires i < |pdfa|
    ensures Against(pdfa, stack, prep)[i].delete <==> pdfa[i].delete || TooOften(pdfa, stack, prep, pdfa[i].meta)
  {
    if stack != [] {
      var last := |stack| - 1;
      var before := Against(pdfa, stack[..last], prep);
      DeletedExactly(pdfa, stack[..last], prep, i);
      SameMetas(pdfa, before, stack[last]);
      hide Includes, Has, Against;
      OneSetMore(pdfa, stack, prep, pdfa[i].meta);
    }
  }

  lemma OneSetMore(pdfa: seq<Element>, stack: seq<seq<Element>>, prep: nat, m: nat)
    requires stack != []
    ensures TooOften(pdfa, stack, prep, m) <==>
            TooOften(pdfa, stack[..|stack| - 1], prep, m)
            || (CountsUp(pdfa, stack[|stack| - 1], m) && PrepOf(stack[|stack| - 1], m) >= prep)
  {
    hide Includes, Has;
    var front := stack[..|stack| - 1];
    if TooOften(pdfa, front, prep, m) {
      var k :| 0 <= k < |front| && CountsUp(pdfa, front[k], m) && PrepOf(front[k], m) >= prep;
      assert stack[k] == front[k];
    }
    if TooOften(pdfa, stack, prep, m) {
      var k :| 0 <= k < |stack| && CountsUp(pdfa, stack[k], m) && PrepOf(stack[k], m) >= prep;
      assert k < |front| ==> front[k] == stack[k];
    }
  }

  /** The count of a rule that is left: one more than in the oldest of the sets
      that count it, whatever the nearer ones say. */
  lemma {:induction false} OldestCounts(pdfa: seq<Element>, stack: seq<seq<Element>>, prep: nat, i: nat, k: nat)
    requires i < |pdfa| && k < |stack| && !Against(pdfa, stack, prep)[i].delete
    requires CountsUp(pdfa, stack[k], pdfa[i].meta)
    requires forall j :: k < j < |stack| ==> !CountsUp(pdfa, stack[j], pdfa[i].meta)
    ensures Against(pdfa, stack, prep)[i].prep == PrepOf(stack[k], pdfa[i].meta) + 1
  {
    var last := |stack| - 1;
    var before := Against(pdfa, stack[..last], prep);
    SameMetas(pdfa, before, stack[last]);
    if k < last {
      assert stack[..last][k] == stack[k] && !CountsUp(pdfa, stack[last], pdfa[i].meta);
      assert Against(pdfa, stack, prep)[i] == before[i];
      OldestCounts(pdfa, stack[..last], prep, i, k);
    }
  }

  // ---- Chains of inferences ----

  /** buildname(): every % of the pattern is replaced. */
  function BuildName(meta: string, per: string): (r: string)
    ensures NulFree(meta) && NulFree(per) ==> NulFree(r)
  {
    if meta == "" then ""
    else (if meta[0] == '%' then per else [meta[0]]) + BuildName(meta[1..], per)
  }

  function CountDots(name: string): nat {
    if name == "" then 0 else (if name[0] == '.' then 1 else 0) + CountDots(name[1..])
  }

  /** ic_dmax, the same along a chain. */
  function DotLimit(c: Config, target: string): nat {
    var n := c.prep + CountDots(target);
    if n == 0 then 1 else n
  }

  function Elements(list: seq<Link>): (r: seq<Element>)
    ensures |r| == |list|
    ensures forall i :: 0 <= i < |list| ==> r[i] == Element(list[i].meta, list[i].per, 0, false)
  {
    seq(|list|, i requires 0 <= i < |list| => Element(list[i].meta, list[i].per, 0, false))
  }

  /** A chain of inferences from the target on (ic_parent links the other way). */
  datatype Chain = Start | Then(prev: Chain, hop: Hop)

  function Len(path: Chain): nat {
    if path.Start? then 0 else Len(path.prev) + 1
  }

  /** The first `d` hops. */
  function Prefix(path: Chain, d: nat): (r: Chain)
    requires d <= Len(path)
    ensures Len(r) == d
  {
    if d == Len(path) then path else Prefix(path.prev, d)
  }

  lemma {:induction false} PrefixOfPrefix(path: Chain, e: nat, d: nat)
    requires d <= e <= Len(path)
    ensures Prefix(Prefix(path, e), d) == Prefix(path, d)
    decreases path
  {
    if e < Len(path) {
      PrefixOfPrefix(path.prev, e, d);
    }
  }

  /** The name that a chain has arrived at. */
  function NameAt(target: string, path: Chain): string {
    if path.Start? then target else path.hop.name
  }

  /** The rules that match the name, as Match_dfa() lists them. */
  ghost function MatchSet(c: Config, name: string): seq<Element>
    requires Wf(c)
  {
    if NulFree(name) then Elements(Matching(c.patterns, |c.patterns|, name)) else []
  }

  /** The sets of the ancestors, the nearest first. */
  ghost function Stack(c: Config, target: string, path: Chain): seq<seq<Element>>
    requires Wf(c)
    decreases Len(path), 0
  {
    if path.Start? then []
    else [SetAt(c, target, path.prev)] + Stack(c, target, path.prev)
  }

  /** The set of rules that the search goes on with. */
  ghost function SetAt(c: Config, target: string, path: Chain): seq<Element>
    requires Wf(c)
    decreases Len(path), 1
  {
    Cut(MatchSet(c, NameAt(target, path)), Stack(c, target, path), c.prep)
  }

  /** One set for each proper prefix: the k-th from the top of the stack. */
  lemma {:induction false} StackAt(c: Config, target: string, path: Chain, d: nat)
    requires Wf(c) && d < Len(path)
    ensures |Stack(c, target, path)| == Len(path)
    ensures Stack(c, target, path)[Len(path) - 1 - d] == SetAt(c, target, Prefix(path, d))
  {
    hide SetAt;
    StackLength(c, target, path);
    if d < Len(path) - 1 {
      StackAt(c, target, path.prev, d);
    }
  }

  lemma {:induction false} StackLength(c: Config, target: string, path: Chain)
    requires Wf(c)
    ensures |Stack(c, target, path)| == Len(path)
  {
    if path.Then? {
      StackLength(c, target, path.prev);
    }
  }

  lemma MatchSetDistinct(c: Config, name: string)
    requires Wf(c)
    ensures Distinct(MatchSet(c, name))
    ensures forall e :: e in MatchSet(c, name) ==> e.meta < |c.patterns| && !e.delete && e.prep == 0
  {
    if NulFree(name) {
      var list := Matching(c.patterns, |c.patterns|, name);
      MatchingMetas(c.patterns, |c.patterns|, name);
    }
  }

  /** A machine is in the list at most once. */
  lemma MatchingMetas(names: seq<string>, n: nat, text: string)
    requires n <= |names| && AllMeta(names) && NulFree(text)
    ensures forall i :: 0 <= i < |Matching(names, n, text)| ==> Matching(names, n, text)[i].meta < n
    ensures forall i, j :: 0 <= i < j < |Matching(names, n, text)| ==>
              Matching(names, n, text)[i].meta != Matching(names, n, text)[j].meta
  {
    MatchingIsExact(names, n, text);
    var list := Matching(names, n, text);
    forall i | 0 <= i < |list| ensures list[i].meta < n {
      assert list[i] in list;
    }
    forall i, j | 0 <= i < j < |list| ensures list[i].meta != list[j].meta {
      assert Before(list[i], list[j]);
      assert Stands(names, list[i], text) && Stands(names, list[j], text);
    }
  }

  // ---- The search is finite for PREP 0 and 1 ----

  /** The sets along a chain, from the target on. */
  ghost function Trail(c: Config, target: string, path: Chain): (r: seq<set<nat>>)
    requires Wf(c)
    ensures |r| == Len(path)
    ensures forall d :: 0 <= d < Len(path) ==> r[d] == Metas(SetAt(c, target, Prefix(path, d)))
  {
    seq(Len(path), d requires 0 <= d < Len(path) => Metas(SetAt(c, target, Prefix(path, d))))
  }

  /** The search only goes on from a set that is not empty. */
  ghost predicate Alive(c: Config, target: string, path: Chain)
    requires Wf(c)
  {
    forall d :: 0 <= d < Len(path) ==> SetAt(c, target, Prefix(path, d)) != []
  }

  /** The set of a longer prefix was cut against that of a shorter one. */
  lemma CutAlong(c: Config, target: string, path: Chain, d: nat, e: nat)
    requires Wf(c) && d < e <= Len(path)
    ensures var pdfa, stack := MatchSet(c, NameAt(target, Prefix(path, e))), Stack(c, target, Prefix(path, e));
            && SetAt(c, target, Prefix(path, e)) == Cut(pdfa, stack, c.prep) && Distinct(pdfa)
            && e - 1 - d < |stack| && stack[e - 1 - d] == SetAt(c, target, Prefix(path, d))
  {
    hide Cut, MatchSet, Distinct, Matching, Wf, Stack;
    StackAt(c, target, Prefix(path, e), d);
    PrefixOfPrefix(path, e, d);
    MatchSetDistinct(c, NameAt(target, Prefix(path, e)));
  }

  /** PREP 0: no set on a chain is included in a later one. */
  lemma NeverIncluded(c: Config, target: string, path: Chain, d: nat, e: nat)
    requires Wf(c) && c.prep == 0 && d < e < Len(path) && SetAt(c, target, Prefix(path, d)) != []
    ensures !(Metas(SetAt(c, target, Prefix(path, d))) <= Metas(SetAt(c, target, Prefix(path, e))))
  {
    hide SetAt, Stack, Cut, MatchSet, Metas, Wf;
    CutAlong(c, target, path, d, e);
    CutAtZero(MatchSet(c, NameAt(target, Prefix(path, e))), Stack(c, target, Prefix(path, e)), e - 1 - d);
  }

  /** PREP 1: no set occurs on a chain three times. */
  lemma NeverThrice(c: Config, target: string, path: Chain, d: nat, e: nat, f: nat)
    requires Wf(c) && c.prep == 1 && d < e < f < Len(path) && SetAt(c, target, Prefix(path, e)) != []
    ensures !(Metas(SetAt(c, target, Prefix(path, d))) == Metas(SetAt(c, target, Prefix(path, e)))
              == Metas(SetAt(c, target, Prefix(path, f))))
  {
    hide SetAt, Stack, Cut, MatchSet, Metas;
    CutAlong(c, target, path, d, e);
    CutAlong(c, target, path, e, f);
    var s := SetAt(c, target, Prefix(path, e));
    var m := s[0].meta;
    assert Has(s, m);
    if Metas(SetAt(c, target, Prefix(path, d))) == Metas(s) == Metas(SetAt(c, target, Prefix(path, f))) {
      MetAgain(MatchSet(c, NameAt(target, Prefix(path, e))), Stack(c, target, Prefix(path, e)), e - 1 - d, m);
      CutAtOne(MatchSet(c, NameAt(target, Prefix(path, f))), Stack(c, target, Prefix(path, f)), f - 1 - e, m);
    }
  }

  ghost function Pow2(n: nat): (r: nat)
    ensures r >= 1
  {
    if n == 0 then 1 else 2 * Pow2(n - 1)
  }

  /** How deep the search can get. */
  ghost function Bound(c: Config): nat {
    var sets: nat := Pow2(|c.patterns|) - 1;
    (c.prep + 1) * sets
  }

  /** A chain on which the search goes on is no longer than the bound, however
      long the names get. */
  lemma ChainIsBounded(c: Config, target: string, path: Chain)
    requires Wf(c) && c.prep <= 1 && Alive(c, target, path)
    ensures Len(path) <= Bound(c)
  {
    hide SetAt, Stack, Subsets, Trail, Wf, Alive, Pow2;
    var trail, n := Trail(c, target, path), |c.patterns|;
    var all := Subsets(n) - {{}};
    SubsetsCount(n);
    assert |all| == Pow2(n) - 1;
    forall d | 0 <= d < |trail| ensures trail[d] in all {
      TrailInSubsets(c, target, path, d);
    }
    forall x ensures multiset(trail)[x] <= c.prep + 1 {
      NotOften(c, target, path, x);
    }
    ManyOfFew(multiset(trail), all, c.prep + 1);
  }

  lemma NotOften(c: Config, target: string, path: Chain, x: set<nat>)
    requires Wf(c) && c.prep <= 1 && Alive(c, target, path)
    ensures multiset(Trail(c, target, path))[x] <= c.prep + 1
  {
    hide SetAt, Stack, Wf;
    var t := Trail(c, target, path);
    if multiset(t)[x] > c.prep + 1 {
      assert t[..|t|] == t;
      OccursOften(t, x, c.prep + 2, |t|);
      var f :| 0 <= f < |t| && t[f] == x && Occurs(t, x, c.prep + 1, f);
      var e :| 0 <= e < f && t[e] == x && Occurs(t, x, c.prep, e);
      if c.prep == 0 {
        NeverIncluded(c, target, path, e, f);
      } else {
        var d :| 0 <= d < e && t[d] == x && Occurs(t, x, 0, d);
        NeverThrice(c, target, path, d, e, f);
      }
    }
  }

  lemma TrailInSubsets(c: Config, target: string, path: Chain, d: nat)
    requires Wf(c) && Alive(c, target, path) && d < Len(path)
    ensures Trail(c, target, path)[d] in Subsets(|c.patterns|) && Trail(c, target, path)[d] != {}
  {
    var s := SetAt(c, target, Prefix(path, d));
    assert s[0].meta in Metas(s);
    forall m | m in Metas(s) ensures m < |c.patterns| {
      var pdfa := MatchSet(c, NameAt(target, Prefix(path, d)));
      MatchSetDistinct(c, NameAt(target, Prefix(path, d)));
      Survivor(pdfa, Stack(c, target, Prefix(path, d)), c.prep, m);
      assert pdfa[Find(pdfa, m)] in pdfa;
    }
    InSubsets(Metas(s), |c.patterns|);
  }

  /** `x` occurs at `k` positions below `limit`. */
  ghost predicate Occurs<T>(s: seq<T>, x: T, k: nat, limit: nat)
    requires limit <= |s|
  {
    k == 0 || exists i :: 0 <= i < limit && s[i] == x && Occurs(s, x, k - 1, i)
  }

  lemma {:induction false} OccursOften<T>(s: seq<T>, x: T, k: nat, limit: nat)
    requires limit <= |s| && multiset(s[..limit])[x] >= k
    ensures Occurs(s, x, k, limit)
  {
    if k > 0 {
      assert limit > 0;
      var last := limit - 1;
      assert s[..limit] == s[..last] + [s[last]];
      if s[last] == x {
        OccursOften(s, x, k - 1, last);
      } else {
        OccursOften(s, x, k, last);
      }
    }
  }

  /** Pigeonholes: few values, none of them often. */
  lemma {:induction false} ManyOfFew<T>(m: multiset<T>, all: set<T>, k: nat)
    requires (forall x :: x in m ==> x in all) && forall x :: m[x] <= k
    ensures |m| <= k * |all|
    decreases all
  {
    if all == {} {
      assert m == multiset{};
    } else {
      var x :| x in all;
      var rest := m[x := 0];
      ManyOfFew(rest, all - {x}, k);
      assert |m| == |rest| + m[x];
      assert k * |all| == k * |all - {x}| + k;
    }
  }

  ghost function Subsets(n: nat): set<set<nat>> {
    if n == 0 then {{}} else Subsets(n - 1) + With(Subsets(n - 1), n - 1)
  }

  ghost function With(family: set<set<nat>>, x: nat): set<set<nat>> {
    set s | s in family :: s + {x}
  }

  lemma {:induction false} InSubsets(s: set<nat>, n: nat)
    requires forall m :: m in s ==> m < n
    ensures s in Subsets(n)
  {
    if n == 0 {
      assert s == {};
    } else if n - 1 in s {
      InSubsets(s - {n - 1}, n - 1);
      assert s == (s - {n - 1}) + {n - 1};
    } else {
      InSubsets(s, n - 1);
    }
  }

  lemma {:induction false} SubsetsBelow(n: nat)
    ensures forall s, m :: s in Subsets(n) && m in s ==> m < n
  {
    if n > 0 {
      SubsetsBelow(n - 1);
    }
  }

  lemma {:induction false} WithCount(family: set<set<nat>>, x: nat)
    requires forall s :: s in family ==> x !in s
    ensures |With(family, x)| == |family|
  {
    if family != {} {
      var s :| s in family;
      WithCount(family - {s}, x);
      WithOneMore(family, s, x);
    }
  }

  lemma WithOneMore(family: set<set<nat>>, s: set<nat>, x: nat)
    requires s in family && forall t :: t in family ==> x !in t
    ensures With(family, x) == With(family - {s}, x) + {s + {x}} && s + {x} !in With(family - {s}, x)
  {
    forall t | t in family - {s} ensures t + {x} != s + {x} {
      assert t == (t + {x}) - {x} && s == (s + {x}) - {x};
    }
  }

  lemma {:induction false} SubsetsCount(n: nat)
    ensures |Subsets(n)| == Pow2(n) && {} in Subsets(n)
  {
    hide With;
    if n > 0 {
      SubsetsCount(n - 1);
      SubsetsBelow(n - 1);
      TwiceAsMany(Subsets(n - 1), n - 1);
    }
  }

  lemma TwiceAsMany(family: set<set<nat>>, x: nat)
    requires forall s :: s in family ==> x !in s
    ensures |family + With(family, x)| == 2 * |family|
  {
    WithCount(family, x);
    assert family !! With(family, x);
  }

  // ---- The candidates for one name ----

  function HopOf(c: Config, e: Element, x: nat): Hop
    requires e.meta < |c.edges| && x < |c.edges[e.meta]|
  {
    match c.edges[e.meta][x]
    case Bare => Hop(e.meta, x, e.per, true, "")
    case Plain(prq, _) => Hop(e.meta, x, e.per, false, BuildName(prq, e.per))
  }

  /** More dots in the prerequisite pattern than in the target pattern. */
  function DotFix(c: Config, h: Hop): nat
    requires h.meta < |c.edges| == |c.patterns| && h.edge < |c.edges[h.meta]|
  {
    match c.edges[h.meta][h.edge]
    case Bare => 0
    case Plain(prq, _) =>
      var more := CountDots(prq) - CountDots(c.patterns[h.meta]);
      if more < 0 then 0 else more
  }

  /** The inferred name is another one, and has not too many dots. */
  predicate Allowed(c: Config, target: string, name: string, h: Hop)
    requires h.meta < |c.edges| == |c.patterns| && h.edge < |c.edges[h.meta]|
  {
    h.bare || (h.name != name && CountDots(h.name) <= DotLimit(c, target) + DotFix(c, h))
  }

  /** What the first `x` edges of a matched rule offer. */
  function EdgeHops(c: Config, target: string, name: string, e: Element, x: nat): seq<Hop>
    requires |c.edges| == |c.patterns| && e.meta < |c.edges| && x <= |c.edges[e.meta]|
  {
    if x == 0 then []
    else
      var h := HopOf(c, e, x - 1);
      EdgeHops(c, target, name, e, x - 1) + if Allowed(c, target, name, h) then [h] else []
  }

  ghost predicate Proper(c: Config, dfas: seq<Element>) {
    |c.edges| == |c.patterns| && forall i :: 0 <= i < |dfas| ==> dfas[i].meta < |c.edges|
  }

  /** All candidates, in the order in which they are tried. */
  ghost function Candidates(c: Config, target: string, name: string, dfas: seq<Element>): seq<Hop>
    requires Proper(c, dfas)
  {
    if dfas == [] then []
    else
      var e := dfas[|dfas| - 1];
      Candidates(c, target, name, dfas[..|dfas| - 1]) + EdgeHops(c, target, name, e, |c.edges[e.meta]|)
  }

  predicate Exists(c: Config, h: Hop) {
    h.bare || h.name in c.present
  }

  /** The prerequisite exists, can be made, or there is none. */
  predicate Fits(c: Config, h: Hop) {
    Exists(c, h) || h.name in c.recipes
  }

  predicate Barred(c: Config, h: Hop)
    requires h.meta < |c.edges| && h.edge < |c.edges[h.meta]|
  {
    c.noInfer || (c.edges[h.meta][h.edge].Plain? && c.edges[h.meta][h.edge].noInfer)
  }

  ghost predicate InRange(c: Config, cs: seq<Hop>) {
    forall i :: 0 <= i < |cs| ==> cs[i].meta < |c.edges| && cs[i].edge < |c.edges[cs[i].meta]|
  }

  /** add_iset() puts every new entry at the head. */
  function MatchesIn(c: Config, cs: seq<Hop>): (r: seq<Hop>)
    ensures forall h :: h in r <==> h in cs && Fits(c, h)
  {
    if cs == [] then []
    else
      var k := |cs| - 1;
      assert cs == cs[..k] + [cs[k]];
      (if Fits(c, cs[k]) then [cs[k]] else []) + MatchesIn(c, cs[..k])
  }

  function OpenIn(c: Config, cs: seq<Hop>): (r: seq<Hop>)
    requires InRange(c, cs)
    ensures forall h :: h in r ==> h in cs && !Fits(c, h) && !Barred(c, h)
    ensures MatchesIn(c, cs) == [] ==> forall h :: h in cs && !Barred(c, h) ==> h in r
  {
    if cs == [] then []
    else
      var k := |cs| - 1;
      assert cs == cs[..k] + [cs[k]];
      (if !Fits(c, cs[k]) && !Barred(c, cs[k]) && MatchesIn(c, cs[..k]) == [] then [cs[k]] else []) + OpenIn(c, cs[..k])
  }

  ghost predicate HopOfFirst(c: Config, target: string, name: string, e: Element, x: nat, h: Hop)
    requires |c.edges| == |c.patterns| && e.meta < |c.edges| && x <= |c.edges[e.meta]|
  {
    h.edge < x && h == HopOf(c, e, h.edge) && Allowed(c, target, name, h)
  }

  lemma {:induction false} HopMembers(c: Config, target: string, name: string, e: Element, x: nat, h: Hop)
    requires |c.edges| == |c.patterns| && e.meta < |c.edges| && x <= |c.edges[e.meta]|
    ensures h in EdgeHops(c, target, name, e, x) <==> HopOfFirst(c, target, name, e, x, h)
  {
    hide HopOf, Allowed;
    if x > 0 {
      HopMembers(c, target, name, e, x - 1, h);
      HopOfEdge(c, e, x - 1);
    }
  }

  lemma HopsInRange(c: Config, target: string, name: string, e: Element, x: nat)
    requires |c.edges| == |c.patterns| && e.meta < |c.edges| && x <= |c.edges[e.meta]|
    ensures InRange(c, EdgeHops(c, target, name, e, x))
    ensures forall h :: h in EdgeHops(c, target, name, e, x) <==> HopOfFirst(c, target, name, e, x, h)
  {
    hide HopOf, Allowed, EdgeHops;
    var hops := EdgeHops(c, target, name, e, x);
    forall h ensures h in hops <==> HopOfFirst(c, target, name, e, x, h) {
      HopMembers(c, target, name, e, x, h);
    }
    forall i | 0 <= i < |hops| ensures hops[i].meta < |c.edges| && hops[i].edge < |c.edges[hops[i].meta]| {
      assert hops[i] in hops;
      HopOfEdge(c, e, hops[i].edge);
    }
  }

  lemma HopOfEdge(c: Config, e: Element, x: nat)
    requires e.meta < |c.edges| && x < |c.edges[e.meta]|
    ensures HopOf(c, e, x).meta == e.meta && HopOf(c, e, x).edge == x
  {
  }

  /** The hop is an edge of a matched rule, with % replaced by its stem. */
  ghost predicate HopFrom(c: Config, target: string, name: string, e: Element, h: Hop) {
    && |c.edges| == |c.patterns| && e.meta < |c.edges| && h.edge < |c.edges[e.meta]|
    && h == HopOf(c, e, h.edge) && Allowed(c, target, name, h)
  }

  ghost predicate Offered(c: Config, target: string, name: string, dfas: seq<Element>, h: Hop) {
    exists e :: e in dfas && HopFrom(c, target, name, e, h)
  }

  lemma {:induction false} CandidatesOffered(c: Config, target: string, name: string, dfas: seq<Element>)
    requires Proper(c, dfas)
    ensures InRange(c, Candidates(c, target, name, dfas))
    ensures forall h :: h in Candidates(c, target, name, dfas) <==> Offered(c, target, name, dfas, h)
  {
    if dfas != [] {
      var last := |dfas| - 1;
      var e := dfas[last];
      CandidatesOffered(c, target, name, dfas[..last]);
      HopsInRange(c, target, name, e, |c.edges[e.meta]|);
      hide HopFrom;
      forall h ensures Offered(c, target, name, dfas, h) <==> Offered(c, target, name, dfas[..last], h) || HopFrom(c, target, name, e, h) {
        OneMore(c, target, name, dfas, h);
      }
      forall h ensures HopFrom(c, target, name, e, h) <==> h in EdgeHops(c, target, name, e, |c.edges[e.meta]|) {
        FromEdge(c, target, name, e, h);
      }
    }
  }

  lemma FromEdge(c: Config, target: string, name: string, e: Element, h: Hop)
    requires |c.edges| == |c.patterns| && e.meta < |c.edges|
    ensures HopFrom(c, target, name, e, h) <==> h in EdgeHops(c, target, name, e, |c.edges[e.meta]|)
  {
    HopsInRange(c, target, name, e, |c.edges[e.meta]|);
  }

  lemma OneMore(c: Config, target: string, name: string, dfas: seq<Element>, h: Hop)
    requires dfas != []
    ensures Offered(c, target, name, dfas, h) <==>
            Offered(c, target, name, dfas[..|dfas| - 1], h) || HopFrom(c, target, name, dfas[|dfas| - 1], h)
  {
    hide HopFrom;
    var last := |dfas| - 1;
    assert dfas == dfas[..last] + [dfas[last]];
    forall e ensures e in dfas <==> e in dfas[..last] || e == dfas[last] {}
  }

  // ---- Chains of rules, independently of the search ----

  /** Hop `h` continues the chain: it is offered by a rule of the set there. */
  ghost predicate Step(c: Config, target: string, path: Chain, h: Hop)
    requires Wf(c)
  {
    Offered(c, target, NameAt(target, path), SetAt(c, target, path), h)
  }

  /** A chain all of whose names do not exist, have no recipe, and may be inferred. */
  ghost predicate Reachable(c: Config, target: string, path: Chain)
    requires Wf(c)
    decreases Len(path)
  {
    match path
    case Start => true
    case Then(prev, h) =>
      && Reachable(c, target, prev) && Step(c, target, prev, h)
      && !Fits(c, h) && h.meta < |c.edges| && h.edge < |c.edges[h.meta]| && !Barred(c, h)
  }

  /** A chain that ends in something that exists or can be made. */
  ghost predicate Solution(c: Config, target: string, path: Chain)
    requires Wf(c)
  {
    && path.Then? && Reachable(c, target, path.prev)
    && Step(c, target, path.prev, path.hop) && Fits(c, path.hop)
  }

  lemma SetFacts(c: Config, target: string, path: Chain)
    requires Wf(c)
    ensures Proper(c, SetAt(c, target, path))
    ensures forall e :: e in SetAt(c, target, path) ==>
              e.meta < |c.patterns| && NulFree(NameAt(target, path)) && Accepts(c.patterns[e.meta], NameAt(target, path), e.per)
  {
    var name := NameAt(target, path);
    var pdfa, stack := MatchSet(c, name), Stack(c, target, path);
    var a := Against(pdfa, stack, c.prep);
    forall e | e in Cut(pdfa, stack, c.prep)
      ensures e.meta < |c.patterns| && NulFree(name) && Accepts(c.patterns[e.meta], name, e.per)
    {
      var i :| 0 <= i < |a| && a[i] == e;
      var list := Matching(c.patterns, |c.patterns|, name);
      MatchingIsExact(c.patterns, |c.patterns|, name);
      assert list[i] in list && Stands(c.patterns, list[i], name);
    }
  }

  /** Every step of a chain follows a rule: the target pattern of the rule
      accepts the name with some stem, and the next name is the prerequisite
      pattern with that stem. */
  lemma StepFollowsRule(c: Config, target: string, path: Chain, h: Hop)
    requires Wf(c) && Step(c, target, path, h)
    ensures h.meta < |c.patterns| && h.edge < |c.edges[h.meta]|
    ensures NulFree(NameAt(target, path)) && Accepts(c.patterns[h.meta], NameAt(target, path), h.per) && NulFree(h.per)
    ensures match c.edges[h.meta][h.edge]
            case Bare => h.bare
            case Plain(prq, _) => !h.bare && h.name == BuildName(prq, h.per) && NulFree(h.name)
    ensures SetAt(c, target, path) != []
  {
    hide SetAt, Accepts, Wf, NulFree;
    SetFacts(c, target, path);
    var name := NameAt(target, path);
    var e :| e in SetAt(c, target, path) && HopFrom(c, target, name, e, h);
    PrqIsNulFree(c, e.meta, h.edge);
    StemIsNulFree(c.patterns, e.meta, name, e.per);
  }

  lemma {:induction false} BuildAppend(a: string, b: string, per: string)
    ensures BuildName(a + b, per) == BuildName(a, per) + BuildName(b, per)
  {
    hide BuildName;
    BuildStep(a + b, per);
    BuildStep(a, per);
    if a == "" {
      assert a + b == b;
    } else {
      assert (a + b)[0] == a[0] && (a + b)[1..] == a[1..] + b;
      BuildAppend(a[1..], b, per);
      Concat(BuildFirst(a[0], per), BuildName(a[1..], per), BuildName(b, per));
    }
  }

  function BuildFirst(c: char, per: string): string {
    if c == '%' then per else [c]
  }

  lemma BuildStep(s: string, per: string)
    ensures BuildName(s, per) == if s == "" then "" else BuildFirst(s[0], per) + BuildName(s[1..], per)
  {
  }

  lemma Concat(a: string, b: string, c: string)
    ensures (a + b) + c == a + (b + c) && "" + a == a && a + "" == a
  {
  }

  lemma {:induction false} BuildPlain(s: string, per: string)
    requires '%' !in s
    ensures BuildName(s, per) == s
  {
    if s != "" {
      BuildPlain(s[1..], per);
    }
  }

  /** Exactly the text of % is put in the place of %. */
  lemma BuildAround(a: string, b: string, per: string)
    requires '%' !in a && '%' !in b
    ensures BuildName(a + "%" + b, per) == a + per + b
  {
    hide BuildName;
    BuildPlain(a, per);
    BuildPlain(b, per);
    BuildAppend(a + "%", b, per);
    BuildAppend(a, "%", per);
    BuildStep("%", per);
    BuildStep("", per);
    assert "%"[1..] == "" && BuildName("%", per) == per + "";
    Concat(per, "", "");
    Concat(a, per, b);
  }

  ghost function Dots(s: string): int {
    multiset(s)['.']
  }

  lemma {:induction false} DotsCounted(name: string)
    ensures CountDots(name) == Dots(name)
  {
    if name != "" {
      DotsCounted(name[1..]);
      assert name == [name[0]] + name[1..];
    }
  }

  /** The bound for the dots of an inferred name: those of the target, at least
      one, and PREP more, and as many as the prerequisite has more than the rule. */
  ghost predicate FewDots(c: Config, target: string, pattern: string, prq: string, name: string) {
    var limit, more := Dots(target) + c.prep, Dots(prq) - Dots(pattern);
    Dots(name) <= (if limit > 1 then limit else 1) + (if more > 0 then more else 0)
  }

  /** The name that a step leads to, spelt out: the prerequisite of the rule with
      the text between the two parts of the target pattern in the place of %. */
  lemma NextName(c: Config, target: string, path: Chain, h: Hop, a: string, b: string)
    requires Wf(c) && Step(c, target, path, h) && !h.bare && h.meta < |c.edges| && h.edge < |c.edges[h.meta]|
    requires c.edges[h.meta][h.edge].Plain? && '%' !in a && '%' !in b
    ensures c.edges[h.meta][h.edge].prq == a + "%" + b ==> h.name == a + h.per + b
    ensures c.edges[h.meta][h.edge].prq == a ==> h.name == a
    ensures NameAt(target, path) == c.patterns[h.meta][..PercentAt(c.patterns[h.meta])] + h.per + c.patterns[h.meta][PercentAt(c.patterns[h.meta]) + 1..]
    ensures h.name != NameAt(target, path) && FewDots(c, target, c.patterns[h.meta], c.edges[h.meta][h.edge].prq, h.name)
  {
    hide Step, Wf, SetAt, NulFree, BuildName, CountDots;
    StepFollowsRule(c, target, path, h);
    StepExactly(c, target, path, h);
    PrqIsNulFree(c, h.meta, h.edge);
    BuildAround(a, b, h.per);
    BuildPlain(a, h.per);
  }

  /** The hop applies its rule rightly: to another name, with few dots. */
  ghost predicate Applies(c: Config, target: string, name: string, h: Hop) {
    && h.meta < |c.edges| == |c.patterns| && h.edge < |c.edges[h.meta]|
    && match c.edges[h.meta][h.edge]
       case Bare => h.bare && h.name == ""
       case Plain(prq, _) =>
         && !h.bare && h.name == BuildName(prq, h.per)
         && h.name != name && FewDots(c, target, c.patterns[h.meta], prq, h.name)
  }

  ghost predicate InSet(s: seq<Element>, h: Hop) {
    exists e :: e in s && e.meta == h.meta && e.per == h.per
  }

  /** The steps from a name are exactly the applications of the rules in its set. */
  lemma StepExactly(c: Config, target: string, path: Chain, h: Hop)
    requires Wf(c)
    ensures Step(c, target, path, h) <==> InSet(SetAt(c, target, path), h) && Applies(c, target, NameAt(target, path), h)
  {
    hide SetAt, Wf, Applies, FewDots, BuildName, CountDots;
    var s, name := SetAt(c, target, path), NameAt(target, path);
    SetFacts(c, target, path);
    EdgesKnown(c);
    forall e | e in s && e.meta == h.meta && e.per == h.per ensures HopFrom(c, target, name, e, h) <==> Applies(c, target, name, h) {
      HopExactly(c, target, name, e, h);
    }
    forall e | e in s && HopFrom(c, target, name, e, h) ensures e.meta == h.meta && e.per == h.per {
    }
  }

  lemma EdgesKnown(c: Config)
    requires Wf(c)
    ensures |c.edges| == |c.patterns|
  {
  }

  lemma HopExactly(c: Config, target: string, name: string, e: Element, h: Hop)
    requires e.meta == h.meta && e.per == h.per && |c.edges| == |c.patterns|
    ensures HopFrom(c, target, name, e, h) <==> Applies(c, target, name, h)
  {
    hide CountDots, BuildName;
    DotsCounted(target);
    DotsCounted(h.name);
    if h.meta < |c.edges| && h.edge < |c.edges[h.meta]| && c.edges[h.meta][h.edge].Plain? {
      DotsCounted(c.patterns[h.meta]);
      DotsCounted(c.edges[h.meta][h.edge].prq);
    }
  }

  /** What hop number `d` of an answer must be: an application of a rule, to a
      name that exists or has a recipe at the end of the chain, and before that to
      one that does not, by a rule that may be used for inference. */
  ghost predicate Sound(c: Config, target: string, path: Chain, d: nat)
    requires Wf(c) && d < Len(path)
  {
    var h := Prefix(path, d + 1).hop;
    && Step(c, target, Prefix(path, d), h)
    && if d + 1 == Len(path) then h.bare || h.name in c.present || h.name in c.recipes
       else !h.bare && h.name !in c.present && h.name !in c.recipes && !c.noInfer && MayInfer(c, h)
  }

  ghost predicate MayInfer(c: Config, h: Hop) {
    h.meta < |c.edges| && h.edge < |c.edges[h.meta]| && (c.edges[h.meta][h.edge].Plain? ==> !c.edges[h.meta][h.edge].noInfer)
  }

  /** The answers are exactly the chains of such hops. */
  lemma AnswerExactly(c: Config, target: string, path: Chain)
    requires Wf(c)
    ensures Solution(c, target, path) <==> path.Then? && forall d: nat :: d < Len(path) ==> Sound(c, target, path, d)
  {
    hide Step, Wf, Reachable, Prefix;
    if path.Then? {
      ReachableExactly(c, target, path.prev);
      var n := Len(path.prev);
      PrefixOfLonger(path);
      if Solution(c, target, path) {
        forall d: nat | d < Len(path) ensures Sound(c, target, path, d) {
          assert d < n ==> Passable(c, target, path.prev, d);
        }
      }
      if forall d: nat :: d < Len(path) ==> Sound(c, target, path, d) {
        assert Sound(c, target, path, n);
        forall d: nat | d < n ensures Passable(c, target, path.prev, d) {
          assert Sound(c, target, path, d);
        }
      }
    }
  }

  lemma PrefixOfLonger(path: Chain)
    requires path.Then?
    ensures Prefix(path, Len(path)) == path && Prefix(path, Len(path.prev)) == path.prev && Len(path) == Len(path.prev) + 1
    ensures forall d: nat :: d <= Len(path.prev) ==> Prefix(path, d) == Prefix(path.prev, d)
  {
  }

  ghost predicate Passable(c: Config, target: string, path: Chain, d: nat)
    requires Wf(c) && d < Len(path)
  {
    var h := Prefix(path, d + 1).hop;
    && Step(c, target, Prefix(path, d), h) && !h.bare && h.name !in c.present && h.name !in c.recipes
    && !c.noInfer && MayInfer(c, h)
  }

  lemma {:induction false} ReachableExactly(c: Config, target: string, path: Chain)
    requires Wf(c)
    ensures Reachable(c, target, path) <==> forall d: nat :: d < Len(path) ==> Passable(c, target, path, d)
    decreases Len(path)
  {
    hide Step, Wf, Prefix;
    if path.Then? {
      var n := Len(path.prev);
      ReachableExactly(c, target, path.prev);
      PrefixOfLonger(path);
      assert forall d: nat :: d < n ==> (Passable(c, target, path, d) <==> Passable(c, target, path.prev, d));
      assert Passable(c, target, path, n) <==>
        Step(c, target, path.prev, path.hop) && !Fits(c, path.hop) && path.hop.meta < |c.edges|
        && path.hop.edge < |c.edges[path.hop.meta]| && !Barred(c, path.hop);
    }
  }

  lemma PrqIsNulFree(c: Config, m: nat, x: nat)
    requires Wf(c)
    ensures AllMeta(c.patterns) && |c.edges| == |c.patterns|
    ensures m < |c.edges| && x < |c.edges[m]| && c.edges[m][x].Plain? ==> NulFree(c.edges[m][x].prq)
  {
  }

  lemma StemIsNulFree(patterns: seq<string>, m: nat, name: string, per: string)
    requires AllMeta(patterns) && m < |patterns| && NulFree(name) && Accepts(patterns[m], name, per)
    ensures NulFree(per)
  {
    var p := PercentAt(patterns[m]);
    PerIsNulFree(name, patterns[m][..p], per, patterns[m][p + 1..]);
  }

  lemma PerIsNulFree(name: string, a: string, per: string, b: string)
    requires NulFree(name) && name == a + per + b
    ensures NulFree(per)
  {
    forall i | 0 <= i < |per| ensures per[i] != NUL {
      assert name[|a| + i] == per[i];
    }
  }

  /** The search only goes on from non-empty sets, so it ends. */
  lemma {:induction false} ReachableIsAlive(c: Config, target: string, path: Chain)
    requires Wf(c) && Reachable(c, target, path) && NulFree(target)
    ensures Alive(c, target, path) && NulFree(NameAt(target, path))
    decreases Len(path)
  {
    hide SetAt, Step, Wf, Fits, Barred, NulFree;
    if path.Then? {
      ReachableIsAlive(c, target, path.prev);
      StepFollowsRule(c, target, path.prev, path.hop);
      NotBare(c, path.hop);
      forall d | 0 <= d < Len(path) ensures SetAt(c, target, Prefix(path, d)) != [] {
        assert Prefix(path, d) == Prefix(path.prev, d);
      }
    }
  }

  lemma NotBare(c: Config, h: Hop)
    ensures !Fits(c, h) ==> !h.bare
  {
  }

  // ---- The search is finite for layered rules, whatever PREP is ----

  /** What the prerequisite of a rule can become is only matched by rules of
      lower rank. */
  ghost predicate Layered(c: Config, rank: seq<nat>)
    requires Wf(c)
  {
    |rank| == |c.patterns| &&
    forall i: nat, x: nat, per, stem, j: nat ::
      i < |c.edges| && x < |c.edges[i]| && Feeds(c, i, x, per, j, stem) ==> rank[j] < rank[i]
  }

  /** With `per` for %, edge `x` of rule `i` gives a name that rule `j` matches. */
  ghost predicate Feeds(c: Config, i: nat, x: nat, per: string, j: nat, stem: string)
    requires Wf(c) && i < |c.edges| && x < |c.edges[i]|
  {
    c.edges[i][x].Plain? && NulFree(per) && j < |c.patterns| && Accepts(c.patterns[j], BuildName(c.edges[i][x].prq, per), stem)
  }

  /** A quick test: unless one of them ends in %, the prerequisite and the target
      that matches it end in the same character. */
  lemma FeedsByLast(c: Config, i: nat, x: nat, per: string, j: nat, stem: string)
    requires Wf(c) && i < |c.edges| && x < |c.edges[i]| && Feeds(c, i, x, per, j, stem)
    ensures var prq, name := c.edges[i][x].prq, c.patterns[j];
            && name != "" && (name[|name| - 1] != '%' ==> BuildName(prq, per) != "")
            && (prq != "" && prq[|prq| - 1] != '%' && name[|name| - 1] != '%' ==> prq[|prq| - 1] == name[|name| - 1])
  {
    LastBuilt(c.edges[i][x].prq, per);
    hide BuildName, IsStem;
  }

  lemma {:induction false} LastBuilt(meta: string, per: string)
    ensures meta != "" && meta[|meta| - 1] != '%' ==>
              BuildName(meta, per) != "" && BuildName(meta, per)[|BuildName(meta, per)| - 1] == meta[|meta| - 1]
  {
    if |meta| > 1 {
      LastBuilt(meta[1..], per);
    } else if |meta| == 1 {
      assert BuildName(meta[1..], per) == "";
    }
  }

  function Top(rank: seq<nat>): (r: nat)
    ensures forall i :: 0 <= i < |rank| ==> rank[i] <= r
  {
    if rank == [] then 0
    else
      var r := Top(rank[1..]);
      assert forall i :: 0 < i < |rank| ==> rank[i] == rank[1..][i - 1];
      if rank[0] > r then rank[0] else r
  }

  /** Along a chain the rank drops, so there are no more steps than ranks. */
  lemma {:induction false} LayersBound(c: Config, target: string, path: Chain, rank: seq<nat>)
    requires Wf(c) && Layered(c, rank) && Reachable(c, target, path) && NulFree(target)
    ensures path.Then? ==> path.hop.meta < |rank| && rank[path.hop.meta] + Len(path) <= Top(rank) + 1
    ensures Len(path) <= Top(rank) + 1
    decreases Len(path)
  {
    hide Wf, Step, Fits, Barred, Layered, NulFree, Top;
    if path.Then? {
      LayersBound(c, target, path.prev, rank);
      StepFollowsRule(c, target, path.prev, path.hop);
      LayeredRanks(c, rank);
      if path.prev.Then? {
        StepFollowsRule(c, target, path.prev.prev, path.prev.hop);
        NotBare(c, path.prev.hop);
        RankFalls(c, rank, path.prev.hop, path.hop);
      }
    }
  }

  lemma LayeredRanks(c: Config, rank: seq<nat>)
    requires Wf(c) && Layered(c, rank)
    ensures |rank| == |c.patterns| && forall i :: 0 <= i < |rank| ==> rank[i] <= Top(rank)
  {
  }

  lemma RankFalls(c: Config, rank: seq<nat>, g: Hop, h: Hop)
    requires Wf(c) && Layered(c, rank) && g.meta < |c.patterns| && g.edge < |c.edges[g.meta]| && h.meta < |c.patterns|
    requires !g.bare && NulFree(g.name) && Accepts(c.patterns[h.meta], g.name, h.per)
    requires c.edges[g.meta][g.edge].Plain? && g.name == BuildName(c.edges[g.meta][g.edge].prq, g.per) && NulFree(g.per)
    ensures |rank| == |c.patterns| && rank[h.meta] < rank[g.meta]
  {
    hide Accepts;
    assert Feeds(c, g.meta, g.edge, g.per, h.meta, h.per);
  }

  /** When the search is known to end: PREP is 0 or 1, or the rules are layered. */
  ghost predicate Ending(c: Config, rank: seq<nat>) {
    Wf(c) && (c.prep <= 1 || Layered(c, rank))
  }

  ghost function Limit(c: Config, rank: seq<nat>): nat {
    if c.prep <= 1 then Bound(c) else Top(rank) + 1
  }

  // ---- The search is infinite for PREP from 2 on ----

  /** The single rule `% : a%`, and nothing that exists. */
  function Endless(prep: nat): Config {
    Config(["%"], [[Plain("a%", false)]], {}, {}, prep, false, true)
  }

  ghost function EndlessName(target: string, d: nat): string {
    if d == 0 then target else "a" + EndlessName(target, d - 1)
  }

  ghost function EndlessPath(target: string, d: nat): (r: Chain)
    ensures Len(r) == d
  {
    if d == 0 then Start else Then(EndlessPath(target, d - 1), EndlessHop(target, d - 1))
  }

  lemma {:induction false} EndlessNames(target: string, d: nat)
    requires NulFree(target)
    ensures NulFree(EndlessName(target, d)) && CountDots(EndlessName(target, d)) == CountDots(target)
    ensures NameAt(target, EndlessPath(target, d)) == EndlessName(target, d)
    ensures d > 0 ==> BuildName("a%", EndlessName(target, d - 1)) == EndlessName(target, d)
  {
    if d > 0 {
      EndlessNames(target, d - 1);
      assert EndlessName(target, d)[1..] == EndlessName(target, d - 1);
      var n := EndlessName(target, d - 1);
      assert "a%"[1..] == "%" && "%"[1..] == "";
      assert BuildName("%", n) == n + BuildName("", n) == n;
    }
  }

  lemma EndlessIsWf(prep: nat)
    ensures Wf(Endless(prep)) && PercentAt("%") == 0 && Meta("%", 0) && IsMeta("%")
  {
    assert Meta("%", 0);
    assert NulFree("a%");
  }

  /** The rule matches every name, with the whole name for %. */
  lemma EndlessMatch(prep: nat, name: string)
    requires NulFree(name)
    ensures Wf(Endless(prep)) && MatchSet(Endless(prep), name) == [Element(0, name, 0, false)]
  {
    EndlessIsWf(prep);
    var names := Endless(prep).patterns;
    EndlessAccepts(name);
    hide Wf, Matches, Alone, IsMeta, IsStem;
    AloneStands(names, 0, name);
    var m := Alone(names[0], name);
    assert Matching(names, 0, name) == [];
    assert Matching(names, 1, name) == [LinkOf(m, 0, name)];
  }

  lemma EndlessAccepts(name: string)
    ensures IsMeta("%") && Accepts("%", name, name)
  {
    EndlessIsWf(0);
    PlainStem(name, "");
    assert "%"[..0] + name + "%"[1..] == name;
  }

  /** The oldest ancestor has the last word on the count. */
  lemma {:induction false} LastWord(x: Element, stack: seq<seq<Element>>, prep: nat)
    requires x.meta == 0 && x.prep == 0 && !x.delete && prep >= 2
    requires forall k :: 0 <= k < |stack| ==> |stack[k]| == 1 && stack[k][0].meta == 0 && stack[k][0].prep <= 1
    ensures Against([x], stack, prep) == [x.(prep := if stack == [] then 0 else stack[|stack| - 1][0].prep + 1)]
  {
    if stack != [] {
      var last := |stack| - 1;
      LastWord(x, stack[..last], prep);
      var y := Against([x], stack[..last], prep)[0];
      assert Has([y], 0) && Has(stack[last], 0);
    }
  }

  ghost function EndlessElement(target: string, d: nat): Element {
    Element(0, EndlessName(target, d), if d == 0 then 0 else 1, false)
  }

  lemma {:induction false} EndlessSet(prep: nat, target: string, d: nat)
    requires prep >= 2 && NulFree(target)
    ensures Wf(Endless(prep))
    ensures SetAt(Endless(prep), target, EndlessPath(target, d)) == [EndlessElement(target, d)]
  {
    hide SetAt, Stack, Wf, EndlessName, EndlessPath, EndlessElement;
    EndlessIsWf(prep);
    forall k | 0 <= k < d
      ensures SetAt(Endless(prep), target, EndlessPath(target, k)) == [EndlessElement(target, k)]
    {
      EndlessSet(prep, target, k);
    }
    EndlessStack(prep, target, d);
    EndlessCut(prep, target, d);
  }

  lemma EndlessStack(prep: nat, target: string, d: nat)
    requires Wf(Endless(prep))
    requires forall k :: 0 <= k < d ==> SetAt(Endless(prep), target, EndlessPath(target, k)) == [EndlessElement(target, k)]
    ensures var stack := Stack(Endless(prep), target, EndlessPath(target, d));
            |stack| == d && forall k :: 0 <= k < d ==> stack[k] == [EndlessElement(target, d - 1 - k)]
  {
    hide SetAt, Wf, EndlessName, EndlessElement, Stack;
    var c, path := Endless(prep), EndlessPath(target, d);
    StackLength(c, target, path);
    forall k | 0 <= k < d ensures Stack(c, target, path)[k] == [EndlessElement(target, d - 1 - k)] {
      StackAt(c, target, path, d - 1 - k);
      EndlessPrefix(target, d, d - 1 - k);
    }
  }

  lemma EndlessCut(prep: nat, target: string, d: nat)
    requires Wf(Endless(prep)) && prep >= 2 && NulFree(target)
    requires var stack := Stack(Endless(prep), target, EndlessPath(target, d));
             |stack| == d && forall k :: 0 <= k < d ==> stack[k] == [EndlessElement(target, d - 1 - k)]
    ensures SetAt(Endless(prep), target, EndlessPath(target, d)) == [EndlessElement(target, d)]
  {
    hide Wf, EndlessName, Stack, MatchSet, Against, Undeleted, EndlessPath;
    EndlessNames(target, d);
    EndlessMatch(prep, EndlessName(target, d));
    var x, stack := Element(0, EndlessName(target, d), 0, false), Stack(Endless(prep), target, EndlessPath(target, d));
    LastWord(x, stack, prep);
    OneUndeleted(EndlessElement(target, d));
  }

  lemma OneUndeleted(x: Element)
    requires !x.delete
    ensures Undeleted([x]) == [x]
  {
    assert [x][..0] == [];
  }

  lemma {:induction false} EndlessPrefix(target: string, d: nat, k: nat)
    requires k <= d
    ensures Prefix(EndlessPath(target, d), k) == EndlessPath(target, k)
  {
    if k < d {
      EndlessPrefix(target, d - 1, k);
    }
  }

  /** With PREP of 2 or more there is a rule for which the search goes on for
      ever, whatever the target: there is a cell to go on with at every depth,
      and never a solution. */
  lemma SearchNeedNotEnd(prep: nat, target: string, d: nat)
    requires prep >= 2 && NulFree(target)
    ensures Wf(Endless(prep)) && Len(EndlessPath(target, d)) == d && Reachable(Endless(prep), target, EndlessPath(target, d))
    ensures forall path :: !Solution(Endless(prep), target, path)
  {
    hide Wf, Step, Fits, Reachable, EndlessPath;
    EndlessIsWf(prep);
    EndlessReaches(prep, target, d);
    forall path, h | Step(Endless(prep), target, path, h) ensures !Fits(Endless(prep), h) {
      NothingFits(prep, target, path, h);
    }
  }

  lemma NothingFits(prep: nat, target: string, path: Chain, h: Hop)
    requires Wf(Endless(prep)) && Step(Endless(prep), target, path, h)
    ensures !Fits(Endless(prep), h)
  {
    hide SetAt, Step, Wf;
    StepFollowsRule(Endless(prep), target, path, h);
  }

  lemma {:induction false} EndlessReaches(prep: nat, target: string, d: nat)
    requires prep >= 2 && NulFree(target)
    ensures Wf(Endless(prep)) && Reachable(Endless(prep), target, EndlessPath(target, d))
  {
    hide Wf, SetAt, Fits, Step, Stack;
    EndlessIsWf(prep);
    if d > 0 {
      EndlessReaches(prep, target, d - 1);
      EndlessSteps(prep, target, d - 1);
      Extended(Endless(prep), target, EndlessPath(target, d - 1), EndlessHop(target, d - 1));
    }
  }

  ghost function EndlessHop(target: string, d: nat): Hop {
    Hop(0, 0, EndlessName(target, d), false, EndlessName(target, d + 1))
  }

  lemma EndlessSteps(prep: nat, target: string, d: nat)
    requires prep >= 2 && NulFree(target) && Wf(Endless(prep))
    ensures Step(Endless(prep), target, EndlessPath(target, d), EndlessHop(target, d))
    ensures !Fits(Endless(prep), EndlessHop(target, d))
  {
    hide Wf, SetAt, EndlessPath;
    EndlessSet(prep, target, d);
    EndlessNames(target, d);
    EndlessNames(target, d + 1);
    var c, e := Endless(prep), EndlessElement(target, d);
    assert |EndlessName(target, d + 1)| == |EndlessName(target, d)| + 1;
    assert HopFrom(c, target, EndlessName(target, d), e, EndlessHop(target, d));
    assert e in SetAt(c, target, EndlessPath(target, d));
  }

  // ---- The search ----

  /** A cell of the search (struct ICELL): the chain from the target to it
      (ic_parent) and the sets of its ancestors (ic_dfastack). */
  datatype ICell = ICell(path: Chain, stack: seq<seq<Element>>)

  function Cells(path: Chain, stack: seq<seq<Element>>, hops: seq<Hop>): (r: seq<ICell>)
    ensures |r| == |hops| && forall i :: 0 <= i < |r| ==> r[i] == ICell(Then(path, hops[i]), stack)
  {
    seq(|hops|, i requires 0 <= i < |hops| => ICell(Then(path, hops[i]), stack))
  }

  /** The cells for exactly the chains of `d` hops that the search can be at. */
  ghost predicate Level(c: Config, target: string, d: nat, cells: seq<ICell>)
    requires Wf(c)
  {
    && (forall ic :: ic in cells ==> At(c, target, d, ic))
    && (forall path :: Len(path) == d && Reachable(c, target, path) ==> ICell(path, Stack(c, target, path)) in cells)
  }

  ghost predicate At(c: Config, target: string, d: nat, ic: ICell)
    requires Wf(c)
  {
    Len(ic.path) == d && Reachable(c, target, ic.path) && ic.stack == Stack(c, target, ic.path)
  }

  /** `found` has exactly the solutions that continue the first `n` cells. */
  ghost predicate Ends(c: Config, target: string, cells: seq<ICell>, n: nat, found: seq<ICell>)
    requires Wf(c) && n <= |cells|
  {
    && (forall ic :: ic in found ==> Solution(c, target, ic.path) && exists k :: 0 <= k < n && Continues(ic.path, cells[k].path))
    && (forall k, path :: 0 <= k < n && Continues(path, cells[k].path) && Solution(c, target, path) ==>
         exists ic :: ic in found && ic.path == path)
  }

  ghost predicate Continues(path: Chain, from: Chain) {
    path.Then? && path.prev == from
  }

  /** `next` has cells for chains of `d` + 1 hops only, and, unless a solution
      was found, all that continue the first `n` cells. */
  ghost predicate Goes(c: Config, target: string, cells: seq<ICell>, n: nat, d: nat, next: seq<ICell>, complete: bool)
    requires Wf(c) && n <= |cells|
  {
    && (forall ic :: ic in next ==> At(c, target, d + 1, ic))
    && (complete ==> forall k, path :: 0 <= k < n && Continues(path, cells[k].path) && Reachable(c, target, path) ==>
         ICell(path, Stack(c, target, path)) in next)
  }

  lemma {:induction false} UndeletedDistinct(s: seq<Element>)
    requires Distinct(s)
    ensures Distinct(Undeleted(s))
  {
    if s != [] {
      var k := |s| - 1;
      UndeletedDistinct(s[..k]);
      forall x | x in Undeleted(s[..k]) ensures x.meta != s[k].meta {
        assert x in s[..k];
      }
    }
  }

  lemma SetDistinct(c: Config, target: string, path: Chain)
    requires Wf(c)
    ensures Distinct(SetAt(c, target, path)) && Distinct(MatchSet(c, NameAt(target, path)))
  {
    var pdfa := MatchSet(c, NameAt(target, path));
    MatchSetDistinct(c, NameAt(target, path));
    UndeletedDistinct(Against(pdfa, Stack(c, target, path), c.prep));
  }

  lemma StackDistinct(c: Config, target: string, path: Chain)
    requires Wf(c)
    ensures forall k :: 0 <= k < |Stack(c, target, path)| ==> Distinct(Stack(c, target, path)[k])
  {
    hide SetAt, Distinct;
    StackLength(c, target, path);
    forall k | 0 <= k < Len(path) ensures Distinct(Stack(c, target, path)[k]) {
      StackAt(c, target, path, Len(path) - 1 - k);
      SetDistinct(c, target, Prefix(path, Len(path) - 1 - k));
    }
  }

  lemma OneHop(c: Config, cs: seq<Hop>, h: Hop)
    requires InRange(c, cs) && h.meta < |c.edges| && h.edge < |c.edges[h.meta]|
    ensures InRange(c, cs + [h])
    ensures MatchesIn(c, cs + [h]) == (if Fits(c, h) then [h] else []) + MatchesIn(c, cs)
    ensures OpenIn(c, cs + [h]) ==
            (if !Fits(c, h) && !Barred(c, h) && MatchesIn(c, cs) == [] then [h] else []) + OpenIn(c, cs)
  {
    assert (cs + [h])[..|cs|] == cs;
  }

  /** The cells that derive_prerequisites() makes of the cell for `path`. */
  ghost predicate Derived(c: Config, target: string, path: Chain, nomatch: seq<ICell>, found: seq<ICell>, next: seq<ICell>)
    requires Wf(c)
  {
    var dfas := SetAt(c, target, path);
    && Proper(c, dfas)
    && var cs := Candidates(c, target, NameAt(target, path), dfas);
    && InRange(c, cs)
    && found == Cells(path, [dfas] + Stack(c, target, path), MatchesIn(c, cs))
    && next == Cells(path, [dfas] + Stack(c, target, path), OpenIn(c, cs)) + nomatch
  }

  /** The candidates are the steps that the chain can take. */
  lemma Choices(c: Config, target: string, path: Chain) returns (cs: seq<Hop>)
    requires Wf(c)
    ensures Proper(c, SetAt(c, target, path)) && cs == Candidates(c, target, NameAt(target, path), SetAt(c, target, path))
    ensures InRange(c, cs) && StepsAre(c, target, path, cs)
  {
    hide SetAt, Offered, Candidates, Proper, Wf;
    SetFacts(c, target, path);
    cs := Candidates(c, target, NameAt(target, path), SetAt(c, target, path));
    CandidatesOffered(c, target, NameAt(target, path), SetAt(c, target, path));
  }

  ghost predicate StepsAre(c: Config, target: string, path: Chain, cs: seq<Hop>)
    requires Wf(c)
  {
    forall h :: h in cs <==> Step(c, target, path, h)
  }

  /** One more hop. */
  lemma Extended(c: Config, target: string, path: Chain, h: Hop)
    requires Wf(c)
    ensures Continues(Then(path, h), path)
    ensures Reachable(c, target, path) && h.meta < |c.edges| && h.edge < |c.edges[h.meta]| ==>
              (Reachable(c, target, Then(path, h)) <==> Step(c, target, path, h) && !Fits(c, h) && !Barred(c, h))
    ensures Reachable(c, target, Then(path, h)) ==> h.meta < |c.edges| && h.edge < |c.edges[h.meta]| && Step(c, target, path, h)
    ensures Reachable(c, target, path) ==> (Solution(c, target, Then(path, h)) <==> Step(c, target, path, h) && Fits(c, h))
    ensures Stack(c, target, Then(path, h)) == [SetAt(c, target, path)] + Stack(c, target, path)
  {
    hide SetAt, Step, Fits, Barred, Wf;
  }

  lemma ContinuesBy(q: Chain, path: Chain)
    requires Continues(q, path)
    ensures q == Then(path, q.hop)
  {
  }

  /** What one cell adds. */
  lemma DerivedFound(c: Config, target: string, path: Chain, cs: seq<Hop>, stack: seq<seq<Element>>, found: seq<ICell>)
    requires Wf(c) && Reachable(c, target, path) && StepsAre(c, target, path, cs)
    requires found == Cells(path, stack, MatchesIn(c, cs))
    ensures forall ic :: ic in found ==> Continues(ic.path, path) && Solution(c, target, ic.path)
    ensures forall q :: Continues(q, path) && Solution(c, target, q) ==> exists ic :: ic in found && ic.path == q
  {
    hide SetAt, Reachable, Solution, Step, Fits, Wf, Continues;
    var hops := MatchesIn(c, cs);
    forall ic | ic in found ensures Continues(ic.path, path) && Solution(c, target, ic.path) {
      var i :| 0 <= i < |found| && found[i] == ic;
      assert hops[i] in hops;
      Extended(c, target, path, hops[i]);
    }
    forall q | Continues(q, path) && Solution(c, target, q) ensures exists ic :: ic in found && ic.path == q {
      ContinuesBy(q, path);
      var h := q.hop;
      Extended(c, target, path, h);
      var i :| 0 <= i < |hops| && hops[i] == h;
      assert found[i] in found;
    }
  }

  lemma DerivedNext(c: Config, target: string, path: Chain, hops: seq<Hop>, stack: seq<seq<Element>>,
                    nomatch: seq<ICell>, next: seq<ICell>, complete: bool)
    requires Wf(c) && Reachable(c, target, path)
    requires forall h :: h in hops ==> Reachable(c, target, Then(path, h))
    requires complete ==> forall h :: Reachable(c, target, Then(path, h)) ==> h in hops
    requires forall h :: Stack(c, target, Then(path, h)) == stack
    requires next == Cells(path, stack, hops) + nomatch
    ensures forall ic :: ic in nomatch ==> ic in next
    ensures forall ic :: ic in next ==> ic in nomatch || At(c, target, Len(path) + 1, ic)
    ensures complete ==> forall q :: Continues(q, path) && Reachable(c, target, q) ==> ICell(q, Stack(c, target, q)) in next
  {
    hide SetAt, Reachable, Wf, Stack;
    var added := Cells(path, stack, hops);
    forall ic | ic in added ensures At(c, target, Len(path) + 1, ic) {
      var i :| 0 <= i < |added| && added[i] == ic;
      assert hops[i] in hops;
    }
    if complete {
      forall q | Continues(q, path) && Reachable(c, target, q) ensures ICell(q, Stack(c, target, q)) in next {
        ContinuesBy(q, path);
        assert q == Then(path, q.hop);
        var i :| 0 <= i < |hops| && hops[i] == q.hop;
        assert added[i] == ICell(q, Stack(c, target, q));
        assert added[i] in next;
      }
    }
  }

  /** The open candidates are the chains to go on with. */
  lemma OpenHops(c: Config, target: string, path: Chain, cs: seq<Hop>)
    requires Wf(c) && Reachable(c, target, path) && InRange(c, cs) && StepsAre(c, target, path, cs)
    ensures forall h :: h in OpenIn(c, cs) ==> Reachable(c, target, Then(path, h))
    ensures MatchesIn(c, cs) == [] ==> forall h :: Reachable(c, target, Then(path, h)) ==> h in OpenIn(c, cs)
  {
    hide SetAt, Reachable, Step, Fits, Wf, Barred, Stack, OpenIn, MatchesIn;
    forall h | h in OpenIn(c, cs) ensures Reachable(c, target, Then(path, h)) {
      assert h in cs;
      Extended(c, target, path, h);
    }
    if MatchesIn(c, cs) == [] {
      forall h | Reachable(c, target, Then(path, h)) ensures h in OpenIn(c, cs) {
        Extended(c, target, path, h);
        assert h in cs;
      }
    }
  }

  lemma NothingYet(c: Config, target: string, cells: seq<ICell>, d: nat)
    requires Wf(c)
    ensures Ends(c, target, cells, 0, []) && Goes(c, target, cells, 0, d, [], true)
  {
  }

  /** The next cell of a level. */
  lemma OneMoreCell(c: Config, target: string, cells: seq<ICell>, k: nat, d: nat,
                    found: seq<ICell>, next: seq<ICell>, f: seq<ICell>, n: seq<ICell>)
    requires Wf(c) && k < |cells| && At(c, target, d, cells[k])
    requires Ends(c, target, cells, k, found) && Goes(c, target, cells, k, d, next, found == [])
    requires Derived(c, target, cells[k].path, next, f, n)
    ensures Ends(c, target, cells, k + 1, found + f) && Goes(c, target, cells, k + 1, d, n, found + f == [])
  {
    hide Wf, Reachable, Solution, Stack, SetAt, Proper, InRange, StepsAre, Candidates;
    var path := cells[k].path;
    var cs := Choices(c, target, path);
    DerivedFound(c, target, path, cs, [SetAt(c, target, path)] + Stack(c, target, path), f);
    forall h ensures Stack(c, target, Then(path, h)) == [SetAt(c, target, path)] + Stack(c, target, path) {
      Extended(c, target, path, h);
    }
    OpenHops(c, target, path, cs);
    DerivedNext(c, target, path, OpenIn(c, cs), [SetAt(c, target, path)] + Stack(c, target, path), next, n, f == []);
  }

  lemma FirstLevel(c: Config, target: string)
    requires Wf(c)
    ensures Level(c, target, 0, [ICell(Start, [])])
    ensures forall path :: Solution(c, target, path) ==> Len(path) > 0
  {
  }

  lemma LevelIsBounded(c: Config, target: string, d: nat, cells: seq<ICell>, rank: seq<nat>)
    requires Ending(c, rank) && NulFree(target) && Level(c, target, d, cells) && cells != []
    ensures d <= Limit(c, rank)
  {
    hide Wf, Reachable, Bound, Layered;
    assert cells[0] in cells;
    if c.prep <= 1 {
      ReachableIsAlive(c, target, cells[0].path);
      ChainIsBounded(c, target, cells[0].path);
    } else {
      LayersBound(c, target, cells[0].path, rank);
    }
  }

  lemma PrefixReachable(c: Config, target: string, path: Chain)
    requires Wf(c) && path.Then? && Reachable(c, target, path)
    ensures Reachable(c, target, path.prev) && Continues(path, path.prev)
  {
  }

  lemma NextLevel(c: Config, target: string, d: nat, cells: seq<ICell>, next: seq<ICell>)
    requires Wf(c) && Level(c, target, d, cells)
    requires Ends(c, target, cells, |cells|, []) && Goes(c, target, cells, |cells|, d, next, true)
    ensures Level(c, target, d + 1, next)
    ensures forall path :: Solution(c, target, path) ==> Len(path) != d + 1
  {
    hide Wf, Reachable, Stack;
    forall path | Len(path) == d + 1 && Reachable(c, target, path) ensures ICell(path, Stack(c, target, path)) in next {
      PrefixReachable(c, target, path);
      var from := path.prev;
      assert ICell(from, Stack(c, target, from)) in cells;
      var k :| 0 <= k < |cells| && cells[k] == ICell(from, Stack(c, target, from));
      assert Continues(path, cells[k].path);
    }
    forall path | Solution(c, target, path) ensures Len(path) != d + 1 {
      if Len(path) == d + 1 {
        SolutionIsFound(c, target, d, cells, [], path);
      }
    }
  }

  lemma SolutionIsFound(c: Config, target: string, d: nat, cells: seq<ICell>, found: seq<ICell>, path: Chain)
    requires Wf(c) && Level(c, target, d, cells) && Ends(c, target, cells, |cells|, found)
    requires Solution(c, target, path) && Len(path) == d + 1
    ensures exists ic :: ic in found && ic.path == path
  {
    hide Wf, Reachable, Stack;
    var from := path.prev;
    assert Reachable(c, target, from);
    assert ICell(from, Stack(c, target, from)) in cells;
    var k :| 0 <= k < |cells| && cells[k] == ICell(from, Stack(c, target, from));
    assert Continues(path, cells[k].path);
  }

  lemma SolutionsFound(c: Config, target: string, d: nat, cells: seq<ICell>, found: seq<ICell>)
    requires Wf(c) && Level(c, target, d, cells) && Ends(c, target, cells, |cells|, found)
    ensures forall ic :: ic in found ==> Solution(c, target, ic.path) && Len(ic.path) == d + 1
    ensures forall path :: Solution(c, target, path) && Len(path) == d + 1 ==> exists ic :: ic in found && ic.path == path
  {
    hide Wf, Reachable, Stack;
    forall path | Solution(c, target, path) && Len(path) == d + 1 ensures exists ic :: ic in found && ic.path == path {
      SolutionIsFound(c, target, d, cells, found, path);
    }
    forall ic | ic in found ensures Solution(c, target, ic.path) && Len(ic.path) == d + 1 {
      var k :| 0 <= k < |cells| && Continues(ic.path, cells[k].path);
      assert cells[k] in cells;
    }
  }

  /** A solution than which none is shorter; and if it ends in something that
      still has to be made, so do all of its length. */
  ghost predicate Best(c: Config, target: string, chain: Chain)
    requires Wf(c)
  {
    && Solution(c, target, chain)
    && (forall path :: Solution(c, target, path) ==> Len(chain) <= Len(path))
    && (Exists(c, chain.hop) ||
        forall path :: Solution(c, target, path) && Len(path) == Len(chain) ==> !Exists(c, path.hop))
  }

  lemma BestFound(c: Config, target: string, d: nat, found: seq<ICell>, chain: Chain)
    requires Wf(c) && chain.Then?
    requires forall path :: Solution(c, target, path) ==> Len(path) > d
    requires forall ic :: ic in found ==> Solution(c, target, ic.path) && Len(ic.path) == d + 1
    requires forall path :: Solution(c, target, path) && Len(path) == d + 1 ==> exists ic :: ic in found && ic.path == path
    requires exists ic :: ic in found && ic.path == chain
    requires Exists(c, chain.hop) || forall ic :: ic in found ==> ic.path.Then? && !Exists(c, ic.path.hop)
    ensures Best(c, target, chain) && Len(chain) == d + 1
    ensures chain.hop.bare || chain.hop.name in c.present || chain.hop.name in c.recipes
  {
    hide Wf, Reachable, Step;
  }

  /** Without a chain of `d` hops there is no longer one. */
  lemma {:induction false} NoneLonger(c: Config, target: string, d: nat, path: Chain)
    requires Wf(c) && Level(c, target, d, []) && Len(path) >= d
    ensures !Reachable(c, target, path)
    decreases Len(path)
  {
    if Len(path) == d {
      var none: seq<ICell> := [];
      assert ICell(path, Stack(c, target, path)) !in none;
    } else {
      NoneLonger(c, target, d, path.prev);
    }
  }

  lemma NoneLeft(c: Config, target: string, d: nat)
    requires Wf(c) && Level(c, target, d, [])
    ensures forall path :: Solution(c, target, path) ==> Len(path) <= d
  {
    forall path | Solution(c, target, path) ensures Len(path) <= d {
      if Len(path) > d {
        NoneLonger(c, target, d, path.prev);
      }
    }
  }

  class Inference {
    const c: Config
    const nfa: Nfa

    ghost predicate Valid()
      reads this, nfa
    {
      Wf(c) && nfa.Valid() && NamesOf(nfa.nfa) == c.patterns
    }

    constructor (config: Config)
      requires Wf(config)
      ensures Valid() && fresh(nfa) && c == config
    {
      c := config;
      nfa := new Nfa();
      new;
      for i := 0 to |c.patterns|
        invariant nfa.Valid() && NamesOf(nfa.nfa) == c.patterns[|c.patterns| - i..] && fresh(nfa)
      {
        nfa.AddNfa(c.patterns[|c.patterns| - 1 - i]);
      }
    }

    /** The rules that match the name of a cell and survive the cut. */
    method RulesFor(target: string, ic: ICell) returns (dfas: seq<Element>)
      requires Valid() && NulFree(NameAt(target, ic.path)) && ic.stack == Stack(c, target, ic.path)
      modifies nfa
      ensures Valid() && dfas == SetAt(c, target, ic.path)
    {
      hide Wf, AllReady, Cut, Matching, Distinct;
      var list := nfa.MatchDfa(NameAt(target, ic.path));
      SetDistinct(c, target, ic.path);
      StackDistinct(c, target, ic.path);
      dfas := DfaSubset(Elements(list), ic.stack, c.prep);
    }

    /** derive_prerequisites(): the rules for one cell, and their edges. */
    method DerivePrerequisites(target: string, ic: ICell, nomatch: seq<ICell>) returns (found: seq<ICell>, next: seq<ICell>)
      requires Valid() && NulFree(NameAt(target, ic.path)) && ic.stack == Stack(c, target, ic.path)
      modifies nfa
      ensures Valid() && Derived(c, target, ic.path, nomatch, found, next)
    {
      hide Wf, AllReady, SetAt, Proper, InRange, Candidates;
      var dfas := RulesFor(target, ic);
      SetFacts(c, target, ic.path);
      CandidatesOffered(c, target, NameAt(target, ic.path), dfas);
      var matches, opens := TryRules(target, NameAt(target, ic.path), dfas);
      found := Cells(ic.path, [dfas] + ic.stack, matches);
      next := Cells(ic.path, [dfas] + ic.stack, opens) + nomatch;
    }

    method TryRules(target: string, name: string, dfas: seq<Element>) returns (m: seq<Hop>, o: seq<Hop>)
      requires Proper(c, dfas) && InRange(c, Candidates(c, target, name, dfas))
      ensures m == MatchesIn(c, Candidates(c, target, name, dfas)) && o == OpenIn(c, Candidates(c, target, name, dfas))
    {
      m, o := [], [];
      var k := 0;
      while k < |dfas|
        invariant k <= |dfas| && Proper(c, dfas[..k]) && InRange(c, Candidates(c, target, name, dfas[..k]))
        invariant m == MatchesIn(c, Candidates(c, target, name, dfas[..k]))
        invariant o == OpenIn(c, Candidates(c, target, name, dfas[..k]))
      {
        hide InRange, MatchesIn, OpenIn, EdgeHops;
        assert dfas[..k + 1][..k] == dfas[..k];
        m, o := TryRule(target, name, dfas[k], m, o, Candidates(c, target, name, dfas[..k]));
        k := k + 1;
      }
      assert dfas[..k] == dfas;
    }

    /** The edges of one matched rule. */
    method TryRule(target: string, name: string, e: Element, matches: seq<Hop>, opens: seq<Hop>, ghost cs: seq<Hop>)
      returns (m: seq<Hop>, o: seq<Hop>)
      requires |c.edges| == |c.patterns| && e.meta < |c.edges| && InRange(c, cs)
      requires matches == MatchesIn(c, cs) && opens == OpenIn(c, cs)
      ensures var all := cs + EdgeHops(c, target, name, e, |c.edges[e.meta]|);
              InRange(c, all) && m == MatchesIn(c, all) && o == OpenIn(c, all)
    {
      hide MatchesIn, OpenIn, Fits, Allowed, InRange, Barred;
      m, o := matches, opens;
      assert cs + [] == cs;
      for x := 0 to |c.edges[e.meta]|
        invariant InRange(c, cs + EdgeHops(c, target, name, e, x))
        invariant m == MatchesIn(c, cs + EdgeHops(c, target, name, e, x))
        invariant o == OpenIn(c, cs + EdgeHops(c, target, name, e, x))
      {
        var h := HopOf(c, e, x);
        ghost var before := EdgeHops(c, target, name, e, x);
        assert cs + (before + [h]) == (cs + before) + [h] && before + [] == before;
        OneHop(c, cs + before, h);
        if Allowed(c, target, name, h) {
          if Fits(c, h) {
            m := [h] + m;
          } else if !Barred(c, h) && m == [] {
            o := [h] + o;
          }
        }
      }
    }

    /** One level of the search: all cells for chains of `d` hops. */
    method Deepen(target: string, cells: seq<ICell>, d: nat) returns (found: seq<ICell>, next: seq<ICell>)
      requires Valid() && NulFree(target) && Level(c, target, d, cells)
      modifies nfa
      ensures Valid() && Ends(c, target, cells, |cells|, found) && Goes(c, target, cells, |cells|, d, next, found == [])
    {
      hide Wf, AllReady, Derived, Reachable, Solution, NulFree, Continues, Stack, Ends, Goes;
      found, next := [], [];
      NothingYet(c, target, cells, d);
      for k := 0 to |cells|
        invariant Valid() && Ends(c, target, cells, k, found) && Goes(c, target, cells, k, d, next, found == [])
      {
        assert cells[k] in cells;
        ReachableIsAlive(c, target, cells[k].path);
        var f, n := DerivePrerequisites(target, cells[k], next);
        OneMoreCell(c, target, cells, k, d, found, next, f, n);
        found, next := found + f, n;
      }
    }

    /** Infer_recipe(): the chain that is taken, if there is one.  `rank` is of
        use for PREP of 2 or more only. */
    method InferRecipe(target: string, ghost rank: seq<nat>) returns (ok: bool, chain: Chain)
      requires Valid() && NulFree(target) && Ending(c, rank)
      modifies nfa
      ensures Valid()
      ensures ok ==> Best(c, target, chain) && (c.transitive || Len(chain) == 1)
      ensures ok ==> chain.hop.bare || chain.hop.name in c.present || chain.hop.name in c.recipes
      ensures !ok ==> forall path :: Solution(c, target, path) ==> !c.transitive && Len(path) > 1
    {
      hide Wf, AllReady, Reachable, NulFree, Limit, Ends, Goes, Level, Best, Exists, Ending;
      var nomatch, d := [ICell(Start, [])], 0;
      ok, chain := false, Start;
      FirstLevel(c, target);
      while nomatch != []
        invariant Valid() && Level(c, target, d, nomatch) && (d > 0 ==> c.transitive)
        invariant forall path :: Solution(c, target, path) ==> Len(path) > d
        decreases Limit(c, rank) + 1 - d
      {
        LevelIsBounded(c, target, d, nomatch, rank);
        var matches, next := Deepen(target, nomatch, d);
        if matches == [] {
          NextLevel(c, target, d, nomatch, next);
          nomatch := next;
          if !c.transitive {
            return;
          }
          d := d + 1;
        } else {
          SolutionsFound(c, target, d, nomatch, matches);
          ok := true;
          chain := Prefer(matches);
          BestFound(c, target, d, matches, chain);
          return;
        }
      }
      NoneLeft(c, target, d);
    }

    /** Chains that end in something that exists come first. */
    method Prefer(matches: seq<ICell>) returns (chain: Chain)
      requires matches != [] && forall ic :: ic in matches ==> ic.path.Then?
      ensures exists ic :: ic in matches && ic.path == chain
      ensures chain.Then? && (Exists(c, chain.hop) || forall ic :: ic in matches ==> !Exists(c, ic.path.hop))
    {
      var pmatch, mmatch: seq<ICell> := [], [];
      for k := 0 to |matches|
        invariant |pmatch| + |mmatch| == k
        invariant forall ic :: ic in pmatch ==> ic in matches && Exists(c, ic.path.hop)
        invariant forall ic :: ic in mmatch ==> ic in matches && !Exists(c, ic.path.hop)
        invariant pmatch == [] ==> forall ic :: ic in matches[..k] ==> ic in mmatch
      {
        var ic := matches[k];
        assert ic in matches;
        if Exists(c, ic.path.hop) {
          pmatch := pmatch + [ic];
        } else {
          mmatch := mmatch + [ic];
        }
      }
      assert matches[..|matches|] == matches;
      var first := if pmatch != [] then pmatch[0] else mmatch[0];
      assert first in matches;
      chain := first.path;
    }
  }
}
