/** Build_path() of path.c and _prefix() of make.c: relative paths between
    directories, in terms of the components of Path. */
module Prefix {
  import opened Path

  /** The parts of a path that count. */
  function Comps(s: string): seq<string> {
    NonEmpty(Split(s))
  }

  function NonEmpty(parts: seq<string>): seq<string> {
    if parts == [] then [] else (if parts[0] == "" then [] else [parts[0]]) + NonEmpty(parts[1..])
  }

  ghost predicate AllNames(parts: seq<string>) {
    forall i :: 0 <= i < |parts| ==> IsName(parts[i])
  }

  lemma {:induction false} WalkNonEmpty(dir: seq<string>, parts: seq<string>)
    ensures Walk(dir, NonEmpty(parts)) == Walk(dir, parts)
    decreases |parts|
  {
    if parts != [] {
      WalkNonEmpty(Go(dir, parts[0]), parts[1..]);
      if parts[0] != "" {
        assert ([parts[0]] + NonEmpty(parts[1..]))[1..] == NonEmpty(parts[1..]);
      } else {
        assert [] + NonEmpty(parts[1..]) == NonEmpty(parts[1..]);
      }
    }
  }

  lemma {:induction false} WalkNames(dir: seq<string>, parts: seq<string>)
    requires AllNames(parts)
    ensures Walk(dir, parts) == dir + parts
    decreases |parts|
  {
    if parts == [] {
      assert dir + parts == dir;
    } else {
      assert IsName(parts[0]);
      WalkNames(dir + [parts[0]], parts[1..]);
      assert dir + [parts[0]] + parts[1..] == dir + parts;
    }
  }

  // ---- Reading components ----

  /** A component and what follows it. */
  lemma CompsHead(part: string, rest: string)
    requires Plain(part) && part != ""
    ensures Comps(part + [SEP] + rest) == [part] + Comps(rest) && Comps(part) == [part] && Comps("") == []
  {
    SplitPart(part, rest);
    SplitPlain(part);
    assert ([part] + Split(rest))[1..] == Split(rest);
    assert [part][1..] == [] && [""][1..] == [];
  }

  /** Separators in front do not count. */
  lemma {:induction false} CompsSkip(run: string, rest: string)
    requires forall i :: 0 <= i < |run| ==> run[i] == SEP
    ensures Comps(run + rest) == Comps(rest)
  {
    if run == "" {
      assert run + rest == rest;
    } else {
      CompsSkip(run[1..], rest);
      assert run + rest == "" + [SEP] + (run[1..] + rest);
      SplitPart("", run[1..] + rest);
      assert ([""] + Split(run[1..] + rest))[1..] == Split(run[1..] + rest);
    }
  }

  /** DmStrSpn(): the first character from `i` on that is no separator. */
  method StrSpn(s: string, i: nat) returns (k: nat)
    requires i <= |s|
    ensures i <= k <= |s| && (k < |s| ==> s[k] != SEP) && (forall x :: i <= x < k ==> s[x] == SEP)
    ensures Comps(s[i..]) == Comps(s[k..])
  {
    k := i;
    while k < |s| && s[k] == SEP
      invariant i <= k <= |s| && forall x :: i <= x < k ==> s[x] == SEP
    {
      k := k + 1;
    }
    assert s[i..] == s[i..k] + s[k..];
    CompsSkip(s[i..k], s[k..]);
  }

  /** DmStrPbrk(): the first separator from `i` on, or the end. */
  method StrPbrk(s: string, i: nat) returns (k: nat)
    requires i <= |s|
    ensures i <= k <= |s| && Plain(s[i..k]) && (k < |s| ==> s[k] == SEP)
    ensures i < k ==> Comps(s[i..]) == [s[i..k]] + Comps(s[k..])
    ensures i == k == |s| ==> Comps(s[i..]) == []
    ensures i < |s| && s[i] != SEP ==> i < k
  {
    k := i;
    while k < |s| && s[k] != SEP
      invariant i <= k <= |s| && Plain(s[i..k]) && (i < |s| && s[i] != SEP && k == i ==> s[k] != SEP)
    {
      k := k + 1;
    }
    CompsHead("x", "");
    if i < k {
      Compose(s, i, k);
    }
  }

  lemma Compose(s: string, i: nat, k: nat)
    requires i < k <= |s| && Plain(s[i..k]) && (k < |s| ==> s[k] == SEP)
    ensures Comps(s[i..]) == [s[i..k]] + Comps(s[k..])
  {
    if k == |s| {
      assert s[i..] == s[i..k] && s[k..] == "";
      CompsHead(s[i..k], "");
    } else {
      assert s[i..] == s[i..k] + [SEP] + s[k + 1..];
      CompsHead(s[i..k], s[k + 1..]);
      assert s[k..] == [SEP] + s[k + 1..];
      CompsSkip([SEP], s[k + 1..]);
    }
  }

  // ---- Build_path() ----

  /** dir and name with a separator between them, cleaned. */
  function Built(dir: string, name: string, ooo: bool): string {
    var head := if dir != "" && dir[|dir| - 1] != SEP then dir + [SEP] else dir;
    Clean(head + name[Slashes(name)..], ooo)
  }

  lemma {:induction false} NoSlashes(s: string)
    requires s == "" || s[0] != SEP
    ensures Slashes(s) == 0 && s[Slashes(s)..] == s && Rest(s) == s
  {
  }

  /** A cleaned relative path leads where the path led, as a directory. */
  lemma BuiltLeads(dir: seq<string>, s: string, ooo: bool)
    requires s == "" || s[0] != SEP
    ensures Walk(dir, Split(Clean(s, ooo))) == Walk(dir, Split(s))
  {
    hide Clean, Walk, Split;
    NoSlashes(s);
    var c := Clean(s, ooo);
    CleanKeepsMeaning(s, ooo);
    RelativeRest(s, c);
    WalkAppend(dir, Dirs(s), [Last(s)]);
    WalkAppend(dir, Dirs(c), [Last(c)]);
    assert Split(s) == Dirs(s) + [Last(s)] && Split(c) == Dirs(c) + [Last(c)];
  }

  lemma RelativeRest(s: string, c: string)
    requires Slashes(s) == 0 && Root(c) == Root(s)
    ensures Rest(c) == c
  {
  }

  // ---- _prefix() ----

  function Up(): string {
    "../"
  }

  function Ups(n: nat): string {
    if n == 0 then "" else Ups(n - 1) + Up()
  }

  function Dots(n: nat): seq<string> {
    if n == 0 then [] else Dots(n - 1) + [".."]
  }

  lemma {:induction false} UpsSplit(n: nat, rest: string)
    ensures Split(Ups(n) + rest) == Dots(n) + Split(rest)
  {
    if n == 0 {
      assert Ups(n) + rest == rest;
    } else {
      UpsSplit(n - 1, Up() + rest);
      assert Ups(n) + rest == Ups(n - 1) + (Up() + rest);
      assert Up() + rest == ".." + [SEP] + rest;
      SplitPart("..", rest);
      assert Dots(n - 1) + ([".."] + Split(rest)) == Dots(n) + Split(rest);
    }
  }

  /** The directory `n` levels above. */
  function Above(dir: seq<string>, n: nat): seq<string> {
    if n <= |dir| then dir[..|dir| - n] else []
  }

  lemma {:induction false} WalkUp(dir: seq<string>, n: nat)
    ensures Walk(dir, Dots(n)) == Above(dir, n)
    decreases n
  {
    if n > 0 {
      UpFirst(n - 1);
      assert Dots(n)[1..] == Dots(n - 1) && Dots(n)[0] == "..";
      WalkUp(Go(dir, ".."), n - 1);
    }
  }

  lemma {:induction false} UpFirst(n: nat)
    ensures Dots(n + 1) == [".."] + Dots(n)
  {
    if n > 0 {
      UpFirst(n - 1);
    }
  }

  /** The relative path: `n` levels up, and down the other path. */
  lemma Navigates(dir: seq<string>, n: nat, down: string, ooo: bool)
    requires down == "" || down[0] != SEP
    ensures Walk(dir, Split(Clean(Ups(n) + down, ooo))) == Walk(Above(dir, n), Comps(down))
  {
    hide Clean, Walk, Split, Above;
    UpsHead(n, down);
    BuiltLeads(dir, Ups(n) + down, ooo);
    UpsSplit(n, down);
    WalkAppend(dir, Dots(n), Split(down));
    WalkUp(dir, n);
    WalkNonEmpty(Above(dir, n), Split(down));
  }

  lemma {:induction false} UpsHead(n: nat, down: string)
    requires down == "" || down[0] != SEP
    ensures var s := Ups(n) + down; s == "" || s[0] != SEP
    ensures n > 0 ==> Ups(n) != "" && Ups(n)[0] == '.' && Ups(n)[|Ups(n)| - 1] == SEP
    ensures n == 0 ==> Ups(n) == ""
  {
    if n > 0 {
      UpsHead(n - 1, Up());
    }
  }

  /** Up only, without the last separator. */
  lemma {:induction false} NavigatesUp(dir: seq<string>, n: nat)
    requires n > 0
    ensures Walk(dir, Split(Ups(n - 1) + "..")) == Above(dir, n)
  {
    UpsSplit(n - 1, "..");
    SplitPlain("..");
    WalkUp(dir, n);
  }

  // ---- Where going up leads to ----

  /** No part leads down by more than one level, and only a name by one. */
  lemma {:induction false} WalkDepth(dir: seq<string>, parts: seq<string>)
    ensures |Walk(dir, parts)| <= |dir| + |parts|
    ensures |Walk(dir, parts)| == |dir| + |parts| ==> AllNames(parts)
    decreases |parts|
  {
    if parts != [] {
      var next := Go(dir, parts[0]);
      WalkDepth(next, parts[1..]);
      if |Walk(dir, parts)| == |dir| + |parts| {
        assert |next| == |dir| + 1;
        forall i | 0 <= i < |parts| ensures IsName(parts[i]) {
          assert i > 0 ==> parts[i] == parts[1..][i - 1];
        }
      }
    }
  }

  /** One level up for each part leads back exactly if all parts are names. */
  lemma LeadsBack(common: seq<string>, up: seq<string>)
    requires common != []
    ensures Above(Walk(common, up), |up|) == common <==> AllNames(up)
  {
    WalkDepth(common, up);
    if AllNames(up) {
      WalkNames(common, up);
    }
  }

  /** ... and then down the other path to where it leads. */
  lemma LeadsThere(common: seq<string>, up: seq<string>, down: seq<string>)
    requires common != [] && AllNames(common) && AllNames(down)
    ensures Walk(Above(Walk([], common + up), |up|), down) == common + down <==> AllNames(common + up)
  {
    hide Walk, Above;
    WalkAppend([], common, up);
    WalkNames([], common);
    assert [] + common == common;
    var top := Above(Walk(common, up), |up|);
    WalkNames(top, down);
    assert top + down == common + down ==> top == common by {
      if top + down == common + down {
        assert top == (top + down)[..|top|] && common == (common + down)[..|common|];
      }
    }
    LeadsBack(common, up);
    NamesParts(common, up);
  }

  lemma NamesParts(a: seq<string>, b: seq<string>)
    ensures AllNames(a + b) <==> AllNames(a) && AllNames(b)
  {
    if AllNames(a + b) {
      forall i | 0 <= i < |a| ensures IsName(a[i]) {
        assert a[i] == (a + b)[i];
      }
      forall i | 0 <= i < |b| ensures IsName(b[i]) {
        assert b[i] == (a + b)[|a| + i];
      }
    }
  }

  /** For names: to where the other path leads, dots in it or not. */
  lemma LeadsOn(common: seq<string>, up: seq<string>, down: seq<string>)
    requires AllNames(common + up)
    ensures Walk([], common + up) == common + up
    ensures Walk(Above(common + up, |up|), down) == Walk([], common + down)
  {
    NamesParts(common, up);
    WalkNames([], common + up);
    assert [] + (common + up) == common + up;
    assert (common + up)[..|common|] == common;
    WalkNames([], common);
    assert [] + common == common;
    WalkAppend([], common, down);
  }

  /** The first component of an absolute path. */
  function First(s: string): string {
    UpToSep(s[Slashes(s)..])
  }

  function UpToSep(s: string): string {
    if s == "" || s[0] == SEP then "" else [s[0]] + UpToSep(s[1..])
  }

  lemma {:induction false} UpToSepIs(s: string, k: nat)
    requires k <= |s| && Plain(s[..k]) && (k < |s| ==> s[k] == SEP)
    ensures UpToSep(s) == s[..k]
  {
    if k > 0 {
      assert s[1..][..k - 1] == s[..k][1..];
      UpToSepIs(s[1..], k - 1);
    }
  }

  lemma {:induction false} SlashesIs(s: string, i: nat)
    requires i <= |s| && (forall x :: 0 <= x < i ==> s[x] == SEP) && (i < |s| ==> s[i] != SEP)
    ensures Slashes(s) == i
  {
  }

  lemma FirstIs(s: string, i: nat, k: nat)
    requires i <= k <= |s| && (forall x :: 0 <= x < i ==> s[x] == SEP) && (i < |s| ==> s[i] != SEP)
    requires Plain(s[i..k]) && (k < |s| ==> s[k] == SEP)
    ensures Slashes(s) == i && First(s) == s[i..k]
  {
    hide Slashes, UpToSep, First, Plain;
    SlashesIs(s, i);
    SliceOf(s, i, k);
    UpToSepIs(s[i..], k - i);
    FirstOf(s);
  }

  lemma FirstOf(s: string)
    ensures First(s) == UpToSep(s[Slashes(s)..])
  {
  }

  lemma SliceOf(s: string, i: nat, k: nat)
    requires i <= k <= |s|
    ensures s[i..][..k - i] == s[i..k] && (k < |s| ==> s[i..][k - i] == s[k])
  {
  }

  /** Can there be a relative path?  The roots and the first components agree. */
  ghost predicate Related(pfx: string, pat: string) {
    Slashes(pfx) == Slashes(pat) && First(pfx) == First(pat)
  }

  /** `common` leads to what is left of the path from `k` on. */
  ghost predicate After(s: string, common: seq<string>, k: nat)
    requires k <= |s|
  {
    Comps(s) == common + Comps(s[k..])
  }

  lemma AfterOne(s: string, common: seq<string>, k: nat, i: nat, e: nat, part: string)
    requires k <= i <= e <= |s| && After(s, common, k) && Comps(s[k..]) == Comps(s[i..])
    requires part == s[i..e] && (i < e ==> Comps(s[i..]) == [part] + Comps(s[e..]))
    ensures After(s, common, i) && After(s, if part == "" then common else common + [part], e)
  {
    if part != "" {
      assert common + ([part] + Comps(s[e..])) == (common + [part]) + Comps(s[e..]);
    }
  }

  /** One way up for each component from `i` on. */
  method UpFrom(pfx: string, i: nat) returns (result: string)
    requires i <= |pfx|
    ensures result == Ups(|Comps(pfx[i..])|)
  {
    hide Comps;
    result := "";
    ghost var d := 0;
    var k := StrSpn(pfx, i);
    while k < |pfx|
      invariant k <= |pfx| && (k < |pfx| ==> pfx[k] != SEP)
      invariant result == Ups(d) && d + |Comps(pfx[k..])| == |Comps(pfx[i..])|
    {
      var e := StrPbrk(pfx, k);
      result, d := result + "../", d + 1;
      k := StrSpn(pfx, e);
    }
    Nothing(pfx[k..]);
  }

  lemma Stay(dir: seq<string>)
    ensures Walk(dir, Split("")) == dir
  {
    assert [""][1..] == [];
  }

  /** The end of _prefix(): up from what is left of `pfx`, down to the rest of
      `pat`. */
  method Descend(pfx: string, i: nat, pat: string, j: nat, ooo: bool, ghost dir: seq<string>) returns (result: string)
    requires i <= |pfx| && j <= |pat|
    ensures Walk(dir, Split(result)) == Walk(Above(dir, |Comps(pfx[i..])|), Comps(pat[j..]))
    ensures Clean(result, ooo) == result
  {
    hide Comps, Walk, Split, Clean, Ups, Above;
    result := UpFrom(pfx, i);
    ghost var n := |Comps(pfx[i..])|;
    var down := StrSpn(pat, j);
    if down < |pat| {
      var tail := pat[down..];
      NoSlashes(tail);
      UpsHead(n, tail);
      assert tail[0..] == tail;
      result := Built(result, tail, ooo);
      Navigates(dir, n, tail, ooo);
      CleanTwice(Ups(n) + tail, ooo);
    } else {
      Nothing(pat[down..]);
      WalkNone(Above(dir, n));
      if result != "" {
        UpsHead(n, "");
        result := result[..|result| - 1];
        UpsCut(n);
        NavigatesUp(dir, n);
        UpsClean(n, ooo);
      } else {
        UpsNone(n);
        Here(dir);
        Stay(dir);
        NothingClean(ooo);
      }
    }
  }

  /** Going up is a clean path. */
  lemma UpsClean(n: nat, ooo: bool)
    requires n > 0
    ensures var s := Ups(n - 1) + ".."; Clean(s, ooo) == s
  {
    hide Ups, Split, Dots, Clean, Slashes;
    UpsDirs(n);
    DotsAre(n - 1);
    CleanedAlready(Ups(n - 1) + "..", ooo);
  }

  lemma UpsDirs(n: nat)
    requires n > 0
    ensures var s := Ups(n - 1) + ".."; Slashes(s) == 0 && Rest(s) == s && Dirs(s) == Dots(n - 1)
  {
    hide Ups, Split, Slashes;
    UpsSplit(n - 1, "..");
    SplitPlain("..");
    UpsHead(n - 1, "..");
    NoSlashes(Ups(n - 1) + "..");
    assert (Dots(n - 1) + [".."])[..|Dots(n - 1)|] == Dots(n - 1);
  }

  lemma {:induction false} DotsAre(n: nat)
    ensures |Dots(n)| == n && forall i :: 0 <= i < n ==> Dots(n)[i] == ".."
  {
    if n > 0 {
      DotsAre(n - 1);
    }
  }

  lemma NothingClean(ooo: bool)
    ensures Clean("", ooo) == ""
  {
    CleanedAlready("", ooo);
  }

  lemma Here(dir: seq<string>)
    ensures Above(dir, 0) == dir
  {
  }

  lemma Nothing(s: string)
    requires s == ""
    ensures Comps(s) == []
  {
    CompsHead("x", "");
  }

  lemma WalkNone(dir: seq<string>)
    ensures Walk(dir, []) == dir
  {
  }

  lemma UpsCut(n: nat)
    requires Ups(n) != ""
    ensures n > 0 && Ups(n)[..|Ups(n)| - 1] == Ups(n - 1) + ".."
  {
  }

  lemma UpsNone(n: nat)
    requires Ups(n) == ""
    ensures n == 0
  {
  }

  /** Does following `result` from the directory `pfx` lead to the names of `pat`? */
  ghost predicate Leads(pfx: string, pat: string, result: string) {
    Walk(Walk([], Comps(pfx)), Split(result)) == Comps(pat)
  }

  /** _prefix(): the way from directory `pfx` to `pat`, both absolute. */
  method RelativePath(pfx: string, pat: string, ooo: bool) returns (result: string)
    requires Slashes(pfx) > 0 && Slashes(pat) > 0
    ensures pfx == pat ==> result == ""
    ensures !Related(pfx, pat) ==> result == pat
    ensures Related(pfx, pat) && AllNames(Comps(pfx)) ==> Walk(Comps(pfx), Split(result)) == Walk([], Comps(pat))
    ensures Related(pfx, pat) && pfx != pat && AllNames(Comps(pat)) ==>
              (Leads(pfx, pat, result) <==> AllNames(Comps(pfx)))
    ensures Related(pfx, pat) ==> Clean(result, ooo) == result
  {
    hide Comps, First, Walk, Above, Clean, Split, Slashes;
    if pfx == pat {
      Stay(Comps(pfx));
      NothingClean(ooo);
      if AllNames(Comps(pfx)) {
        WalkNames([], Comps(pfx));
        assert [] + Comps(pfx) == Comps(pfx);
      }
      return "";
    }
    var i, j, k, l := 0, 0, 0, 0;
    ghost var common: seq<string> := [];
    var first, sameRootDir := true, true;
    assert pfx[0..] == pfx && pat[0..] == pat;
    while i < |pfx| && j < |pat|
      invariant i <= k <= |pfx| && j <= l <= |pat| && first == sameRootDir
      invariant first ==> i == j == k == l == 0
      invariant !first ==> Related(pfx, pat) && common != []
      invariant After(pfx, common, k) && After(pat, common, l)
      invariant !first && (i == |pfx| || j == |pat|) ==> i == |pfx| && j == |pat|
      decreases |pfx| - k + (if i < |pfx| then 1 else 0)
    {
      i := StrSpn(pfx, k);
      j := StrSpn(pat, l);
      if first {
        SlashesIs(pfx, i);
        SlashesIs(pat, j);
        if i - k != j - l {
          return pat;
        }
        first := false;
      }
      ghost var k0, l0 := k, l;
      k := StrPbrk(pfx, i);
      l := StrPbrk(pat, j);
      AfterOne(pfx, common, k0, i, k, pfx[i..k]);
      AfterOne(pat, common, l0, j, l, pat[j..l]);
      if sameRootDir {
        FirstIs(pfx, i, k);
        FirstIs(pat, j, l);
      }
      if k - i != l - j || pfx[i..k] != pat[j..l] {
        if sameRootDir {
          return pat;
        }
        break;
      }
      if sameRootDir && i == k {
        SameSlashes(pfx, pat, i);
      }
      common := if pfx[i..k] == "" then common else common + [pfx[i..k]];
      sameRootDir := false;
    }
    ghost var up, down := Comps(pfx[i..]), Comps(pat[j..]);
    result := Descend(pfx, i, pat, j, ooo, Walk([], common + up));
    if AllNames(Comps(pfx)) {
      LeadsOn(common, up, down);
    }
    if AllNames(Comps(pat)) {
      NamesParts(common, down);
      LeadsThere(common, up, down);
    }
  }

  /** Paths of separators only. */
  lemma SameSlashes(pfx: string, pat: string, n: nat)
    requires |pfx| == |pat| == n && forall x :: 0 <= x < n ==> pfx[x] == SEP && pat[x] == SEP
    ensures pfx == pat
  {
  }

  /** Every component that is left counts as a directory: the result for "/a/."
      and "/a/b" does not lead from the first to the second. */
  method DotsMislead(ooo: bool) returns (result: string)
    ensures Walk([], Comps("/a/.")) == ["a"] && Comps("/a/b") == ["a", "b"]
    ensures Walk(["a"], Split(result)) != ["a", "b"]
  {
    hide Split, Clean, First, Slashes;
    TwoParts("/a/.", "a", ".");
    TwoParts("/a/b", "a", "b");
    assert ["a", "."][1..] == ["."];
    assert Comps("/a/.")[1] == ".";
    result := RelativePath("/a/.", "/a/b", ooo);
  }

  lemma TwoParts(s: string, a: string, b: string)
    requires s == [SEP] + a + [SEP] + b && Plain(a) && Plain(b) && a != "" && b != ""
    ensures Comps(s) == [a, b] && Slashes(s) == 1 && First(s) == a
  {
    var tail := a + [SEP] + b;
    assert s == [SEP] + tail && s[1..] == tail && s[1..1 + |a|] == a;
    CompsSkip([SEP], tail);
    CompsHead(a, b);
    CompsHead(b, "");
    FirstIs(s, 1, 1 + |a|);
  }
}
