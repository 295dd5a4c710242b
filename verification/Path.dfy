/** Clean_path() of path.c: lexical cleaning of a path in its buffer, on a
    system with `/` as the only directory separator. */
module Path {

  const NUL: char := '\0'
  const SEP: char := '/'

  // ---- Components ----

  /** The parts between separators: one more than there are separators. */
  function Split(s: string): (r: seq<string>)
    ensures |r| > 0
  {
    if s == "" then [""]
    else
      var rest := Split(s[1..]);
      if s[0] == SEP then [""] + rest else [[s[0]] + rest[0]] + rest[1..]
  }

  function Join(parts: seq<string>): string
    requires |parts| > 0
  {
    if |parts| == 1 then parts[0] else parts[0] + [SEP] + Join(parts[1..])
  }

  /** The directory parts: all but the last. */
  function Dirs(s: string): seq<string> {
    Split(s)[..|Split(s)| - 1]
  }

  function Last(s: string): string {
    Split(s)[|Split(s)| - 1]
  }

  lemma {:induction false} JoinSplit(s: string)
    ensures Join(Split(s)) == s
  {
    if s != "" {
      JoinSplit(s[1..]);
      JoinSep(Split(s[1..]));
      JoinChar(s[0], Split(s[1..]));
      hide Join;
      assert s == [s[0]] + s[1..];
    }
  }

  /** One more separator in front ... */
  lemma JoinSep(rest: seq<string>)
    requires |rest| > 0
    ensures Join([""] + rest) == [SEP] + Join(rest)
  {
    assert ([""] + rest)[1..] == rest && "" + [SEP] + Join(rest) == [SEP] + Join(rest);
  }

  /** ... and one more character. */
  lemma JoinChar(c: char, rest: seq<string>)
    requires |rest| > 0
    ensures Join([[c] + rest[0]] + rest[1..]) == [c] + Join(rest)
  {
    hide Join;
    var parts := [[c] + rest[0]] + rest[1..];
    assert parts[1..] == rest[1..];
    JoinFirst(parts);
    JoinFirst(rest);
    if |rest| > 1 {
      InFront(c, rest[0], [SEP], Join(rest[1..]));
    }
  }

  lemma JoinFirst(parts: seq<string>)
    requires |parts| > 0
    ensures Join(parts) == if |parts| == 1 then parts[0] else parts[0] + [SEP] + Join(parts[1..])
  {
  }

  lemma InFront(c: char, x: string, y: string, z: string)
    ensures ([c] + x) + y + z == [c] + (x + y + z)
  {
  }

  predicate Plain(s: string) {
    SEP !in s
  }

  lemma {:induction false} SplitPlain(s: string)
    requires Plain(s)
    ensures Split(s) == [s]
  {
    if s != "" {
      SplitPlain(s[1..]);
      assert [s[0]] + s[1..] == s;
    }
  }

  /** A part and its separator split off. */
  lemma {:induction false} SplitPart(part: string, rest: string)
    requires Plain(part)
    ensures Split(part + [SEP] + rest) == [part] + Split(rest)
  {
    var s := part + [SEP] + rest;
    if part == "" {
      assert s == [SEP] + rest && s[1..] == rest;
    } else {
      SplitPart(part[1..], rest);
      assert s[1..] == part[1..] + [SEP] + rest && s[0] == part[0];
      assert [part[0]] + part[1..] == part;
      assert ([part[1..]] + Split(rest))[1..] == Split(rest);
    }
  }

  lemma {:induction false} SplitJoin(parts: seq<string>)
    requires |parts| > 0 && forall i :: 0 <= i < |parts| ==> Plain(parts[i])
    ensures Split(Join(parts)) == parts
  {
    if |parts| == 1 {
      SplitPlain(parts[0]);
    } else {
      SplitJoin(parts[1..]);
      SplitPart(parts[0], Join(parts[1..]));
    }
  }

  lemma {:induction false} SplitIsPlain(s: string)
    ensures forall i :: 0 <= i < |Split(s)| ==> Plain(Split(s)[i])
  {
    if s != "" {
      SplitIsPlain(s[1..]);
    }
  }

  /** A prefix up to a separator contributes its parts in front. */
  predicate AtPart(a: string) {
    a == "" || a[|a| - 1] == SEP
  }

  lemma {:induction false} SplitAt(a: string, b: string)
    requires AtPart(a)
    ensures Split(a + b) == Dirs(a) + Split(b) && Last(a) == ""
  {
    if a == "" {
      assert a + b == b;
    } else {
      SplitAt(a[1..], b);
      SplitAtCons(a, b);
    }
  }

  lemma SplitAtCons(a: string, b: string)
    requires a != "" && AtPart(a) && Split(a[1..] + b) == Dirs(a[1..]) + Split(b) && Last(a[1..]) == ""
    ensures Split(a + b) == Dirs(a) + Split(b) && Last(a) == ""
  {
    hide Split;
    var tail := a[1..];
    assert (a + b)[1..] == tail + b && (a + b)[0] == a[0];
    SplitCons(a);
    SplitCons(a + b);
    if a[0] == SEP {
      assert Dirs(a) == [""] + Dirs(tail);
    } else {
      DirsNotEmpty(tail);
      var d := Dirs(tail);
      assert Dirs(a) == [[a[0]] + d[0]] + d[1..];
      assert (d + Split(b))[0] == d[0] && (d + Split(b))[1..] == d[1..] + Split(b);
    }
  }

  lemma SplitCons(s: string)
    requires s != ""
    ensures s[0] == SEP ==> Split(s) == [""] + Split(s[1..])
    ensures s[0] != SEP ==> Split(s) == [[s[0]] + Split(s[1..])[0]] + Split(s[1..])[1..]
  {
  }

  lemma DirsNotEmpty(a: string)
    requires a != "" && a[|a| - 1] == SEP
    ensures |Split(a)| > 1
  {
    if a[0] != SEP {
      DirsNotEmpty(a[1..]);
    }
  }

  // ---- What cleaning means ----

  predicate IsName(part: string) {
    part != "" && part != "." && part != ".."
  }

  /** One more directory part after those kept so far.  With `keepDot` a "." is
      kept when nothing is left in front of it. */
  function Push(kept: seq<string>, part: string, keepDot: bool): seq<string> {
    if part == "" then kept
    else if part == "." then (if keepDot && kept == [] then [part] else kept)
    else if part == ".." && kept != [] && IsName(kept[|kept| - 1]) then kept[..|kept| - 1]
    else kept + [part]
  }

  function Reduce(kept: seq<string>, parts: seq<string>, keepDot: bool): seq<string>
    decreases |parts|
  {
    if parts == [] then kept else Reduce(Push(kept, parts[0], keepDot), parts[1..], keepDot)
  }

  function Slashes(s: string): (k: nat)
    ensures k <= |s| && (forall i :: 0 <= i < k ==> s[i] == SEP) && (k < |s| ==> s[k] != SEP)
  {
    if s == "" || s[0] != SEP then 0 else 1 + Slashes(s[1..])
  }

  /** The root part as it is kept: three or more slashes become one. */
  function Root(s: string): string {
    if Slashes(s) > 2 then [SEP] else s[..Slashes(s)]
  }

  function Rest(s: string): string {
    s[Slashes(s)..]
  }

  /** A "." at the head of a relative path is kept in OOODMAKEMODE. */
  function KeepDot(s: string, ooo: bool): bool {
    ooo && Slashes(s) == 0
  }

  /** The cleaned path. */
  function Clean(s: string, ooo: bool): string {
    Root(s) + Join(Reduce([], Dirs(Rest(s)), KeepDot(s, ooo)) + [Last(Rest(s))])
  }

  // ---- Normal form ----

  ghost predicate NormalAt(parts: seq<string>, i: nat, keepDot: bool)
    requires i < |parts|
  {
    && Plain(parts[i]) && parts[i] != ""
    && (parts[i] == "." ==> keepDot && i == 0)
    && (parts[i] == ".." ==> i == 0 || !IsName(parts[i - 1]))
  }

  /** No empty part, no "." but a kept one, no name in front of "..". */
  ghost predicate Normal(parts: seq<string>, keepDot: bool) {
    forall i :: 0 <= i < |parts| ==> NormalAt(parts, i, keepDot)
  }

  lemma PushKeepsNormal(kept: seq<string>, part: string, keepDot: bool)
    requires Normal(kept, keepDot) && Plain(part)
    ensures Normal(Push(kept, part, keepDot), keepDot)
  {
    var r := Push(kept, part, keepDot);
    forall i | 0 <= i < |r| ensures NormalAt(r, i, keepDot) {
      assert i < |kept| ==> NormalAt(kept, i, keepDot);
    }
  }

  lemma {:induction false} ReduceIsNormal(kept: seq<string>, parts: seq<string>, keepDot: bool)
    requires Normal(kept, keepDot) && forall i :: 0 <= i < |parts| ==> Plain(parts[i])
    ensures Normal(Reduce(kept, parts, keepDot), keepDot)
    decreases |parts|
  {
    if parts != [] {
      PushKeepsNormal(kept, parts[0], keepDot);
      ReduceIsNormal(Push(kept, parts[0], keepDot), parts[1..], keepDot);
    }
  }

  /** Nothing happens to parts in normal form. */
  lemma {:induction false} ReduceNormal(kept: seq<string>, parts: seq<string>, keepDot: bool)
    requires Normal(kept + parts, keepDot)
    ensures Reduce(kept, parts, keepDot) == kept + parts
    decreases |parts|
  {
    if parts == [] {
      assert kept + parts == kept;
    } else {
      assert NormalAt(kept + parts, |kept|, keepDot);
      assert kept + parts == (kept + [parts[0]]) + parts[1..];
      assert Push(kept, parts[0], keepDot) == kept + [parts[0]];
      ReduceNormal(kept + [parts[0]], parts[1..], keepDot);
    }
  }

  lemma {:induction false} ReduceAppend(kept: seq<string>, a: seq<string>, b: seq<string>, keepDot: bool)
    ensures Reduce(kept, a + b, keepDot) == Reduce(Reduce(kept, a, keepDot), b, keepDot)
    decreases |a|
  {
    if a == [] {
      assert a + b == b;
    } else {
      assert (a + b)[1..] == a[1..] + b;
      ReduceAppend(Push(kept, a[0], keepDot), a[1..], b, keepDot);
    }
  }

  // ---- The cleaned path, taken apart ----

  /** The parts of a cleaned path. */
  lemma CleanParts(s: string, ooo: bool)
    ensures var c := Clean(s, ooo);
            && Root(c) == Root(s) && Slashes(c) == |Root(s)| && KeepDot(c, ooo) == KeepDot(s, ooo)
            && Dirs(Rest(c)) == Reduce([], Dirs(Rest(s)), KeepDot(s, ooo)) && Last(Rest(c)) == Last(Rest(s))
  {
    var keepDot, rest := KeepDot(s, ooo), Rest(s);
    SplitIsPlain(rest);
    ReduceIsNormal([], Dirs(rest), keepDot);
    var kept := Reduce([], Dirs(rest), keepDot);
    var parts := kept + [Last(rest)];
    forall i | 0 <= i < |parts| ensures Plain(parts[i]) {
      assert i < |kept| ==> NormalAt(kept, i, keepDot);
    }
    SplitJoin(parts);
    assert parts[..|parts| - 1] == kept;
    assert kept != [] ==> NormalAt(kept, 0, keepDot);
    JoinHead(parts);
    RootAndRest(Root(s), Join(parts));
  }

  lemma JoinHead(parts: seq<string>)
    requires |parts| > 0 && Plain(parts[0]) && (|parts| > 1 ==> parts[0] != "")
    ensures Slashes(Join(parts)) == 0
  {
  }

  lemma {:induction false} SlashesOf(root: string, rest: string)
    requires (forall i :: 0 <= i < |root| ==> root[i] == SEP) && Slashes(rest) == 0
    ensures Slashes(root + rest) == |root|
  {
    if root == "" {
      assert root + rest == rest;
    } else {
      SlashesOf(root[1..], rest);
      assert (root + rest)[1..] == root[1..] + rest;
    }
  }

  lemma RootAndRest(root: string, rest: string)
    requires (forall i :: 0 <= i < |root| ==> root[i] == SEP) && |root| <= 2 && Slashes(rest) == 0
    ensures Root(root + rest) == root && Rest(root + rest) == rest && Slashes(root + rest) == |root|
  {
    SlashesOf(root, rest);
    assert (root + rest)[..|root|] == root;
  }

  /** A cleaned path is in normal form. */
  lemma CleanIsNormal(s: string, ooo: bool)
    ensures Normal(Dirs(Rest(Clean(s, ooo))), KeepDot(s, ooo)) && |Root(Clean(s, ooo))| <= 2
  {
    CleanParts(s, ooo);
    SplitIsPlain(Rest(s));
    ReduceIsNormal([], Dirs(Rest(s)), KeepDot(s, ooo));
  }

  /** Three or more slashes at the head count as one; one or two are kept. */
  lemma SlashesAtHead(run: string, s: string, ooo: bool)
    requires (forall i :: 0 <= i < |run| ==> run[i] == SEP) && (s == "" || s[0] != SEP)
    ensures |run| >= 3 ==> Clean(run + s, ooo) == Clean([SEP] + s, ooo)
    ensures |run| <= 2 ==> Slashes(Clean(run + s, ooo)) == |run|
  {
    SlashesOf(run, s);
    SlashesOf([SEP], s);
    assert (run + s)[|run|..] == s && ([SEP] + s)[1..] == s && ([SEP] + s)[..1] == [SEP];
    if |run| <= 2 {
      CleanParts(run + s, ooo);
    }
  }

  /** A "./" in front of a name is dropped, except in OOODMAKEMODE. */
  lemma DotAtHead(name: string, ooo: bool)
    requires Plain(name)
    ensures Clean("./" + name, ooo) == if ooo then "./" + name else name
    ensures Clean(name, ooo) == name
  {
    var s := "./" + name;
    SplitPlain(name);
    assert Split(s) == ["."] + [name] by {
      SplitPart(".", name);
      assert s == "." + [SEP] + name;
    }
    assert Slashes(s) == 0 && Slashes(name) == 0 && s[0..] == s && name[0..] == name;
    assert (["."] + [name])[..1] == ["."] && [name][..0] == [];
    hide Split, Slashes, Plain;
    OneDot(ooo);
    assert [] + [name] == [name];
    JoinTwo(name);
  }

  lemma OneDot(keepDot: bool)
    ensures Reduce([], ["."], keepDot) == if keepDot then ["."] else []
    ensures Reduce([], [], keepDot) == []
  {
    assert ["."][1..] == [];
  }

  lemma JoinTwo(name: string)
    ensures Join([name]) == name && Join(["."] + [name]) == "./" + name
  {
    assert (["."] + [name])[1..] == [name];
    assert "." + [SEP] + name == "./" + name;
  }

  /** Cleaning again changes nothing. */
  lemma CleanTwice(s: string, ooo: bool)
    ensures Clean(Clean(s, ooo), ooo) == Clean(s, ooo)
  {
    CleanParts(s, ooo);
    CleanIsNormal(s, ooo);
    var kept := Dirs(Rest(Clean(s, ooo)));
    assert [] + kept == kept;
    ReduceNormal([], kept, KeepDot(s, ooo));
  }

  /** Cleaning leaves exactly the paths in normal form alone, whatever their last
      part is: `foo/..` stays. */
  lemma CleanedAlready(s: string, ooo: bool)
    ensures Clean(s, ooo) == s <==> Slashes(s) <= 2 && Normal(Dirs(Rest(s)), KeepDot(s, ooo))
  {
    hide Split, Join, Slashes, Normal, Reduce, KeepDot;
    if Clean(s, ooo) == s {
      CleanIsNormal(s, ooo);
      CleanParts(s, ooo);
    }
    if Slashes(s) <= 2 && Normal(Dirs(Rest(s)), KeepDot(s, ooo)) {
      assert [] + Dirs(Rest(s)) == Dirs(Rest(s));
      ReduceNormal([], Dirs(Rest(s)), KeepDot(s, ooo));
      assert Dirs(Rest(s)) + [Last(Rest(s))] == Split(Rest(s));
      JoinSplit(Rest(s));
      assert s == s[..Slashes(s)] + s[Slashes(s)..];
    }
  }

  /** "foo/.." stays, although it leads nowhere. */
  lemma TrailingUp()
    ensures Clean("foo/..", false) == "foo/.."
  {
    hide Split, Clean, Reduce, Join;
    var s := "foo/..";
    SplitPart("foo", "..");
    SplitPlain("..");
    CleanedAlready(s, false);
    assert "foo" + [SEP] + ".." == s && Slashes(s) == 0 && s[0..] == s;
    assert Dirs(s) == ["foo"] && NormalAt(["foo"], 0, false);
  }

  // ---- A cleaned path is no longer ----

  function Width(parts: seq<string>): nat {
    if parts == [] then 0 else |parts[0]| + 1 + Width(parts[1..])
  }

  lemma {:induction false} WidthAppend(a: seq<string>, b: seq<string>)
    ensures Width(a + b) == Width(a) + Width(b)
  {
    if a == [] {
      assert a + b == b;
    } else {
      assert (a + b)[1..] == a[1..] + b;
      WidthAppend(a[1..], b);
    }
  }

  lemma {:induction false} JoinWidth(parts: seq<string>, last: string)
    ensures |Join(parts + [last])| == Width(parts) + |last|
  {
    if parts == [] {
      assert parts + [last] == [last];
    } else {
      assert (parts + [last])[1..] == parts[1..] + [last];
      JoinWidth(parts[1..], last);
    }
  }

  lemma {:induction false} ReduceWidth(kept: seq<string>, parts: seq<string>, keepDot: bool)
    ensures Width(Reduce(kept, parts, keepDot)) <= Width(kept) + Width(parts)
    decreases |parts|
  {
    if parts != [] {
      var next := Push(kept, parts[0], keepDot);
      WidthAppend(kept, [parts[0]]);
      if kept != [] {
        assert kept == kept[..|kept| - 1] + [kept[|kept| - 1]];
        WidthAppend(kept[..|kept| - 1], [kept[|kept| - 1]]);
      }
      ReduceWidth(next, parts[1..], keepDot);
    }
  }

  lemma WidthNone()
    ensures Width([]) == 0
  {
  }

  lemma CleanIsNotLonger(s: string, ooo: bool)
    ensures |Clean(s, ooo)| <= |s|
  {
    hide Reduce, Width, Join, Split, Slashes;
    var rest := Rest(s);
    assert Width([]) == 0 by {
      WidthNone();
    }
    ReduceWidth([], Dirs(rest), KeepDot(s, ooo));
    JoinWidth(Reduce([], Dirs(rest), KeepDot(s, ooo)), Last(rest));
    JoinWidth(Dirs(rest), Last(rest));
    assert Dirs(rest) + [Last(rest)] == Split(rest);
    JoinSplit(rest);
  }

  // ---- A cleaned path leads to the same place ----

  /** Going through one directory part: ".." leaves a directory, unless there is
      none to leave. */
  function Go(dir: seq<string>, part: string): seq<string> {
    if part == "" || part == "." then dir
    else if part == ".." then (if dir == [] then [] else dir[..|dir| - 1])
    else dir + [part]
  }

  function Walk(dir: seq<string>, parts: seq<string>): seq<string>
    decreases |parts|
  {
    if parts == [] then dir else Walk(Go(dir, parts[0]), parts[1..])
  }

  lemma {:induction false} WalkAppend(dir: seq<string>, a: seq<string>, b: seq<string>)
    ensures Walk(dir, a + b) == Walk(Walk(dir, a), b)
    decreases |a|
  {
    if a == [] {
      assert a + b == b;
    } else {
      assert (a + b)[1..] == a[1..] + b;
      WalkAppend(Go(dir, a[0]), a[1..], b);
    }
  }

  lemma WalkOne(dir: seq<string>, part: string)
    ensures Walk(dir, [part]) == Go(dir, part)
  {
    assert [part][1..] == [];
  }

  lemma WalkPush(dir: seq<string>, kept: seq<string>, part: string, keepDot: bool)
    ensures Walk(dir, Push(kept, part, keepDot)) == Walk(dir, kept + [part])
  {
    WalkAppend(dir, kept, [part]);
    WalkOne(Walk(dir, kept), part);
    if part == ".." && kept != [] && IsName(kept[|kept| - 1]) {
      var init, name := kept[..|kept| - 1], kept[|kept| - 1];
      assert kept == init + [name];
      WalkAppend(dir, init, [name]);
      var at := Walk(dir, init);
      WalkOne(at, name);
      WalkOne(at + [name], "..");
    }
  }

  lemma {:induction false} WalkReduce(dir: seq<string>, kept: seq<string>, parts: seq<string>, keepDot: bool)
    ensures Walk(dir, Reduce(kept, parts, keepDot)) == Walk(dir, kept + parts)
    decreases |parts|
  {
    hide Push, Walk;
    if parts == [] {
      assert kept + parts == kept;
    } else {
      WalkReduce(dir, Push(kept, parts[0], keepDot), parts[1..], keepDot);
      WalkNext(dir, kept, parts, keepDot);
    }
  }

  lemma WalkNext(dir: seq<string>, kept: seq<string>, parts: seq<string>, keepDot: bool)
    requires parts != []
    ensures Walk(dir, Push(kept, parts[0], keepDot) + parts[1..]) == Walk(dir, kept + parts)
  {
    hide Push, Walk;
    var next := Push(kept, parts[0], keepDot);
    WalkPush(dir, kept, parts[0], keepDot);
    WalkAppend(dir, next, parts[1..]);
    WalkAppend(dir, kept + [parts[0]], parts[1..]);
    assert kept + parts == (kept + [parts[0]]) + parts[1..];
  }

  /** A cleaned path names the same file: the root, the directory reached from
      anywhere, and the last part are the same. */
  lemma CleanKeepsMeaning(s: string, ooo: bool)
    ensures Root(Clean(s, ooo)) == Root(s) && Last(Rest(Clean(s, ooo))) == Last(Rest(s))
    ensures forall dir :: Walk(dir, Dirs(Rest(Clean(s, ooo)))) == Walk(dir, Dirs(Rest(s)))
  {
    CleanParts(s, ooo);
    forall dir ensures Walk(dir, Dirs(Rest(Clean(s, ooo)))) == Walk(dir, Dirs(Rest(s))) {
      WalkReduce(dir, [], Dirs(Rest(s)), KeepDot(s, ooo));
      assert [] + Dirs(Rest(s)) == Dirs(Rest(s));
    }
  }

  // ---- The steps of the algorithm ----

  /** What is left of the parts of `b` after `kept`. */
  ghost function Left(kept: seq<string>, b: string, keepDot: bool): seq<string> {
    Reduce(kept, Dirs(b), keepDot)
  }

  lemma LeftPart(kept: seq<string>, part: string, c: string, keepDot: bool)
    requires Plain(part)
    ensures Left(kept, part + [SEP] + c, keepDot) == Left(Push(kept, part, keepDot), c, keepDot)
    ensures Last(part + [SEP] + c) == Last(c) && Dirs(part + [SEP] + c) == [part] + Dirs(c)
  {
    SplitPart(part, c);
    assert Dirs(part + [SEP] + c) == [part] + Dirs(c);
    assert ([part] + Dirs(c))[1..] == Dirs(c);
  }

  /** Leading separators do not count. */
  lemma {:induction false} LeftSlashes(kept: seq<string>, run: string, c: string, keepDot: bool)
    requires forall i :: 0 <= i < |run| ==> run[i] == SEP
    ensures Left(kept, run + c, keepDot) == Left(kept, c, keepDot) && Last(run + c) == Last(c)
  {
    if run == "" {
      assert run + c == c;
    } else {
      LeftSlashes(kept, run[1..], c, keepDot);
      assert run + c == "" + [SEP] + (run[1..] + c);
      LeftPart(kept, "", run[1..] + c, keepDot);
    }
  }

  /** Going back to the start. */
  lemma LeftAgain(a: string, c: string, keepDot: bool)
    requires AtPart(a) && Normal(Dirs(a), keepDot)
    ensures Left([], a + c, keepDot) == Left(Dirs(a), c, keepDot) && Last(a + c) == Last(c)
  {
    SplitAt(a, c);
    assert Dirs(a + c) == Dirs(a) + Dirs(c);
    ReduceAppend([], Dirs(a), Dirs(c), keepDot);
    assert [] + Dirs(a) == Dirs(a);
    ReduceNormal([], Dirs(a), keepDot);
  }

  /** The loop of Clean_path(): `a` is clean, `b` is still to be looked at, and
      what will be left is `kept` and `last`. */
  ghost predicate Cleaning(a: string, b: string, keepDot: bool, kept: seq<string>, last: string) {
    && AtPart(a) && Normal(Dirs(a), keepDot)
    && Left(Dirs(a), b, keepDot) == kept && Last(b) == last
    && (b != "" ==> b[0] != SEP)
    && (Dirs(b) != [] && Dirs(b)[0] == ".." && Dirs(a) != [] ==> !IsName(Dirs(a)[|Dirs(a)| - 1]))
  }

  lemma CollapseStep(a: string, part: string, run: string, c: string, keepDot: bool, kept: seq<string>, last: string)
    requires Cleaning(a, part + [SEP] + (run + c), keepDot, kept, last) && Plain(part) && part != ""
    requires forall i :: 0 <= i < |run| ==> run[i] == SEP
    ensures Cleaning(a, part + [SEP] + c, keepDot, kept, last)
  {
    LeftPart(Dirs(a), part, run + c, keepDot);
    LeftPart(Dirs(a), part, c, keepDot);
    LeftSlashes(Push(Dirs(a), part, keepDot), run, c, keepDot);
  }

  lemma DotStep(a: string, c: string, keepDot: bool, kept: seq<string>, last: string)
    requires Cleaning(a, "." + [SEP] + c, keepDot, kept, last) && !(keepDot && a == "") && (c != "" ==> c[0] != SEP)
    ensures Cleaning("", a + c, keepDot, kept, last)
  {
    LeftPart(Dirs(a), ".", c, keepDot);
    LeftAgain(a, c, keepDot);
    StartsWithPart(a, c, keepDot);
  }

  lemma StartsWithPart(a: string, c: string, keepDot: bool)
    requires AtPart(a) && Normal(Dirs(a), keepDot) && (c != "" ==> c[0] != SEP)
    ensures a != "" ==> Dirs(a) != []
    ensures a + c != "" ==> (a + c)[0] != SEP
    ensures Dirs("") == []
  {
    if a != "" {
      DirsNotEmpty(a);
      assert NormalAt(Dirs(a), 0, keepDot);
    }
  }

  lemma DotDotStep(a: string, part: string, run: string, c: string, keepDot: bool, kept: seq<string>, last: string)
    requires Cleaning(a, part + [SEP] + (".." + [SEP] + (run + c)), keepDot, kept, last) && Plain(part) && IsName(part)
    requires (forall i :: 0 <= i < |run| ==> run[i] == SEP) && (c != "" ==> c[0] != SEP)
    ensures Cleaning("", a + c, keepDot, kept, last)
  {
    LeftPart(Dirs(a), part, ".." + [SEP] + (run + c), keepDot);
    LeftPart(Dirs(a) + [part], "..", run + c, keepDot);
    assert Push(Dirs(a) + [part], "..", keepDot) == Dirs(a);
    LeftSlashes(Dirs(a), run, c, keepDot);
    LeftAgain(a, c, keepDot);
    StartsWithPart(a, c, keepDot);
  }

  /** A part that stays. */
  lemma KeepPart(a: string, part: string, c: string, keepDot: bool, kept: seq<string>, last: string)
    requires Cleaning(a, part + [SEP] + c, keepDot, kept, last) && Plain(part) && part != ""
    requires part == "." ==> keepDot && a == ""
    ensures AtPart(a + part + [SEP]) && Dirs(a + part + [SEP]) == Dirs(a) + [part]
    ensures Push(Dirs(a), part, keepDot) == Dirs(a) + [part] && Normal(Dirs(a) + [part], keepDot)
    ensures Left(Dirs(a) + [part], c, keepDot) == kept && Last(c) == last
  {
    hide Left, Split, Reduce, Normal;
    LeftPart(Dirs(a), part, c, keepDot);
    SplitAt(a, part + [SEP] + "");
    LeftPart(Dirs(a), part, "", keepDot);
    SplitPlain("");
    assert a + (part + [SEP] + "") == a + part + [SEP];
    PushPart(Dirs(a), part, c, keepDot);
  }

  lemma PushPart(dirs: seq<string>, part: string, c: string, keepDot: bool)
    requires Normal(dirs, keepDot) && Plain(part) && part != "" && (part == "." ==> keepDot && dirs == [])
    requires part == ".." && dirs != [] ==> !IsName(dirs[|dirs| - 1])
    ensures Push(dirs, part, keepDot) == dirs + [part] && Normal(dirs + [part], keepDot)
  {
    var all := dirs + [part];
    forall i | 0 <= i < |all| ensures NormalAt(all, i, keepDot) {
      assert i < |dirs| ==> NormalAt(dirs, i, keepDot);
    }
  }

  lemma KeepStep(a: string, part: string, c: string, keepDot: bool, kept: seq<string>, last: string)
    requires Cleaning(a, part + [SEP] + c, keepDot, kept, last) && Plain(part) && part != ""
    requires (part == "." ==> keepDot && a == "") && (c != "" ==> c[0] != SEP)
    requires Dirs(c) != [] && Dirs(c)[0] == ".." ==> !IsName(part)
    ensures Cleaning(a + part + [SEP], c, keepDot, kept, last)
  {
    KeepPart(a, part, c, keepDot, kept, last);
  }

  /** The loop ends when at most one separator is left. */
  lemma CleanedPlain(a: string, b: string, keepDot: bool, kept: seq<string>, last: string)
    requires Cleaning(a, b, keepDot, kept, last) && Plain(b)
    ensures a + b == Join(kept + [last])
  {
    SplitPlain(b);
    SplitAt(a, b);
    JoinSplit(a + b);
  }

  lemma CleanedPart(a: string, part: string, c: string, keepDot: bool, kept: seq<string>, last: string)
    requires Cleaning(a, part + [SEP] + c, keepDot, kept, last) && Plain(part) && part != "" && Plain(c)
    requires part == "." ==> keepDot && a == ""
    ensures a + (part + [SEP] + c) == Join(kept + [last])
  {
    KeepPart(a, part, c, keepDot, kept, last);
    SplitPlain(c);
    SplitAt(a, part + [SEP] + c);
    SplitPart(part, c);
    assert Dirs(a) + ([part] + [c]) == (Dirs(a) + [part]) + [c];
    JoinSplit(a + (part + [SEP] + c));
  }

  // ---- In the buffer ----

  /** The C string at the start of a buffer. */
  ghost predicate Holds(buf: seq<char>, n: int) {
    0 <= n < |buf| && buf[n] == NUL && forall i :: 0 <= i < n ==> buf[i] != NUL
  }

  method StrLen(path: array<char>) returns (n: nat)
    requires exists k :: Holds(path[..], k)
    ensures Holds(path[..], n)
  {
    n := 0;
    ghost var k :| Holds(path[..], k);
    while path[n] != NUL
      invariant n <= k && forall i :: 0 <= i < n ==> path[i] != NUL
      decreases k - n
    {
      n := n + 1;
    }
  }

  /** strchr(): the next separator, or the end of the string. */
  method FindSep(path: array<char>, from: nat, n: nat) returns (p: nat)
    requires Holds(path[..], n) && from <= n
    ensures from <= p <= n && Plain(path[from..p]) && (p < n ==> path[p] == SEP)
  {
    p := from;
    while p < n && path[p] != SEP
      invariant from <= p <= n && Plain(path[from..p])
    {
      p := p + 1;
    }
  }

  /** The first position behind a run of separators. */
  method SkipSeps(path: array<char>, from: nat, n: nat) returns (p: nat)
    requires Holds(path[..], n) && from <= n
    ensures from <= p <= n && (p < n ==> path[p] != SEP) && forall i :: from <= i < p ==> path[i] == SEP
  {
    p := from;
    while path[p] == SEP
      invariant from <= p <= n && forall i :: from <= i < p ==> path[i] == SEP
      decreases n - p
    {
      p := p + 1;
    }
  }

  /** `i` bytes copied down. */
  function Copied(was: seq<char>, to: nat, from: nat, i: nat): (r: seq<char>)
    requires to <= from && from + i <= |was|
    ensures |r| == |was| && forall k :: 0 <= k < |r| ==> r[k] == if to <= k < to + i then was[k + (from - to)] else was[k]
  {
    seq(|was|, k requires 0 <= k < |was| => if to <= k < to + i then was[k + (from - to)] else was[k])
  }

  lemma CopiedAll(was: seq<char>, to: nat, from: nat, n: nat)
    requires Holds(was, n) && to <= from <= n
    ensures var r, m := Copied(was, to, from, n - from + 1), n - (from - to);
            Holds(r, m) && r[..m] == was[..to] + was[from..n]
  {
    var r, m := Copied(was, to, from, n - from + 1), n - (from - to);
    forall i | 0 <= i < m ensures r[i] != NUL && r[i] == (was[..to] + was[from..n])[i] {
    }
  }

  /** memmove() of the rest of the string, with its terminator, down to `to`. */
  method MoveDown(path: array<char>, to: nat, from: nat, n: nat) returns (m: nat)
    requires Holds(path[..], n) && to <= from <= n
    modifies path
    ensures m == n - (from - to) && Holds(path[..], m)
    ensures path[..m] == old(path[..to]) + old(path[from..n])
  {
    m := n - (from - to);
    ghost var was := path[..];
    CopiedAll(was, to, from, n);
    var i := 0;
    while i <= n - from
      invariant 0 <= i <= n - from + 1
      invariant path[..] == Copied(was, to, from, i)
    {
      assert path[from + i] == path[..][from + i] == was[from + i];
      path[to + i] := path[from + i];
      i := i + 1;
    }
    assert path[..m] == path[..][..m];
  }

  /** Clean the path in its buffer. */
  method CleanPath(path: array<char>, ooo: bool) returns (n: nat)
    requires exists k :: Holds(path[..], k)
    modifies path
    ensures Holds(path[..], n)
    ensures forall k :: old(Holds(path[..], k)) ==> path[..n] == Clean(old(path[..k]), ooo)
  {
    hide Cleaning, Reduce, Split, Holds, Slashes;
    ghost var was := path[..];
    n := StrLen(path);
    ghost var s := was[..n];
    HoldsOnce(was, n);
    var base := SkipSeps(path, 0, n);
    SlashesAre(s, base);
    if base > 2 {
      n := MoveDown(path, 1, base, n);
      base := 1;
    }
    ghost var root, keepDot := Root(s), KeepDot(s, ooo);
    ghost var kept, last := Reduce([], Dirs(Rest(s)), keepDot), Last(Rest(s));
    assert path[..n] == root + Rest(s) && path[..base] == root && path[base..n] == Rest(s);
    CleaningStarts(Rest(s), keepDot);
    n := CleanRest(path, base, n, ooo, keepDot, kept, last);
    SplitAnywhere(path[..], 0, base, n);
    assert path[..n] == root + Join(kept + [last]);
  }

  lemma HoldsOnce(buf: seq<char>, n: nat)
    requires Holds(buf, n)
    ensures n < |buf| && forall k :: Holds(buf, k) <==> k == n
  {
  }

  lemma SlashesAre(s: string, k: nat)
    requires k <= |s| && (forall i :: 0 <= i < k ==> s[i] == SEP) && (k < |s| ==> s[k] != SEP)
    ensures Slashes(s) == k
  {
  }

  lemma CleaningStarts(rest: string, keepDot: bool)
    requires rest != "" ==> rest[0] != SEP
    ensures Cleaning("", rest, keepDot, Reduce([], Dirs(rest), keepDot), Last(rest))
  {
    assert Dirs("") == [];
  }

  /** The state after a turn of the loop: cleaned further, with a shorter string
      or a later position, or finished. */
  twostate predicate Turned(path: array<char>, base: nat, q0: nat, n0: nat, q: nat, n: nat, more: bool,
                            keepDot: bool, kept: seq<string>, last: string)
    reads path
  {
    && Holds(path[..], n) && base <= q <= n && base <= |old(path[..])| && path[..base] == old(path[..base])
    && (more ==> Cleaning(path[base..q], path[q..n], keepDot, kept, last) && (n < n0 || (n == n0 && q > q0)))
    && (!more ==> path[base..n] == Join(kept + [last]))
  }

  /** The text from `q` on, split at a separator. */
  lemma SplitAtSep(s: seq<char>, q: nat, p: nat, n: nat)
    requires q <= p < n <= |s| && s[p] == SEP
    ensures s[q..n] == s[q..p] + [SEP] + s[p + 1..n]
  {
  }

  lemma SplitAnywhere(s: seq<char>, q: nat, p: nat, n: nat)
    requires q <= p <= n <= |s|
    ensures s[q..n] == s[q..p] + s[p..n]
  {
  }

  /** After moving down, the parts of the buffer. */
  lemma AfterMove(s: seq<char>, m: nat, a: string, b: string, base: nat)
    requires base <= |a| && m <= |s| && s[..m] == a + b
    ensures m == |a| + |b| && s[..base] == a[..base] && s[base..m] == a[base..] + b
    ensures forall q :: base <= q <= |a| ==> s[base..q] == a[base..q] && s[q..m] == a[q..] + b
  {
    assert |a + b| == m;
    Slice(s, m, 0, base);
    forall q | base <= q <= |a| ensures s[base..q] == a[base..q] && s[q..m] == a[q..] + b {
      Slice(s, m, base, q);
      Slice(s, m, q, m);
    }
  }

  lemma Slice(s: seq<char>, m: nat, p: nat, q: nat)
    requires p <= q <= m <= |s|
    ensures s[p..q] == s[..m][p..q]
  {
  }

  /** Several separators become one. */
  method Collapse(path: array<char>, base: nat, q: nat, p: nat, n: nat, ghost keepDot: bool, ghost kept: seq<string>, ghost last: string)
    returns (m: nat)
    requires Holds(path[..], n) && base <= q < p < n && path[p] == SEP && path[p + 1] == SEP && Plain(path[q..p])
    requires Cleaning(path[base..q], path[q..n], keepDot, kept, last)
    modifies path
    ensures Turned(path, base, q, n, q, m, true, keepDot, kept, last)
  {
    hide Cleaning, Plain, Dirs, Left;
    ghost var s := path[..];
    CollapseSite(s, base, q, p, n);
    var e := SkipSeps(path, p + 1, n);
    SplitAtSep(s, q, p, n);
    SplitAnywhere(s, p + 1, e, n);
    CollapseStep(s[base..q], s[q..p], s[p + 1..e], s[e..n], keepDot, kept, last);
    m := MoveDown(path, p + 1, e, n);
    AfterMove(path[..], m, s[..p + 1], s[e..n], base);
  }

  lemma CollapseSite(s: seq<char>, base: nat, q: nat, p: nat, n: nat)
    requires base <= q < p < n < |s| && s[p] == SEP
    ensures s[q..p] != "" && s[..p + 1][q..] == s[q..p] + [SEP] && s[..p + 1][base..q] == s[base..q]
  {
  }

  /** The part at `q` is taken out, with what follows it up to `e`. */
  method TakeOut(path: array<char>, base: nat, q: nat, e: nat, n: nat, ghost keepDot: bool, ghost kept: seq<string>, ghost last: string)
    returns (m: nat)
    requires Holds(path[..], n) && base <= q < e <= n
    requires Cleaning("", path[base..q] + path[e..n], keepDot, kept, last)
    modifies path
    ensures Turned(path, base, q, n, base, m, true, keepDot, kept, last)
  {
    ghost var s := path[..];
    m := MoveDown(path, q, e, n);
    AfterMove(path[..], m, s[..q], s[e..n], base);
    assert s[..q][base..] == s[base..q] && path[base..base] == [];
  }

  method CleanStep(path: array<char>, base: nat, q: nat, n: nat, ooo: bool, ghost keepDot: bool, ghost kept: seq<string>, ghost last: string)
    returns (m: nat, r: nat, more: bool)
    requires Holds(path[..], n) && base <= q < n && keepDot == (ooo && base == 0)
    requires Cleaning(path[base..q], path[q..n], keepDot, kept, last)
    modifies path
    ensures Turned(path, base, q, n, r, m, more, keepDot, kept, last)
  {
    hide Cleaning, Dirs, Left, Plain;
    ghost var s := path[..];
    ghost var a, b := s[base..q], s[q..n];
    CleaningHead(a, b, keepDot, kept, last);
    var p := FindSep(path, q, n);
    if p == n {
      CleanedPlain(a, b, keepDot, kept, last);
      assert a + b == s[base..n];
      return n, q, false;
    }
    SplitAtSep(s, q, p, n);
    ghost var part, c := s[q..p], s[p + 1..n];
    assert part != "" by {
      assert b[0] == path[q];
    }
    if path[p + 1] == SEP {
      m := Collapse(path, base, q, p, n, keepDot, kept, last);
      return m, q, true;
    }
    assert c != "" ==> c[0] == path[p + 1];
    if p - q == 1 && path[q] == '.' && (q != 0 || !ooo) {
      assert part == ".";
      DotStep(a, c, keepDot, kept, last);
      m := TakeOut(path, base, q, p + 1, n, keepDot, kept, last);
      return m, base, true;
    }
    assert part == "." ==> keepDot && a == "";
    m, r, more := PairStep(path, base, q, p, n, keepDot, kept, last);
  }

  /** A name and the ".." behind it are taken out. */
  method TakeOutPair(path: array<char>, base: nat, q: nat, p: nat, t: nat, n: nat, ghost keepDot: bool, ghost kept: seq<string>, ghost last: string)
    returns (m: nat)
    requires Holds(path[..], n) && base <= q < p < t < n && path[p] == SEP && path[t] == SEP
    requires Plain(path[q..p]) && IsName(path[q..p]) && path[p + 1..t] == ".."
    requires Cleaning(path[base..q], path[q..p] + [SEP] + (path[p + 1..t] + [SEP] + path[t + 1..n]), keepDot, kept, last)
    modifies path
    ensures Turned(path, base, q, n, base, m, true, keepDot, kept, last)
  {
    hide Cleaning, Dirs, Left, Plain, IsName;
    ghost var s := path[..];
    var e := SkipSeps(path, t, n);
    SplitAnywhere(s, t + 1, e, n);
    assert s[e..n] != "" ==> s[e..n][0] == s[e];
    DotDotStep(s[base..q], s[q..p], s[t + 1..e], s[e..n], keepDot, kept, last);
    m := TakeOut(path, base, q, e, n, keepDot, kept, last);
  }

  /** A part and the one behind it. */
  method PairStep(path: array<char>, base: nat, q: nat, p: nat, n: nat, ghost keepDot: bool, ghost kept: seq<string>, ghost last: string)
    returns (m: nat, r: nat, more: bool)
    requires Holds(path[..], n) && base <= q < p < n && path[p] == SEP && path[p + 1] != SEP && Plain(path[q..p])
    requires Cleaning(path[base..q], path[q..p] + [SEP] + path[p + 1..n], keepDot, kept, last)
    requires path[q..p] == "." ==> keepDot && q == base
    modifies path
    ensures Turned(path, base, q, n, r, m, more, keepDot, kept, last)
  {
    hide Cleaning, Dirs, Left, Plain, IsName;
    ghost var s := path[..];
    ghost var a, part, c := s[base..q], s[q..p], s[p + 1..n];
    assert part != "" && (c != "" ==> c[0] == s[p + 1]) && (q == base ==> a == "");
    var t := FindSep(path, p + 1, n);
    if t == n {
      CleanedPart(a, part, c, keepDot, kept, last);
      WholeOf(s, base, q, p, n);
      return n, q, false;
    }
    SplitAtSep(s, p + 1, t, n);
    ghost var next := s[p + 1..t];
    var delentry :=
      if p - q == 2 then !(path[q] == '.' && path[q + 1] == '.')
      else if p - q == 1 then path[q] != '.'
      else true;
    NameTest(s, q, p);
    DotDotTest(s, p + 1, t);
    if delentry && t - p - 1 == 2 && path[p + 1] == '.' && path[p + 2] == '.' {
      m := TakeOutPair(path, base, q, p, t, n, keepDot, kept, last);
      return m, base, true;
    }
    NextPart(next, s[t + 1..n]);
    KeepStep(a, part, c, keepDot, kept, last);
    assert s[base..p + 1] == a + part + [SEP];
    return n, p + 1, true;
  }

  /** The test for a part that is neither "." nor "..". */
  lemma NameTest(s: seq<char>, q: nat, p: nat)
    requires q < p <= |s|
    ensures IsName(s[q..p]) ==
            if p - q == 2 then !(s[q] == '.' && s[q + 1] == '.') else if p - q == 1 then s[q] != '.' else true
  {
    assert s[q..p][0] == s[q];
    assert p - q == 2 ==> s[q..p] == [s[q], s[q + 1]];
    assert p - q == 1 ==> s[q..p] == [s[q]];
  }

  lemma DotDotTest(s: seq<char>, q: nat, p: nat)
    requires q <= p <= |s|
    ensures s[q..p] == ".." <==> p - q == 2 && s[q] == '.' && s[q + 1] == '.'
  {
    assert p - q == 2 ==> s[q..p] == [s[q], s[q + 1]];
  }

  lemma NextPart(part: string, c: string)
    requires Plain(part)
    ensures Dirs(part + [SEP] + c) != [] && Dirs(part + [SEP] + c)[0] == part
  {
    SplitPart(part, c);
  }

  lemma WholeOf(s: seq<char>, base: nat, q: nat, p: nat, n: nat)
    requires base <= q <= p < n <= |s| && s[p] == SEP
    ensures s[base..q] + (s[q..p] + [SEP] + s[p + 1..n]) == s[base..n]
  {
  }

  lemma CleaningHead(a: string, b: string, keepDot: bool, kept: seq<string>, last: string)
    requires Cleaning(a, b, keepDot, kept, last)
    ensures b != "" ==> b[0] != SEP
  {
  }

  /** The loop. */
  method CleanRest(path: array<char>, base: nat, len: nat, ooo: bool, ghost keepDot: bool, ghost kept: seq<string>, ghost last: string)
    returns (n: nat)
    requires Holds(path[..], len) && base <= len && keepDot == (ooo && base == 0)
    requires Cleaning("", path[base..len], keepDot, kept, last)
    modifies path
    ensures Holds(path[..], n) && base <= n && path[..base] == old(path[..base])
    ensures path[base..n] == Join(kept + [last])
  {
    n := len;
    var q := base;
    while path[q] != NUL
      invariant Holds(path[..], n) && base <= q <= n && path[..base] == old(path[..base])
      invariant Cleaning(path[base..q], path[q..n], keepDot, kept, last)
      decreases n, n - q
    {
      var more := true;
      n, q, more := CleanStep(path, base, q, n, ooo, keepDot, kept, last);
      if !more {
        return;
      }
    }
    assert q == n && Plain(path[q..n]);
    CleanedPlain(path[base..q], path[q..n], keepDot, kept, last);
    assert path[base..q] + path[q..n] == path[base..n];
  }
}
