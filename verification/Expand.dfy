/** Macro expansion (expand.c) against a table of macros with marks. */
module Expand {

  // The text may use `$$`, `$A`, `$(name)`, `${name}` and computed names.
  // Modifiers, functions, `<+ +>` and braces outside of macros are recognised
  // and reported as not modelled.

  /** An entry of the macro table: an entry with `expanded` (M_EXPANDED) holds
      its final value; `marked` is M_MARK. */
  datatype Macro = Macro(value: string, expanded: bool, marked: bool)

  type Table = map<string, Macro>

  datatype Outcome =
    | Text(s: string)
    | Circular(name: string)     // "Detected circular macro"
    | Syntax                     // any of the syntax errors
    | Stuck                      // Expand() goes on for ever at a carriage return
    | Unmodelled

  // ---- The macro use behind a `$` ----

  datatype Use = Blank | Dollar | Name(name: string, len: nat) | Malformed | Other

  /** A `<+` is looked for before everything else, also inside of names. */
  predicate Kludge(src: string, i: nat) {
    i + 1 < |src| && src[i] == '<' && src[i + 1] == '+'
  }

  /** Find the closing bracket. */
  function Close(src: string, i: nat, lev: nat, open: char, close: char): (u: Use)
    requires 1 <= i && lev >= 1
    ensures u.Name? ==> i < u.len <= |src| && |u.name| + 2 == u.len
    decreases |src| - i
  {
    if i >= |src| then Malformed
    else
      var c := src[i];
      if c == open then Close(src, i + 1, lev + 1, open, close)
      else if c == ':' && lev == 1 then Other
      else if c == '\n' then Malformed
      else if (c == '\\' && i + 1 < |src| && src[i + 1] == '\n') || Kludge(src, i) then Other
      else if (c == ' ' || c == '\t') && lev == 1 then Other
      else if c != close then Close(src, i + 1, lev, open, close)
      else if lev > 1 then Close(src, i + 1, lev - 1, open, close)
      else Name(src[1..i], i + 1)
  }

  function ScanUse(src: string): (u: Use)
    ensures u.Name? ==> 0 < u.len <= |src| && |u.name| <= u.len
    ensures u.Dollar? ==> src != ""
  {
    if src == "" || src[0] == ' ' || src[0] == '\t' then Blank
    else if src[0] == '$' then Dollar
    else if src[0] == '(' then Close(src, 1, 1, '(', ')')
    else if src[0] == '{' then Close(src, 1, 1, '{', '}')
    else if src[0] in {':', ')', '}', '\n'} then Malformed
    else if (src[0] == '\\' && |src| > 1 && src[1] == '\n') || Kludge(src, 0) then Other
    else Name(src[..1], 1)
  }

  /** A carriage return, or text that this model does not follow. */
  predicate Special(src: string)
    requires src != ""
  {
    src[0] in {'{', '}', '\r'} || Kludge(src, 0)
  }

  /** ScanToken() ends a token at a carriage return, but Expand() does not take
      it for white space between tokens: no turn of its loop gets beyond it. */
  function Obstacle(src: string): (o: Outcome)
    requires src != ""
    ensures o.Stuck? || o.Unmodelled?
  {
    if src[0] == '\r' then Stuck else Unmodelled
  }

  // ---- Expansion with marks ----

  function Seq(a: Outcome, b: Outcome): Outcome {
    if a.Text? && b.Text? then Text(a.s + b.s) else if a.Text? then b else a
  }

  /** Macros that can still be entered. */
  function Open(t: Table): set<string> {
    set m | m in t && !t[m].expanded && !t[m].marked
  }

  function Mark(t: Table, m: string): (r: Table)
    requires m in t && !t[m].expanded && !t[m].marked
    ensures Open(r) == Open(t) - {m} && |Open(r)| < |Open(t)|
  {
    var r := t[m := t[m].(marked := true)];
    assert Open(r) == Open(t) - {m} && m in Open(t);
    r
  }

  /** Only macros that are being expanded are marked. */
  ghost predicate Sound(t: Table) {
    forall m :: m in t && t[m].marked ==> !t[m].expanded
  }

  function Expansion(t: Table, src: string): Outcome
    decreases |Open(t)|, |src|, 0
  {
    if src == "" then Text("")
    else if src[0] == '$' then
      match ScanUse(src[1..])
      case Blank => Expansion(t, src[1..])
      case Dollar => Seq(Text("$"), Expansion(t, src[2..]))
      case Name(n, len) => Seq(Value(t, n), Expansion(t, src[1 + len..]))
      case Malformed => Syntax
      case Other => Unmodelled
    else if Special(src) then Obstacle(src)
    else Seq(Text(src[..1]), Expansion(t, src[1..]))
  }

  /** A name that has a `$` in it is expanded first. */
  function Value(t: Table, n: string): Outcome
    decreases |Open(t)|, |n|, 1
  {
    if '$' !in n then Lookup(t, n)
    else
      var o := Expansion(t, n);
      if o.Text? then Lookup(t, o.s) else o
  }

  function Lookup(t: Table, m: string): Outcome
    decreases |Open(t)|, 0, 0
  {
    if m !in t then Text("")
    else if t[m].marked then Circular(m)
    else if t[m].expanded then Text(t[m].value)
    else Expansion(Mark(t, m), t[m].value)
  }

  // ---- What the macro uses mean ----

  /** A character that is a macro name by itself. */
  predicate Letter(c: char) {
    c !in {' ', '\t', '\n', '$', '(', ')', '{', '}', ':', '\\', '<'}
  }

  /** `$A` is the value of A, `$$` is a dollar, and a `$` in front of white space
      is nothing. */
  lemma LetterUse(t: Table, a: char, rest: string)
    ensures Letter(a) ==> Expansion(t, "$" + [a] + rest) == Seq(Lookup(t, [a]), Expansion(t, rest))
    ensures a == '$' ==> Expansion(t, "$" + [a] + rest) == Seq(Text("$"), Expansion(t, rest))
    ensures a in {' ', '\t'} ==> Expansion(t, "$" + [a] + rest) == Expansion(t, [a] + rest)
  {
    var src := "$" + [a] + rest;
    assert src[1..] == [a] + rest && src[2..] == rest && src[1..][..1] == [a] && src[1..][0] == a;
  }

  predicate Brackets(open: char, close: char) {
    (open == '(' && close == ')') || (open == '{' && close == '}')
  }

  /** Only letters, and `$` of macros used in it. */
  predicate Letters(s: string) {
    forall i :: 0 <= i < |s| ==> Letter(s[i]) || s[i] == '$'
  }

  /** `$(name)` and `${name}` are the value of the name, which is expanded first
      if there is a `$` in it. */
  lemma BracketUse(t: Table, open: char, name: string, close: char, rest: string)
    requires Brackets(open, close) && Letters(name)
    ensures Expansion(t, "$" + [open] + name + [close] + rest) == Seq(Value(t, name), Expansion(t, rest))
    ensures '$' !in name ==> Value(t, name) == Lookup(t, name)
  {
    var use := [open] + name + [close] + rest;
    CloseSkips(use, 1, [open], name, [close] + rest, open, close);
    assert use[1..1 + |name|] == name;
    hide Expansion, Letters;
    UseAhead(t, open, name, close, rest, use);
  }

  /** Names in names: the closing bracket is the one that belongs to the first. */
  lemma NestedUse(t: Table, open: char, x: string, y: string, z: string, close: char, rest: string)
    requires Brackets(open, close) && Letters(x) && Letters(y) && Letters(z)
    ensures var name := x + [open] + y + [close] + z;
            Expansion(t, "$" + [open] + name + [close] + rest) == Seq(Value(t, name), Expansion(t, rest))
  {
    var name := x + [open] + y + [close] + z;
    var use := [open] + name + [close] + rest;
    hide *;
    NestedName(use, open, x, y, z, close, rest, name);
    UseAhead(t, open, name, close, rest, use);
  }

  lemma NestedName(use: string, open: char, x: string, y: string, z: string, close: char, rest: string, name: string)
    requires Brackets(open, close) && Letters(x) && Letters(y) && Letters(z)
    requires name == x + [open] + y + [close] + z && use == [open] + name + [close] + rest
    ensures ScanUse(use) == Name(name, |name| + 2)
  {
    hide Letters, Close;
    var a, b := |x| + 1, |x| + |y| + 2;
    NestedParts(use, open, x, y, z, close, rest, name);
    CloseSkips(use, 1, [open], x, [open] + y + [close] + z + [close] + rest, open, close);
    CloseSkips(use, 2, [open] + x + [open], y, [close] + z + [close] + rest, open, close);
    CloseSkips(use, 1, [open] + x + [open] + y + [close], z, [close] + rest, open, close);
    AtBracket(use, a, 1, open, close);
    AtBracket(use, b, 2, open, close);
    AtBracket(use, |name| + 1, 1, open, close);
  }

  lemma NestedParts(use: string, open: char, x: string, y: string, z: string, close: char, rest: string, name: string)
    requires name == x + [open] + y + [close] + z && use == [open] + name + [close] + rest
    ensures use == [open] + x + ([open] + y + [close] + z + [close] + rest)
    ensures use == ([open] + x + [open]) + y + ([close] + z + [close] + rest)
    ensures use == ([open] + x + [open] + y + [close]) + z + ([close] + rest)
    ensures use[1..1 + |name|] == name && use[0] == open && use[|name| + 1] == close
    ensures use[|x| + 1] == open && use[|x| + |y| + 2] == close
  {
    assert use == [open] + x + [open] + y + [close] + z + [close] + rest;
  }

  lemma AtBracket(use: string, i: nat, lev: nat, open: char, close: char)
    requires Brackets(open, close) && 1 <= i < |use| && lev >= 1
    ensures use[i] == open ==> Close(use, i, lev, open, close) == Close(use, i + 1, lev + 1, open, close)
    ensures use[i] == close && lev > 1 ==> Close(use, i, lev, open, close) == Close(use, i + 1, lev - 1, open, close)
    ensures use[i] == close && lev == 1 ==> Close(use, i, lev, open, close) == Name(use[1..i], i + 1)
  {
  }

  lemma UseAhead(t: Table, open: char, name: string, close: char, rest: string, use: string)
    requires use == [open] + name + [close] + rest && ScanUse(use) == Name(name, |name| + 2)
    ensures Expansion(t, "$" + [open] + name + [close] + rest) == Seq(Value(t, name), Expansion(t, rest))
  {
    hide ScanUse, Value;
    var src := "$" + [open] + name + [close] + rest;
    assert src[1..] == use && src[1 + |name| + 2..] == rest && src[0] == '$';
  }

  /** The search for the closing bracket passes over letters. */
  lemma {:induction false} CloseSkips(use: string, lev: nat, p: string, s: string, q: string, open: char, close: char)
    requires use == p + s + q && |p| >= 1 && lev >= 1 && Letters(s) && Brackets(open, close)
    ensures Close(use, |p|, lev, open, close) == Close(use, |p| + |s|, lev, open, close)
    decreases |s|
  {
    if s != "" {
      assert use[|p|] == s[0];
      assert use == (p + s[..1]) + s[1..] + q;
      CloseSkips(use, lev, p + s[..1], s[1..], q, open, close);
    }
  }

  /** The value of a macro: nothing if there is none, and the text itself if
      there is nothing to expand in it. */
  lemma PlainValue(t: Table, m: string)
    ensures m !in t ==> Lookup(t, m) == Text("")
    ensures m in t && !t[m].marked && (t[m].expanded || PlainText(t[m].value)) ==> Lookup(t, m) == Text(t[m].value)
    ensures m in t && t[m].marked ==> Lookup(t, m) == Circular(m)
  {
    if m in t && !t[m].marked && !t[m].expanded && PlainText(t[m].value) {
      PlainIsItself(Mark(t, m), t[m].value);
    }
  }

  predicate PlainText(s: string) {
    forall c :: c in s ==> c !in {'$', '{', '}', '\r', '<'}
  }

  lemma PlainRest(s: string)
    requires PlainText(s) && s != ""
    ensures PlainText(s[1..]) && s[0] !in {'$', '{', '}', '\r', '<'}
  {
    assert s[0] in s && forall c :: c in s[1..] ==> c in s;
  }

  lemma {:induction false} PlainIsItself(t: Table, s: string)
    requires PlainText(s)
    ensures Expansion(t, s) == Text(s)
  {
    if s != "" {
      PlainRest(s);
      PlainIsItself(t, s[1..]);
      assert s[..1] + s[1..] == s;
    }
  }

  /** Plain text in front stays as it is. */
  lemma {:induction false} PlainInFront(t: Table, s: string, rest: string)
    requires PlainText(s)
    ensures Expansion(t, s + rest) == Seq(Text(s), Expansion(t, rest))
  {
    if s == "" {
      assert s + rest == rest;
      ProgressNone(t, rest, 0);
      assert rest[0..] == rest;
    } else {
      assert (s + rest)[1..] == s[1..] + rest && (s + rest)[..1] == s[..1];
      PlainRest(s);
      PlainInFront(t, s[1..], rest);
      var o := Expansion(t, rest);
      if o.Text? {
        assert s[..1] + (s[1..] + o.s) == s + o.s;
      }
    }
  }

  // ---- Plain substitution ----

  /** The answer of a computation that may not have come to its end. */
  datatype Answer = Done(o: Outcome) | Unknown

  function Both(a: Answer, b: Answer): Answer {
    if a.Unknown? then a
    else if !a.o.Text? then a
    else if b.Unknown? then b
    else Done(Seq(a.o, b.o))
  }

  /** Substitution without marks, entering macros at most `depth` deep. */
  function Subst(depth: nat, t: Table, src: string): Answer
    decreases depth, |src|, 0
  {
    if src == "" then Done(Text(""))
    else if src[0] == '$' then
      match ScanUse(src[1..])
      case Blank => Subst(depth, t, src[1..])
      case Dollar => Both(Done(Text("$")), Subst(depth, t, src[2..]))
      case Name(n, len) => Both(SubstValue(depth, t, n), Subst(depth, t, src[1 + len..]))
      case Malformed => Done(Syntax)
      case Other => Done(Unmodelled)
    else if Special(src) then Done(Obstacle(src))
    else Both(Done(Text(src[..1])), Subst(depth, t, src[1..]))
  }

  function SubstValue(depth: nat, t: Table, n: string): Answer
    decreases depth, |n|, 1
  {
    if '$' !in n then SubstName(depth, t, n)
    else
      var a := Subst(depth, t, n);
      if a.Done? && a.o.Text? then SubstName(depth, t, a.o.s) else a
  }

  function SubstName(depth: nat, t: Table, m: string): Answer
    decreases depth, 0, 0
  {
    if m !in t then Done(Text(""))
    else if t[m].expanded then Done(Text(t[m].value))
    else if depth == 0 then Unknown
    else Subst(depth - 1, t, t[m].value)
  }

  // ---- The marks find exactly the expansions that have no end ----

  /** The same macros, apart from marks. */
  ghost predicate SameValues(t: Table, u: Table) {
    t.Keys == u.Keys && forall m :: m in t ==> t[m].value == u[m].value && t[m].expanded == u[m].expanded
  }

  /** More depth does not change an answer. */
  lemma {:induction false} Deeper(d: nat, e: nat, t: Table, src: string)
    requires d <= e && Subst(d, t, src).Done?
    ensures Subst(e, t, src) == Subst(d, t, src)
    decreases d, |src|, 0
  {
    hide ScanUse, Special, Obstacle;
    if src != "" && src[0] == '$' {
      match ScanUse(src[1..])
      case Blank => Deeper(d, e, t, src[1..]);
      case Dollar => Deeper(d, e, t, src[2..]);
      case Name(n, len) =>
        DeeperValue(d, e, t, n);
        if SubstValue(d, t, n).o.Text? {
          Deeper(d, e, t, src[1 + len..]);
        }
      case _ =>
    } else if src != "" && !Special(src) {
      Deeper(d, e, t, src[1..]);
    }
  }

  lemma {:induction false} DeeperValue(d: nat, e: nat, t: Table, n: string)
    requires d <= e && SubstValue(d, t, n).Done?
    ensures SubstValue(e, t, n) == SubstValue(d, t, n)
    decreases d, |n|, 1
  {
    if '$' !in n {
      DeeperName(d, e, t, n);
    } else {
      Deeper(d, e, t, n);
      if Subst(d, t, n).o.Text? {
        DeeperName(d, e, t, Subst(d, t, n).o.s);
      }
    }
  }

  lemma {:induction false} DeeperName(d: nat, e: nat, t: Table, m: string)
    requires d <= e && SubstName(d, t, m).Done?
    ensures SubstName(e, t, m) == SubstName(d, t, m)
    decreases d, 0, 0
  {
    if m in t && !t[m].expanded {
      Deeper(d - 1, e - 1, t, t[m].value);
    }
  }

  /** Substitution does not look at marks. */
  lemma {:induction false} MarksDoNotMatter(d: nat, t: Table, u: Table, src: string)
    requires SameValues(t, u)
    ensures Subst(d, t, src) == Subst(d, u, src)
    decreases d, |src|, 0
  {
    hide ScanUse, Special, Obstacle;
    if src != "" && src[0] == '$' {
      match ScanUse(src[1..])
      case Blank => MarksDoNotMatter(d, t, u, src[1..]);
      case Dollar => MarksDoNotMatter(d, t, u, src[2..]);
      case Name(n, len) =>
        if '$' !in n {
          NameWithoutMarks(d, t, u, n);
        } else {
          MarksDoNotMatter(d, t, u, n);
          if Subst(d, t, n).Done? && Subst(d, t, n).o.Text? {
            NameWithoutMarks(d, t, u, Subst(d, t, n).o.s);
          }
        }
        MarksDoNotMatter(d, t, u, src[1 + len..]);
      case _ =>
    } else if src != "" && !Special(src) {
      MarksDoNotMatter(d, t, u, src[1..]);
    }
  }

  lemma {:induction false} NameWithoutMarks(d: nat, t: Table, u: Table, m: string)
    requires SameValues(t, u)
    ensures SubstName(d, t, m) == SubstName(d, u, m)
    decreases d, 0, 0
  {
    if m in t && !t[m].expanded && d > 0 {
      MarksDoNotMatter(d - 1, t, u, t[m].value);
    }
  }

  function Max(a: nat, b: nat): nat {
    if a < b then b else a
  }

  /** An expansion that is not circular is what plain substitution yields, deep
      enough. */
  lemma {:induction false} Answered(t: Table, src: string) returns (d: nat)
    requires !Expansion(t, src).Circular?
    ensures Subst(d, t, src) == Done(Expansion(t, src))
    decreases |Open(t)|, |src|, 0
  {
    hide ScanUse, Special, Obstacle;
    d := 0;
    if src != "" && src[0] == '$' {
      match ScanUse(src[1..])
      case Blank => d := Answered(t, src[1..]);
      case Dollar => d := Answered(t, src[2..]);
      case Name(n, len) =>
        var a := AnsweredValue(t, n);
        d := a;
        if Value(t, n).Text? {
          var b := Answered(t, src[1 + len..]);
          d := Max(a, b);
          DeeperValue(a, d, t, n);
          Deeper(b, d, t, src[1 + len..]);
        }
      case _ =>
    } else if src != "" && !Special(src) {
      d := Answered(t, src[1..]);
    }
  }

  lemma {:induction false} AnsweredValue(t: Table, n: string) returns (d: nat)
    requires !Value(t, n).Circular?
    ensures SubstValue(d, t, n) == Done(Value(t, n))
    decreases |Open(t)|, |n|, 1
  {
    if '$' !in n {
      d := AnsweredName(t, n);
    } else {
      var a := Answered(t, n);
      d := a;
      if Expansion(t, n).Text? {
        var m := Expansion(t, n).s;
        var b := AnsweredName(t, m);
        d := Max(a, b);
        Deeper(a, d, t, n);
        DeeperName(b, d, t, m);
      }
    }
  }

  lemma {:induction false} AnsweredName(t: Table, m: string) returns (d: nat)
    requires !Lookup(t, m).Circular?
    ensures SubstName(d, t, m) == Done(Lookup(t, m))
    decreases |Open(t)|, 0, 0
  {
    d := 0;
    if m in t && !t[m].expanded {
      var e := Answered(Mark(t, m), t[m].value);
      MarksDoNotMatter(e, Mark(t, m), t, t[m].value);
      d := e + 1;
    }
  }

  /** An expansion that runs into a circle needs the value of the macro in
      question: to answer with a certain depth, plain substitution must expand
      that value with less. */
  lemma {:induction false} NeedsCircle(t: Table, src: string, d: nat)
    requires Expansion(t, src).Circular? && Subst(d, t, src).Done? && Sound(t)
    ensures var m := Expansion(t, src).name; m in t && !t[m].expanded && d > 0 && Subst(d - 1, t, t[m].value).Done?
    decreases |Open(t)|, |src|, 0
  {
    hide ScanUse, Special, Obstacle;
    if src[0] == '$' {
      match ScanUse(src[1..])
      case Blank => NeedsCircle(t, src[1..], d);
      case Dollar => NeedsCircle(t, src[2..], d);
      case Name(n, len) =>
        if Value(t, n).Circular? {
          ValueNeedsCircle(t, n, d);
        } else {
          var e := AnsweredValue(t, n);
          SameAnswer(e, d, t, n);
          NeedsCircle(t, src[1 + len..], d);
        }
    } else {
      NeedsCircle(t, src[1..], d);
    }
  }

  /** Two answers of plain substitution agree. */
  lemma SameAnswer(d: nat, e: nat, t: Table, n: string)
    requires SubstValue(d, t, n).Done? && SubstValue(e, t, n).Done?
    ensures SubstValue(d, t, n) == SubstValue(e, t, n)
  {
    if d <= e {
      DeeperValue(d, e, t, n);
    } else {
      DeeperValue(e, d, t, n);
    }
  }

  lemma {:induction false} ValueNeedsCircle(t: Table, n: string, d: nat)
    requires Value(t, n).Circular? && SubstValue(d, t, n).Done? && Sound(t)
    ensures var m := Value(t, n).name; m in t && !t[m].expanded && d > 0 && Subst(d - 1, t, t[m].value).Done?
    decreases |Open(t)|, |n|, 1
  {
    if '$' !in n {
      NameNeedsCircle(t, n, d);
    } else if Expansion(t, n).Circular? {
      NeedsCircle(t, n, d);
    } else {
      var e := Answered(t, n);
      Deeper(e, Max(d, e), t, n);
      Deeper(d, Max(d, e), t, n);
      NameNeedsCircle(t, Expansion(t, n).s, d);
    }
  }

  lemma {:induction false} NameNeedsCircle(t: Table, k: string, d: nat)
    requires Lookup(t, k).Circular? && SubstName(d, t, k).Done? && Sound(t)
    ensures var m := Lookup(t, k).name; m in t && !t[m].expanded && d > 0 && Subst(d - 1, t, t[m].value).Done?
    decreases |Open(t)|, 0, 0
  {
    if !t[k].marked {
      var u := Mark(t, k);
      MarksDoNotMatter(d - 1, u, t, t[k].value);
      NeedsCircle(u, t[k].value, d - 1);
      var m := Lookup(t, k).name;
      MarksDoNotMatter(d - 2, u, t, t[m].value);
      Deeper(d - 2, d - 1, t, t[m].value);
    }
  }

  /** When the circle does not go through a macro that was marked before, plain
      substitution has no answer at any depth. */
  lemma {:induction false} NoAnswer(t: Table, src: string, d: nat)
    requires Sound(t) && Expansion(t, src).Circular?
    requires var m := Expansion(t, src).name; m in t ==> !t[m].marked
    ensures Subst(d, t, src).Unknown?
    decreases |Open(t)|, |src|, 0
  {
    hide ScanUse, Special, Obstacle;
    if src[0] == '$' {
      match ScanUse(src[1..])
      case Blank => NoAnswer(t, src[1..], d);
      case Dollar => NoAnswer(t, src[2..], d);
      case Name(n, len) =>
        if Value(t, n).Circular? {
          NoValue(t, n, d);
        } else {
          NoAnswer(t, src[1 + len..], d);
          if SubstValue(d, t, n).Done? {
            var e := AnsweredValue(t, n);
            SameAnswer(e, d, t, n);
          }
        }
    } else {
      NoAnswer(t, src[1..], d);
    }
  }

  lemma {:induction false} NoValue(t: Table, n: string, d: nat)
    requires Sound(t) && Value(t, n).Circular?
    requires var m := Value(t, n).name; m in t ==> !t[m].marked
    ensures SubstValue(d, t, n).Unknown?
    decreases |Open(t)|, |n|, 1
  {
    if '$' !in n {
      NoName(t, n, d);
    } else if Expansion(t, n).Circular? {
      NoAnswer(t, n, d);
    } else {
      NoName(t, Expansion(t, n).s, d);
      if Subst(d, t, n).Done? {
        var e := Answered(t, n);
        Deeper(e, Max(d, e), t, n);
        Deeper(d, Max(d, e), t, n);
      }
    }
  }

  lemma {:induction false} NoName(t: Table, k: string, d: nat)
    requires Sound(t) && Lookup(t, k).Circular?
    requires var m := Lookup(t, k).name; m in t ==> !t[m].marked
    ensures SubstName(d, t, k).Unknown?
    decreases |Open(t)|, 0, 0
  {
    if d > 0 {
      var u := Mark(t, k);
      MarksDoNotMatter(d - 1, u, t, t[k].value);
      if Lookup(t, k).name == k {
        Descends(u, k, d - 1);
      } else {
        NoAnswer(u, t[k].value, d - 1);
      }
    }
  }

  /** A value that needs itself has no answer. */
  lemma {:induction false} Descends(u: Table, k: string, d: nat)
    requires Sound(u) && k in u && Expansion(u, u[k].value) == Circular(k)
    ensures Subst(d, u, u[k].value).Unknown?
    decreases d
  {
    if Subst(d, u, u[k].value).Done? {
      NeedsCircle(u, u[k].value, d);
      Descends(u, k, d - 1);
    }
  }

  ghost predicate Unmarked(t: Table) {
    forall m :: m in t ==> !t[m].marked
  }

  /** Expansion stops with the message about a circular macro exactly when plain
      substitution goes on for ever; otherwise it yields what plain substitution
      yields. */
  lemma CircularIsEndless(t: Table, src: string)
    requires Unmarked(t)
    ensures Expansion(t, src).Circular? <==> forall d: nat :: Subst(d, t, src).Unknown?
    ensures !Expansion(t, src).Circular? ==>
              forall d: nat :: Subst(d, t, src).Unknown? || Subst(d, t, src) == Done(Expansion(t, src))
  {
    if Expansion(t, src).Circular? {
      forall d: nat ensures Subst(d, t, src).Unknown? {
        NoAnswer(t, src, d);
      }
    } else {
      var e := Answered(t, src);
      forall d: nat | Subst(d, t, src).Done? ensures Subst(d, t, src) == Done(Expansion(t, src)) {
        Deeper(d, Max(d, e), t, src);
        Deeper(e, Max(d, e), t, src);
      }
    }
  }

  // ---- Expansion gets stuck at carriage returns only ----

  /** How far the next element of a text reaches, and 0 if it has no value. */
  function Next(t: Table, src: string): nat
    requires src != ""
  {
    if src[0] == '$' then
      match ScanUse(src[1..])
      case Blank => 1
      case Dollar => 2
      case Name(n, len) => if Value(t, n).Text? then 1 + len else 0
      case _ => 0
    else if Special(src) then 0 else 1
  }

  /** Expansion gets to position `i`, element by element. */
  ghost predicate Comes(t: Table, src: string, i: nat)
    decreases |src|
  {
    i == 0 || (src != "" && 0 < Next(t, src) <= i && Next(t, src) <= |src| && Comes(t, src[Next(t, src)..], i - Next(t, src)))
  }

  /** Here is a carriage return, or a macro use whose name or value gets stuck. */
  ghost predicate StuckAt(t: Table, src: string) {
    src != "" &&
    if src[0] == '$' then ScanUse(src[1..]).Name? && Value(t, ScanUse(src[1..]).name).Stuck? else src[0] == '\r'
  }

  ghost predicate ComesToStop(t: Table, src: string) {
    exists i: nat :: i <= |src| && Comes(t, src, i) && StuckAt(t, src[i..])
  }

  /** Expand() goes on for ever exactly when it comes to a carriage return
      outside of macro names, in the text or in a name or value in it. */
  lemma {:induction false} StuckExactly(t: Table, src: string)
    ensures Expansion(t, src).Stuck? <==> ComesToStop(t, src)
    decreases |src|
  {
    assert src[0..] == src && Comes(t, src, 0);
    if src == "" {
      return;
    }
    var k := Next(t, src);
    StopsHereOrLater(t, src, k);
    if k > 0 {
      StuckExactly(t, src[k..]);
      StuckFollows(t, src, k);
    } else {
      StuckNow(t, src);
    }
  }

  lemma StopsHereOrLater(t: Table, src: string, k: nat)
    requires src != "" && k == Next(t, src)
    ensures k <= |src|
    ensures ComesToStop(t, src) <==> StuckAt(t, src) || (k > 0 && ComesToStop(t, src[k..]))
  {
    hide StuckAt, Value;
    assert src[0..] == src && Comes(t, src, 0);
    if ComesToStop(t, src) {
      var i: nat :| i <= |src| && Comes(t, src, i) && StuckAt(t, src[i..]);
      if i > 0 {
        assert src[k..][i - k..] == src[i..];
      }
    }
    if k > 0 && ComesToStop(t, src[k..]) {
      var i: nat :| i <= |src[k..]| && Comes(t, src[k..], i) && StuckAt(t, src[k..][i..]);
      assert src[k..][i..] == src[k + i..] && Comes(t, src, k + i);
    }
  }

  lemma StuckFollows(t: Table, src: string, k: nat)
    requires src != "" && 0 < k == Next(t, src) <= |src|
    ensures !StuckAt(t, src) && (Expansion(t, src).Stuck? <==> Expansion(t, src[k..]).Stuck?)
  {
    hide Value;
  }

  lemma StuckNow(t: Table, src: string)
    requires src != "" && Next(t, src) == 0
    ensures Expansion(t, src).Stuck? <==> StuckAt(t, src)
  {
    hide Value;
  }

  /** ... where names and values are expanded in turn. */
  lemma ValueStuck(t: Table, n: string)
    ensures '$' !in n ==> (Value(t, n).Stuck? <==> Lookup(t, n).Stuck?)
    ensures '$' in n ==>
              (Value(t, n).Stuck? <==>
                ComesToStop(t, n) || (Expansion(t, n).Text? && Lookup(t, Expansion(t, n).s).Stuck?))
    ensures Lookup(t, n).Stuck? <==>
              n in t && !t[n].marked && !t[n].expanded && ComesToStop(Mark(t, n), t[n].value)
  {
    hide ComesToStop, Expansion;
    StuckExactly(t, n);
    if n in t && !t[n].marked && !t[n].expanded {
      StuckExactly(Mark(t, n), t[n].value);
    }
  }

  /** No carriage return in the text, nor in any value that is expanded. */
  ghost predicate NoReturns(t: Table, src: string) {
    '\r' !in src && forall m :: m in t && !t[m].expanded ==> '\r' !in t[m].value
  }

  /** That is enough for Expand() to end. */
  lemma {:induction false} NeverStuck(t: Table, src: string)
    requires NoReturns(t, src)
    ensures !Expansion(t, src).Stuck?
    decreases |Open(t)|, |src|, 0
  {
    if src != "" {
      if src[0] == '$' {
        var u := ScanUse(src[1..]);
        if u.Name? {
          NameIsPart(src[1..]);
          NeverStuckValue(t, u.name);
          NeverStuck(t, src[1 + u.len..]);
        } else if u.Blank? {
          NeverStuck(t, src[1..]);
        } else if u.Dollar? {
          NeverStuck(t, src[2..]);
        }
      } else if !Special(src) {
        NeverStuck(t, src[1..]);
      }
    }
  }

  lemma {:induction false} NeverStuckValue(t: Table, n: string)
    requires NoReturns(t, n)
    ensures !Value(t, n).Stuck?
    decreases |Open(t)|, |n|, 1
  {
    var m := n;
    if '$' in n {
      NeverStuck(t, n);
      var o := Expansion(t, n);
      if !o.Text? {
        return;
      }
      m := o.s;
    }
    if m in t && !t[m].marked && !t[m].expanded {
      NeverStuck(Mark(t, m), t[m].value);
    }
  }

  /** A macro name is part of the text. */
  lemma {:induction false} ClosedName(src: string, i: nat, lev: nat, open: char, close: char)
    requires 1 <= i && lev >= 1
    ensures var u := Close(src, i, lev, open, close); u.Name? ==> u.len <= |src| && u.name == src[1..u.len - 1]
    decreases |src| - i
  {
    if i < |src| {
      ClosedName(src, i + 1, lev, open, close);
      ClosedName(src, i + 1, lev + 1, open, close);
      if lev > 1 {
        ClosedName(src, i + 1, lev - 1, open, close);
      }
    }
  }

  lemma NameIsPart(src: string)
    ensures var u := ScanUse(src); u.Name? ==> forall c :: c in u.name ==> c in src
  {
    ClosedName(src, 1, 1, '(', ')');
    ClosedName(src, 1, 1, '{', '}');
  }

  // ---- Expansion as it is written ----

  /** Find the end of the macro name at the start of `src`, behind a `$`. */
  method ScanName(src: string) returns (u: Use)
    ensures u == ScanUse(src)
  {
    if src == "" || src[0] == ' ' || src[0] == '\t' {
      return Blank;
    }
    if src[0] == '$' {
      return Dollar;
    }
    var sdelim := src[0];
    var edelim := if sdelim == '(' then ')' else '}';
    var s, lev, bflag := 0, 0, false;
    while true
      invariant s <= |src| && (lev == 0 ==> s == 0 && !bflag) && (lev > 0 ==> s >= 1 && bflag && sdelim in {'(', '{'})
      invariant lev > 0 ==> ScanUse(src) == Close(src, s, lev, sdelim, edelim)
      decreases |src| - s
    {
      if s == |src| {
        return Malformed;
      }
      var c, done := src[s], false;
      if Kludge(src, s) {
        return Other;
      }
      if c == '(' || c == '{' {
        if c == sdelim {
          lev, bflag := lev + 1, true;
        }
      } else if c == ':' {
        if lev == 1 {
          return Other;
        }
        if lev == 0 {
          return Malformed;
        }
      } else if c == '\n' {
        return Malformed;
      } else if c == '\\' {
        if s + 1 < |src| && src[s + 1] == '\n' {
          return Other;
        }
        done := lev == 0;
      } else if c == ' ' || c == '\t' {
        if lev == 1 {
          return Other;
        }
      } else if c == ')' || c == '}' {
        if lev == 0 {
          return Malformed;
        }
        if c == edelim {
          lev := lev - 1;
        }
        done := lev == 0;
      } else {
        done := lev == 0;
      }
      s := s + 1;
      if done {
        return Name(if bflag then src[1..s - 1] else src[..s], s);
      }
    }
  }

  /** What is left to do when the first `pos` characters are done. */
  ghost predicate Progress(t: Table, src: string, from: nat, o: Outcome, pos: nat)
    requires from <= |src|
  {
    && from <= pos <= |src|
    && (o.Text? ==> Expansion(t, src[from..]) == Seq(o, Expansion(t, src[pos..])))
    && (!o.Text? ==> Expansion(t, src[from..]) == o)
  }

  lemma ProgressNone(t: Table, src: string, from: nat)
    requires from <= |src|
    ensures Progress(t, src, from, Text(""), from)
  {
    var o := Expansion(t, src[from..]);
    if o.Text? {
      assert "" + o.s == o.s;
    }
  }

  lemma ProgressBoth(t: Table, src: string, from: nat, a: Outcome, mid: nat, b: Outcome, pos: nat)
    requires from <= mid <= |src| && a.Text? && Progress(t, src, from, a, mid) && Progress(t, src, mid, b, pos)
    ensures Progress(t, src, from, Seq(a, b), pos)
  {
    var o := Expansion(t, src[pos..]);
    if b.Text? && o.Text? {
      assert a.s + (b.s + o.s) == (a.s + b.s) + o.s;
    }
  }

  lemma ProgressPlain(t: Table, src: string, from: nat)
    requires from < |src| && src[from] != '$' && !Special(src[from..])
    ensures Progress(t, src, from, Text(src[from..from + 1]), from + 1)
  {
    assert src[from..][1..] == src[from + 1..] && src[from..][..1] == src[from..from + 1];
  }

  class Expander {
    var macros: Table
    var implicit: set<string>     // names defined, without a value, by being used

    constructor (table: Table)
      ensures macros == table && implicit == {}
    {
      macros, implicit := table, {};
    }

    /** Expand(): white space is copied, tokens are scanned.  When a turn of the
        loop ends as it began, the next one would do so too, and so on. */
    method Expand(src: string) returns (o: Outcome)
      requires Sound(macros)
      modifies this
      ensures o == Expansion(old(macros), src)
      ensures o.Text? ==> macros == old(macros)
      decreases |Open(macros)|, |src|, 3
    {
      ghost var t := macros;
      var res, pos := "", 0;
      assert src[0..] == src;
      ProgressNone(t, src, 0);
      while pos < |src|
        invariant macros == t && Progress(t, src, 0, Text(res), pos)
        decreases |src| - pos
      {
        var before := pos;
        o, pos := Turn(src, res, pos);
        if !o.Text? {
          return;
        }
        if pos == before {
          return Stuck;
        }
        res := o.s;
      }
      assert src[pos..] == "" && res + "" == res;
      o := Text(res);
    }

    /** One turn of the loop: at a carriage return it changes nothing. */
    method Turn(src: string, res: string, pos: nat) returns (o: Outcome, next: nat)
      requires pos < |src| && Sound(macros) && Progress(macros, src, 0, Text(res), pos)
      modifies this
      ensures Progress(old(macros), src, 0, o, next) && (o.Text? ==> macros == old(macros))
      ensures src[pos] == '\r' ==> o == Text(res) && next == pos
      ensures src[pos] != '\r' && o.Text? ==> next > pos
      decreases |Open(macros)|, |src|, 2
    {
      ghost var t := macros;
      if src[pos] in {' ', '\t', '\n'} {
        ProgressPlain(t, src, pos);
        ProgressBoth(t, src, 0, Text(res), pos, Text(src[pos..pos + 1]), pos + 1);
        return Text(res + src[pos..pos + 1]), pos + 1;
      }
      var tok;
      tok, next := ScanToken(src, pos);
      ProgressBoth(t, src, 0, Text(res), pos, tok, next);
      o := if tok.Text? then Text(res + tok.s) else tok;
    }

    /** ScanToken(): up to white space; macros in it are expanded. */
    method ScanToken(src: string, from: nat) returns (o: Outcome, pos: nat)
      requires from < |src| && src[from] !in {' ', '\t', '\n'} && Sound(macros)
      modifies this
      ensures Progress(old(macros), src, from, o, pos) && (o.Text? ==> macros == old(macros))
      ensures if src[from] == '\r' then o == Text("") && pos == from else o.Text? ==> pos > from
      decreases |Open(macros)|, |src|, 1
    {
      ghost var t := macros;
      var res := "";
      pos := from;
      ProgressNone(t, src, from);
      while pos < |src| && src[pos] !in {' ', '\t', '\n', '\r'}
        invariant macros == t && Progress(t, src, from, Text(res), pos) && (pos == from ==> res == "")
        invariant src[from] == '\r' ==> pos == from
        decreases |src| - pos
      {
        if src[pos] == '$' {
          var m, next := ScanMacro(src, pos + 1);
          ProgressBoth(t, src, from, Text(res), pos, m, next);
          if !m.Text? {
            return m, next;
          }
          res, pos := res + m.s, next;
        } else if Special(src[pos..]) {
          ProgressBoth(t, src, from, Text(res), pos, Unmodelled, pos);
          return Unmodelled, pos;
        } else {
          ProgressPlain(t, src, pos);
          ProgressBoth(t, src, from, Text(res), pos, Text(src[pos..pos + 1]), pos + 1);
          res, pos := res + src[pos..pos + 1], pos + 1;
        }
      }
      o := Text(res);
    }

    /** _scan_macro(): the macro use at `pos`, behind a `$`. */
    method ScanMacro(src: string, pos: nat) returns (o: Outcome, next: nat)
      requires 1 <= pos <= |src| && src[pos - 1] == '$' && Sound(macros)
      modifies this
      ensures Progress(old(macros), src, pos - 1, o, next) && (o.Text? ==> next >= pos && macros == old(macros))
      decreases |Open(macros)|, |src|, 0
    {
      ghost var t := macros;
      var rest := src[pos..];
      assert src[pos - 1..][0] == '$' && src[pos - 1..][1..] == rest;
      var u := ScanName(rest);
      match u
      case Blank =>
        ProgressNone(t, src, pos);
        return Text(""), pos;
      case Dollar =>
        assert src[pos - 1..][2..] == src[pos + 1..];
        return Text("$"), pos + 1;
      case Malformed => return Syntax, pos;
      case Other => return Unmodelled, pos;
      case Name(n, len) =>
        next := pos + len;
        assert src[pos - 1..][1 + len..] == src[next..];
        var name := n;
        if '$' in n {
          var e := Expand(n);
          if !e.Text? {
            return e, next;
          }
          name := e.s;
        }
        o := Evaluate(name);
    }

    /** The value of a macro, marked while it is being expanded. */
    method Evaluate(m: string) returns (o: Outcome)
      requires Sound(macros)
      modifies this
      ensures o == Lookup(old(macros), m) && (o.Text? ==> macros == old(macros))
      decreases |Open(macros)|, 0, 0
    {
      ghost var t := macros;
      if m in macros {
        if macros[m].marked {
          return Circular(m);
        }
        if !macros[m].expanded {
          ghost var u := Mark(t, m);
          macros := macros[m := macros[m].(marked := true)];
          o := Expand(macros[m].value);
          if o.Text? {
            macros := macros[m := macros[m].(marked := false)];
            assert macros == t;
          }
        } else {
          o := Text(macros[m].value);
        }
      } else {
        implicit := implicit + {m};
        o := Text("");
      }
    }
  }
}
