/** parse_complex_expression() of getinp.c. */
module Condition {

  // The value of the condition of an .IF line with `&&`, `||` and parentheses.
  // The comparison of a single term (partcomp()) is a parameter.

  datatype Op = NoOp | AndOp | OrOp

  /** A condition as it is read: text between operators and parentheses is one
      token. */
  datatype Token = Term(text: string) | And | Or | Open | Close

  // ---- Conditions as trees ----

  datatype Item = Word(text: string) | Group(e: Expr)

  /** What stands between two operators: normally one item. */
  datatype Operand = Only(item: Item) | More(item: Item, rest: Operand)

  datatype Expr = Last(o: Operand) | Chain(o: Operand, op: Op, rest: Expr)

  ghost predicate Proper(e: Expr) {
    match e
    case Last(o) => ProperOperand(o)
    case Chain(o, op, rest) => ProperOperand(o) && op != NoOp && Proper(rest)
  }

  ghost predicate ProperOperand(o: Operand) {
    match o
    case Only(i) => ProperItem(i)
    case More(i, rest) => ProperItem(i) && ProperOperand(rest)
  }

  ghost predicate ProperItem(i: Item) {
    i.Group? ==> Proper(i.e)
  }

  function OpToken(op: Op): seq<Token> {
    match op
    case NoOp => []
    case AndOp => [And]
    case OrOp => [Or]
  }

  function Flatten(e: Expr): seq<Token> {
    match e
    case Last(o) => FlattenOperand(o)
    case Chain(o, op, rest) => FlattenOperand(o) + OpToken(op) + Flatten(rest)
  }

  function FlattenOperand(o: Operand): seq<Token> {
    match o
    case Only(i) => FlattenItem(i)
    case More(i, rest) => FlattenItem(i) + FlattenOperand(rest)
  }

  function FlattenItem(i: Item): seq<Token> {
    match i
    case Word(text) => [Term(text)]
    case Group(e) => [Open] + Flatten(e) + [Close]
  }

  // ---- Their value ----

  function Combine(op: Op, a: bool, b: bool): bool {
    match op
    case NoOp => b
    case AndOp => a && b
    case OrOp => a || b
  }

  /** Operators are applied from left to right, with equal rank. */
  function Continue(part: string -> bool, a: bool, op: Op, e: Expr): bool
    decreases e, 0
  {
    var v := OperandValue(part, e.o, "");
    var both := match op
      case NoOp => v
      case AndOp => a && v
      case OrOp => a || v;
    match e
    case Last(_) => both
    case Chain(_, next, rest) => Continue(part, both, next, rest)
  }

  function Value(part: string -> bool, e: Expr): bool
    decreases e, 1
  {
    Continue(part, true, NoOp, e)
  }

  /** A parenthesis counts only when no text follows it, and text only from the
      last parenthesis on. */
  function OperandValue(part: string -> bool, o: Operand, text: string): bool
    decreases o, 1
  {
    match o
    case Only(Word(t)) => part(text + t)
    case Only(Group(e)) => Value(part, e)
    case More(Word(t), rest) => OperandValue(part, rest, text + t)
    case More(Group(_), rest) => OperandValue(part, rest, "")
  }

  // ---- Reading ----

  /** What is still to be read of an expression: perhaps a part of an operand,
      perhaps an operator and more operands. */
  datatype Rest = Rest(items: seq<Item>, op: Op, tail: seq<Expr>)

  ghost function FlattenItems(items: seq<Item>): seq<Token> {
    if items == [] then [] else FlattenItem(items[0]) + FlattenItems(items[1..])
  }

  ghost function Items(o: Operand): (r: seq<Item>)
    ensures r != []
  {
    match o
    case Only(i) => [i]
    case More(i, rest) => [i] + Items(rest)
  }

  /** The value of an operand of which `items` are still to be read; `text` has
      been collected, and `value` is what there is without them. */
  ghost function ItemsValue(part: string -> bool, items: seq<Item>, text: string, value: bool): bool {
    if items == [] then value
    else
      match items[0]
      case Word(t) => ItemsValue(part, items[1..], text + t, part(text + t))
      case Group(e) => ItemsValue(part, items[1..], "", Value(part, e))
  }

  lemma {:induction false} ItemsAre(part: string -> bool, o: Operand, text: string, value: bool)
    ensures FlattenItems(Items(o)) == FlattenOperand(o)
    ensures ItemsValue(part, Items(o), text, value) == OperandValue(part, o, text)
  {
    match o
    case Only(i) =>
      assert [i][1..] == [];
    case More(i, rest) =>
      assert ([i] + Items(rest))[1..] == Items(rest);
      match i
      case Word(t) => ItemsAre(part, rest, text + t, part(text + t));
      case Group(e) => ItemsAre(part, rest, "", Value(part, e));
  }

  lemma {:induction false} ItemsProper(o: Operand)
    requires ProperOperand(o)
    ensures forall i :: 0 <= i < |Items(o)| ==> ProperItem(Items(o)[i])
  {
    if o.More? {
      ItemsProper(o.rest);
    }
  }

  /** Everything that follows the items. */
  ghost function FlattenTail(op: Op, tail: seq<Expr>): seq<Token> {
    if tail == [] then [] else OpToken(op) + Flatten(tail[0])
  }

  ghost function TailValue(part: string -> bool, a: bool, op: Op, tail: seq<Expr>): bool {
    if tail == [] then a else Continue(part, a, op, tail[0])
  }

  ghost predicate ProperTail(op: Op, tail: seq<Expr>) {
    |tail| <= 1 && (tail != [] ==> op != NoOp && Proper(tail[0]))
  }

  /** An expression as an operand and the rest. */
  lemma Opened(part: string -> bool, e: Expr, a: bool, op: Op)
    returns (items: seq<Item>, next: Op, tail: seq<Expr>)
    requires Proper(e)
    ensures items != [] && ProperTail(next, tail) && forall i :: 0 <= i < |items| ==> ProperItem(items[i])
    ensures Flatten(e) == FlattenItems(items) + FlattenTail(next, tail)
    ensures forall value :: Continue(part, a, op, e) == TailValue(part, Combine(op, a, ItemsValue(part, items, "", value)), next, tail)
  {
    ItemsProper(e.o);
    forall value ensures ItemsValue(part, Items(e.o), "", value) == OperandValue(part, e.o, "") {
      ItemsAre(part, e.o, "", value);
    }
    ItemsAre(part, e.o, "", true);
    items := Items(e.o);
    match e
    case Last(o) => next, tail := NoOp, [];
    case Chain(o, op2, rest) => next, tail := op2, [rest];
  }

  /** What is ahead at position `p`. */
  ghost predicate Ahead(toks: seq<Token>, p: nat, items: seq<Item>, op: Op, tail: seq<Expr>, rest: seq<Token>) {
    && p <= |toks| && toks[p..] == FlattenItems(items) + (FlattenTail(op, tail) + rest)
    && ProperTail(op, tail) && (rest == [] || rest[0] == Close)
    && forall i :: 0 <= i < |items| ==> ProperItem(items[i])
  }

  // ---- Any text at all ----

  /** An operator, the end of a parenthesis, or the end of the line. */
  predicate AtOperator(toks: seq<Token>, p: nat) {
    p >= |toks| || toks[p] in {And, Or, Close}
  }

  /** What is read from position `p` on, and where reading stops: `text` has been
      collected, and `result` is to be combined by `lastOp`. */
  function Read(part: string -> bool, toks: seq<Token>, p: nat, lastOp: Op, result: bool, text: string): (r: (bool, nat))
    requires p <= |toks|
    ensures p <= r.1 <= |toks|
    decreases |toks| - p, 1
  {
    if p < |toks| && toks[p] == Open then
      var (term, q) := Read(part, toks, p + 1, NoOp, true, "");
      if AtOperator(toks, q) then Operate(part, toks, q, lastOp, Combine(lastOp, result, term))
      else Read(part, toks, q, lastOp, result, "")
    else if AtOperator(toks, p) then Operate(part, toks, p, lastOp, Combine(lastOp, result, part(text)))
    else Read(part, toks, p + 1, lastOp, result, text + toks[p].text)
  }

  /** ... and from an operator on.  One in front of a closing parenthesis is
      passed over. */
  function Operate(part: string -> bool, toks: seq<Token>, p: nat, lastOp: Op, result: bool): (r: (bool, nat))
    requires p <= |toks| && AtOperator(toks, p)
    ensures p <= r.1 <= |toks|
    decreases |toks| - p, 0
  {
    if p == |toks| then (result, p)
    else
      var last := if toks[p] == And then AndOp else if toks[p] == Or then OrOp else lastOp;
      var q := if toks[p] == Close then p else p + 1;
      if q < |toks| && toks[q] == Close then (result, q + 1) else Read(part, toks, q, last, result, "")
  }

  /** parse_complex_expression() from position `start`. */
  method ParseComplex(part: string -> bool, toks: seq<Token>, start: nat) returns (result: bool, end: nat)
    requires start <= |toks|
    ensures (result, end) == Read(part, toks, start, NoOp, true, "")
    decreases |toks| - start
  {
    result := true;
    var p, lastOp, text, termResult := start, NoOp, "", false;
    while true
      invariant start <= p <= |toks|
      invariant Read(part, toks, start, NoOp, true, "") == Read(part, toks, p, lastOp, result, text)
      decreases |toks| - p
    {
      var localTerm := true;
      if p < |toks| && toks[p] == Open {
        termResult, p := ParseComplex(part, toks, p + 1);
        text, localTerm := "", false;
      }
      if p == |toks| || toks[p] == And || toks[p] == Or || toks[p] == Close {
        if localTerm {
          termResult := part(text);
        }
        result := Combine(lastOp, result, termResult);
        if p == |toks| {
          return result, p;
        }
        if toks[p] == And {
          lastOp := AndOp;
        } else if toks[p] == Or {
          lastOp := OrOp;
        }
        if toks[p] != Close {
          p := p + 1;
        }
        text := "";
        if p < |toks| && toks[p] == Close {
          return result, p + 1;
        }
      } else if localTerm {
        text := text + toks[p].text;
        p := p + 1;
      }
    }
  }

  // ---- Reading is evaluating ----

  /** What is read where a tree is ahead: its value `v`, up to the end or the
      closing parenthesis. */
  ghost predicate Reads(r: (bool, nat), toks: seq<Token>, rest: seq<Token>, v: bool) {
    r.0 == v && r.1 <= |toks| && toks[r.1..] == if rest == [] then [] else rest[1..]
  }

  /** For every proper tree whose tokens are there, up to the end or a closing
      parenthesis, the result is its value. */
  lemma ReadIsValue(part: string -> bool, toks: seq<Token>, start: nat, e: Expr, rest: seq<Token>)
    requires start <= |toks| && Proper(e) && toks[start..] == Flatten(e) + rest && (rest == [] || rest[0] == Close)
    ensures Reads(Read(part, toks, start, NoOp, true, ""), toks, rest, Value(part, e))
    decreases |toks| - start, 2
  {
    hide *;
    var items, op, tail := Begin(part, toks, start, e, rest);
    ReadItems(part, toks, start, NoOp, true, "", items, op, tail, rest, Value(part, e));
  }

  lemma {:induction false} ReadItems(part: string -> bool, toks: seq<Token>, p: nat, lastOp: Op, result: bool, text: string,
                                     items: seq<Item>, op: Op, tail: seq<Expr>, rest: seq<Token>, v: bool)
    requires Ahead(toks, p, items, op, tail, rest) && Owes(part, v, lastOp, result, items, text, op, tail) && p <= |toks|
    ensures Reads(Read(part, toks, p, lastOp, result, text), toks, rest, v)
    decreases |toks| - p, 1
  {
    hide FlattenItems, FlattenTail, TailValue, ItemsValue, Continue, Value, Flatten, ProperTail, Proper, Ahead, ProperItem, Owes, Combine;
    hide Operate;
    if items == [] {
      AtEnd(part, toks, p, op, tail, rest, Combine(lastOp, result, part(text)));
      OwesText(part, v, lastOp, result, text, op, tail);
      AtEndIsOperator(toks, p, op, tail, rest);
      OperateTail(part, toks, p, lastOp, Combine(lastOp, result, part(text)), op, tail, rest, v);
      return;
    }
    AtItem(toks, p, items, op, tail, rest);
    if items[0].Word? {
      OwesWord(part, v, lastOp, result, items, text, op, tail);
      ReadItems(part, toks, p + 1, lastOp, result, text + items[0].text, items[1..], op, tail, rest, v);
      return;
    }
    var after := [Close] + (FlattenItems(items[1..]) + (FlattenTail(op, tail) + rest));
    ReadIsValue(part, toks, p + 1, items[0].e, after);
    var (term, q) := Read(part, toks, p + 1, NoOp, true, "");
    AfterGroup(toks, q, items, op, tail, rest, after);
    OwesGroup(part, v, lastOp, result, items, text, op, tail);
    if |items| == 1 {
      AtEndIsOperator(toks, q, op, tail, rest);
      OperateTail(part, toks, q, lastOp, Combine(lastOp, result, term), op, tail, rest, v);
    } else {
      AtItem(toks, q, items[1..], op, tail, rest);
      ReadItems(part, toks, q, lastOp, result, "", items[1..], op, tail, rest, v);
    }
  }

  lemma AtEndIsOperator(toks: seq<Token>, p: nat, op: Op, tail: seq<Expr>, rest: seq<Token>)
    requires Ahead(toks, p, [], op, tail, rest)
    ensures AtOperator(toks, p)
  {
    hide Ahead, FlattenTail, TailValue, Flatten, ProperTail;
    AtEnd(_ => true, toks, p, op, tail, rest, true);
  }

  lemma {:induction false} OperateTail(part: string -> bool, toks: seq<Token>, p: nat, lastOp: Op, result: bool,
                                       op: Op, tail: seq<Expr>, rest: seq<Token>, v: bool)
    requires Ahead(toks, p, [], op, tail, rest) && v == TailValue(part, result, op, tail) && p <= |toks| && AtOperator(toks, p)
    ensures Reads(Operate(part, toks, p, lastOp, result), toks, rest, v)
    decreases |toks| - p, 0
  {
    hide FlattenItems, FlattenTail, TailValue, ItemsValue, Continue, Flatten, Proper, Ahead, Owes, Read, ProperTail;
    AtEnd(part, toks, p, op, tail, rest, result);
    if tail != [] {
      var last := if toks[p] == And then AndOp else OrOp;
      var items, next, more := NextOperand(part, toks, p + 1, result, last, op, tail, rest);
      ReadItems(part, toks, p + 1, last, result, "", items, next, more, rest, v);
    }
  }

  /** Two terms and an operator. */
  lemma TwoTerms(part: string -> bool, a: string, b: string)
    ensures Read(part, [Term(a), And, Term(b)], 0, NoOp, true, "") == (part(a) && part(b), 3)
    ensures Read(part, [Term(a), Or, Term(b)], 0, NoOp, true, "") == (part(a) || part(b), 3)
  {
    assert "" + a == a && "" + b == b;
    var x, y := [Term(a), And, Term(b)], [Term(a), Or, Term(b)];
    assert Read(part, x, 3, AndOp, part(a), b) == (part(a) && part(b), 3);
    assert Read(part, x, 2, AndOp, part(a), "") == (part(a) && part(b), 3);
    assert Read(part, x, 1, NoOp, true, a) == (part(a) && part(b), 3);
    assert Read(part, y, 3, OrOp, part(a), b) == (part(a) || part(b), 3);
    assert Read(part, y, 2, OrOp, part(a), "") == (part(a) || part(b), 3);
    assert Read(part, y, 1, NoOp, true, a) == (part(a) || part(b), 3);
  }

  /** What is not a proper tree is read all the same: an operator in front of a
      closing parenthesis is passed over, and the end of the line closes every
      parenthesis. */
  lemma NoComplaints(part: string -> bool, a: string, b: string, op: Op)
    requires op != NoOp
    ensures Read(part, [Open, Term(a)] + OpToken(op) + [Close], 0, NoOp, true, "") == (part(a), 4)
    ensures Read(part, [Open, Term(a)] + OpToken(op) + [Term(b)], 0, NoOp, true, "") == (if op == AndOp then part(a) && part(b) else part(a) || part(b), 4)
    ensures Read(part, [Term(a), Close, Term(b)], 0, NoOp, true, "") == (part(a), 2)
  {
    assert "" + a == a && "" + b == b;
    var o := OpToken(op)[0];
    var x, y, z := [Open, Term(a), o, Close], [Open, Term(a), o, Term(b)], [Term(a), Close, Term(b)];
    assert [Open, Term(a)] + OpToken(op) + [Close] == x && [Open, Term(a)] + OpToken(op) + [Term(b)] == y;
    assert Read(part, x, 2, NoOp, true, a) == (part(a), 4);
    assert Read(part, x, 1, NoOp, true, "") == (part(a), 4);
    assert Read(part, y, 4, op, part(a), b) == (Combine(op, part(a), part(b)), 4);
    assert Read(part, y, 3, op, part(a), "") == (Combine(op, part(a), part(b)), 4);
    assert Read(part, y, 2, NoOp, true, a) == (Combine(op, part(a), part(b)), 4);
    assert Read(part, y, 1, NoOp, true, "") == (Combine(op, part(a), part(b)), 4);
    assert Read(part, z, 1, NoOp, true, a) == (part(a), 2);
  }

  /** The value `v` of the whole expression, in terms of what is ahead. */
  ghost predicate Owes(part: string -> bool, v: bool, lastOp: Op, result: bool, items: seq<Item>, text: string, op: Op, tail: seq<Expr>) {
    v == TailValue(part, Combine(lastOp, result, ItemsValue(part, items, text, part(text))), op, tail)
  }

  lemma OwesWord(part: string -> bool, v: bool, lastOp: Op, result: bool, items: seq<Item>, text: string, op: Op, tail: seq<Expr>)
    requires items != [] && items[0].Word? && Owes(part, v, lastOp, result, items, text, op, tail)
    ensures Owes(part, v, lastOp, result, items[1..], text + items[0].text, op, tail)
  {
  }

  lemma OwesGroup(part: string -> bool, v: bool, lastOp: Op, result: bool, items: seq<Item>, text: string, op: Op, tail: seq<Expr>)
    requires items != [] && items[0].Group? && Owes(part, v, lastOp, result, items, text, op, tail)
    ensures |items| > 1 ==> Owes(part, v, lastOp, result, items[1..], "", op, tail)
    ensures |items| == 1 ==> v == TailValue(part, Combine(lastOp, result, Value(part, items[0].e)), op, tail)
  {
    hide TailValue, Combine, Value;
    ItemsIgnore(part, items[1..], "", Value(part, items[0].e), part(""));
  }

  /** Where text is still to be read, what there is does not matter. */
  lemma ItemsIgnore(part: string -> bool, items: seq<Item>, text: string, v: bool, w: bool)
    ensures items != [] ==> ItemsValue(part, items, text, v) == ItemsValue(part, items, text, w)
    ensures items == [] ==> ItemsValue(part, items, text, v) == v
  {
  }

  lemma OwesText(part: string -> bool, v: bool, lastOp: Op, result: bool, text: string, op: Op, tail: seq<Expr>)
    requires Owes(part, v, lastOp, result, [], text, op, tail)
    ensures v == TailValue(part, Combine(lastOp, result, part(text)), op, tail)
  {
  }

  /** Which token comes next when the operand is read ... */
  lemma AtEnd(part: string -> bool, toks: seq<Token>, p: nat, op: Op, tail: seq<Expr>, rest: seq<Token>, a: bool)
    requires Ahead(toks, p, [], op, tail, rest)
    ensures tail == [] ==> (p == |toks| <==> rest == []) && (p < |toks| ==> toks[p] == Close && toks[p + 1..] == rest[1..])
    ensures tail == [] ==> TailValue(part, a, op, tail) == a
    ensures tail != [] ==> p < |toks| && [toks[p]] == OpToken(op) && op != NoOp && toks[p + 1..] == Flatten(tail[0]) + rest
    ensures ProperTail(op, tail) && (rest == [] || rest[0] == Close)
  {
    hide Flatten, Continue, Proper;
    var after := toks[p..];
    assert after == FlattenTail(op, tail) + rest;
    if tail == [] {
      assert after == rest;
    } else {
      assert after == OpToken(op) + (Flatten(tail[0]) + rest);
      assert after[1..] == Flatten(tail[0]) + rest;
    }
    if after != [] {
      assert toks[p + 1..] == after[1..] && toks[p] == after[0];
    }
  }

  /** ... and when there are items left. */
  lemma AtItem(toks: seq<Token>, p: nat, items: seq<Item>, op: Op, tail: seq<Expr>, rest: seq<Token>)
    requires Ahead(toks, p, items, op, tail, rest) && items != []
    ensures p < |toks| && toks[p] !in {And, Or, Close}
    ensures items[0].Group? ==>
              toks[p] == Open && Proper(items[0].e)
              && toks[p + 1..] == Flatten(items[0].e) + ([Close] + (FlattenItems(items[1..]) + (FlattenTail(op, tail) + rest)))
    ensures items[0].Word? ==> toks[p] == Term(items[0].text) && Ahead(toks, p + 1, items[1..], op, tail, rest)
    ensures ProperTail(op, tail) && (rest == [] || rest[0] == Close)
    ensures forall i :: 0 <= i < |items[1..]| ==> ProperItem(items[1..][i])
  {
    hide Flatten, FlattenTail, ProperTail, Proper;
    var after := FlattenItems(items[1..]) + (FlattenTail(op, tail) + rest);
    assert ProperItem(items[0]);
    assert toks[p..] == FlattenItem(items[0]) + after;
    assert toks[p] == toks[p..][0] && toks[p + 1..] == toks[p..][1..];
    match items[0]
    case Word(t) => assert toks[p + 1..] == after;
    case Group(e) => assert toks[p + 1..] == Flatten(e) + ([Close] + after);
  }

  lemma AfterGroup(toks: seq<Token>, p: nat, items: seq<Item>, op: Op, tail: seq<Expr>, rest: seq<Token>, after: seq<Token>)
    requires p <= |toks| && items != [] && ProperTail(op, tail) && (rest == [] || rest[0] == Close)
    requires forall i :: 0 <= i < |items[1..]| ==> ProperItem(items[1..][i])
    requires after == [Close] + (FlattenItems(items[1..]) + (FlattenTail(op, tail) + rest)) && toks[p..] == after[1..]
    ensures Ahead(toks, p, items[1..], op, tail, rest)
  {
  }

  lemma Begin(part: string -> bool, toks: seq<Token>, start: nat, e: Expr, rest: seq<Token>)
    returns (items: seq<Item>, op: Op, tail: seq<Expr>)
    requires start <= |toks| && Proper(e) && toks[start..] == Flatten(e) + rest && (rest == [] || rest[0] == Close)
    ensures Ahead(toks, start, items, op, tail, rest)
    ensures Owes(part, Value(part, e), NoOp, true, items, "", op, tail)
  {
    items, op, tail := Opened(part, e, true, NoOp);
    assert Flatten(e) + rest == FlattenItems(items) + (FlattenTail(op, tail) + rest);
  }

  /** Behind an operator. */
  lemma NextOperand(part: string -> bool, toks: seq<Token>, p: nat, a: bool, now: Op, op: Op, tail: seq<Expr>, rest: seq<Token>)
    returns (items: seq<Item>, next: Op, more: seq<Expr>)
    requires p <= |toks| && ProperTail(op, tail) && tail != [] && now == op
    requires toks[p..] == Flatten(tail[0]) + rest && (rest == [] || rest[0] == Close)
    ensures Ahead(toks, p, items, next, more, rest) && items != []
    ensures Owes(part, TailValue(part, a, op, tail), now, a, items, "", next, more)
    ensures p < |toks| && toks[p] != Close
  {
    hide FlattenItems, FlattenTail, ItemsValue, Continue, Flatten, Proper;
    items, next, more := Opened(part, tail[0], a, now);
    assert Flatten(tail[0]) + rest == FlattenItems(items) + (FlattenTail(next, more) + rest);
    AtItem(toks, p, items, next, more, rest);
  }
}
