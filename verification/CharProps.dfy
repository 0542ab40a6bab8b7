/** unicode_prop_ops: a set expression in postfix form, evaluated on a stack of four sets. */
module CharProps {
  import Lists
  import opened Bytes
  import opened CharSet
  import opened CharAlgebra
  import opened CharRanges

  /** The kinds of sets read from the Unicode tables. */
  datatype Kind = GeneralCategory | Property | CaseMask

  /** The list of endpoints a table holds for an argument. */
  type Tables = (Kind, u32) -> seq<u32>

  datatype Instr = Push(kind: Kind, arg: u32) | Apply(op: SetOp) | Complement

  datatype SetExpr = Table(kind: Kind, arg: u32) | Bin(op: SetOp, l: SetExpr, r: SetExpr) | Not(e: SetExpr)

  const StackMax := 4

  /** Membership in the set an expression stands for. */
  predicate Denotes(tab: Tables, e: SetExpr, c: int) {
    match e
    case Table(k, a) => InPoints(tab(k, a), c)
    case Bin(op, l, r) => Combine(op, Denotes(tab, l, c), Denotes(tab, r, c))
    case Not(f) => 0 <= c < UINT32_MAX && !Denotes(tab, f, c)
  }

  /** The same set, put together by set operations; the complement is taken below UINT32_MAX. */
  ghost function SetOf(tab: Tables, e: SetExpr): iset<int> {
    match e
    case Table(k, a) => Members(tab(k, a))
    case Bin(Union, l, r) => SetOf(tab, l) + SetOf(tab, r)
    case Bin(Inter, l, r) => SetOf(tab, l) * SetOf(tab, r)
    case Bin(Xor, l, r) => (SetOf(tab, l) - SetOf(tab, r)) + (SetOf(tab, r) - SetOf(tab, l))
    case Not(f) => Members([0, 0xffff_ffff]) - SetOf(tab, f)
  }

  lemma {:induction false} DenotesSet(tab: Tables, e: SetExpr, c: int)
    ensures Denotes(tab, e, c) <==> c in SetOf(tab, e)
  {
    hide InPoints;
    match e
    case Table(k, a) =>
    case Bin(op, l, r) => DenotesSet(tab, l, c); DenotesSet(tab, r, c);
    case Not(f) =>
      DenotesSet(tab, f, c);
      OneInterval(c);
  }

  lemma OneInterval(c: int)
    ensures c in Members([0, 0xffff_ffff]) <==> 0 <= c < 0xffff_ffff
  {
    var p: seq<int> := [0, 0xffff_ffff];
    assert !InPoints(p[2..], c);
  }

  function Postfix(e: SetExpr): seq<Instr> {
    match e
    case Table(k, a) => [Push(k, a)]
    case Bin(op, l, r) => Postfix(l) + (Postfix(r) + [Apply(op)])
    case Not(f) => Postfix(f) + [Complement]
  }

  /** Stack slots needed: a binary operation builds its result beside its operands. */
  function Slots(e: SetExpr): nat {
    match e
    case Table(_, _) => 1
    case Bin(_, l, r) => Max(3, Max(Slots(l), 1 + Slots(r)))
    case Not(f) => Slots(f)
  }

  function Max(a: nat, b: nat): nat { if a < b then b else a }

  datatype Parsed = Expr(e: SetExpr) | Bad
  datatype Stepped = Stack(es: seq<SetExpr>) | Abort

  /** The effect of an instruction on a stack of expressions; Abort where an assertion of the
      evaluator fails. */
  function StepExprs(i: Instr, es: seq<SetExpr>): Stepped {
    var n := |es|;
    match i
    case Push(k, a) => if n < StackMax then Stack(es + [Table(k, a)]) else Abort
    case Apply(op) => if 2 <= n < StackMax then Stack(es[..n - 2] + [Bin(op, es[n - 2], es[n - 1])]) else Abort
    case Complement => if n >= 1 then Stack(es[..n - 1] + [Not(es[n - 1])]) else Abort
  }

  /** The expression a program computes from a stack of expressions. */
  function Parse(prog: seq<Instr>, es: seq<SetExpr>): Parsed {
    if prog == [] then (if |es| == 1 then Expr(es[0]) else Bad)
    else match StepExprs(prog[0], es) case Stack(es') => Parse(prog[1..], es') case Abort => Bad
  }

  /** A postfix program pushes its expression, provided the stack has room for it. */
  lemma {:induction false} ParsePostfix(e: SetExpr, rest: seq<Instr>, stack: seq<SetExpr>)
    requires |stack| <= StackMax
    ensures Parse(Postfix(e) + rest, stack) ==
            if |stack| + Slots(e) <= StackMax then Parse(rest, stack + [e]) else Bad
    decreases e
  {
    hide Parse;
    match e
    case Table(k, a) => ParseStep(Push(k, a), rest, stack);
    case Bin(op, l, r) =>
      ThreeParts(Postfix(l), Postfix(r), Apply(op), rest);
      ParsePostfix(l, Postfix(r) + ([Apply(op)] + rest), stack);
      if |stack| + Slots(l) <= StackMax {
        SomeSlot(l);
        ParsePostfix(r, [Apply(op)] + rest, stack + [l]);
        ParseStep(Apply(op), rest, stack + [l] + [r]);
        TopTwo(stack, l, r);
      }
    case Not(f) =>
      Lists.Assoc(Postfix(f), [Complement], rest);
      ParsePostfix(f, [Complement] + rest, stack);
      ParseStep(Complement, rest, stack + [f]);
      Lists.LastAppend(stack, f);
  }

  lemma ParseStep(i: Instr, rest: seq<Instr>, es: seq<SetExpr>)
    ensures Parse([i] + rest, es) == match StepExprs(i, es) case Stack(es') => Parse(rest, es') case Abort => Bad
  {
    assert ([i] + rest)[1..] == rest;
  }

  lemma ThreeParts(a: seq<Instr>, b: seq<Instr>, i: Instr, rest: seq<Instr>)
    ensures a + (b + [i]) + rest == a + (b + ([i] + rest))
  {
  }

  lemma TopTwo(stack: seq<SetExpr>, l: SetExpr, r: SetExpr)
    ensures var s2 := stack + [l] + [r];
      |s2| == |stack| + 2 && s2[..|s2| - 2] == stack && s2[|s2| - 2] == l && s2[|s2| - 1] == r
  {
  }

  lemma {:induction false} SomeSlot(e: SetExpr)
    ensures Slots(e) >= 1
  {
    if e.Not? { SomeSlot(e.e); }
  }

  /** The programs that evaluate without failing are the postfix forms of the expressions that
      need at most four slots. */
  lemma ProgramsAreExpressions(prog: seq<Instr>, e: SetExpr)
    ensures Parse(prog, []) == Expr(e) <==> prog == Postfix(e) && Slots(e) <= StackMax
  {
    if prog == Postfix(e) {
      ParsePostfix(e, [], []);
      assert Postfix(e) + [] == Postfix(e) && [] + [e] == [e];
    }
    if Parse(prog, []) == Expr(e) {
      ParseSound(prog, [], e);
      assert [] + prog == prog;
    }
  }

  function PostfixAll(stack: seq<SetExpr>): seq<Instr> {
    if stack == [] then [] else PostfixAll(stack[..|stack| - 1]) + Postfix(stack[|stack| - 1])
  }

  lemma PostfixLast(stack: seq<SetExpr>, e: SetExpr)
    ensures PostfixAll(stack + [e]) == PostfixAll(stack) + Postfix(e)
  {
    assert (stack + [e])[..|stack|] == stack;
  }

  lemma StepPostfix(i: Instr, es: seq<SetExpr>)
    requires StepExprs(i, es).Stack?
    ensures PostfixAll(StepExprs(i, es).es) == PostfixAll(es) + [i]
  {
    hide PostfixAll;
    var n := |es|;
    match i
    case Push(k, a) => PostfixLast(es, Table(k, a));
    case Apply(op) =>
      var low, l, r := es[..n - 2], es[n - 2], es[n - 1];
      assert es == low + [l] + [r];
      PostfixLast(low, Bin(op, l, r));
      PostfixLast(low + [l], r);
      PostfixLast(low, l);
    case Complement =>
      var low, f := es[..n - 1], es[n - 1];
      assert es == low + [f];
      PostfixLast(low, Not(f));
      PostfixLast(low, f);
  }

  lemma {:induction false} ParseSound(prog: seq<Instr>, es: seq<SetExpr>, e: SetExpr)
    requires Parse(prog, es) == Expr(e)
    ensures PostfixAll(es) + prog == Postfix(e)
    decreases |prog|
  {
    hide StepExprs, Postfix;
    if prog == [] {
      PostfixLast([], e);
      assert es == [] + [e] && PostfixAll([]) == [];
    } else {
      StepPostfix(prog[0], es);
      ParseSound(prog[1..], StepExprs(prog[0], es).es, e);
      assert prog == [prog[0]] + prog[1..];
    }
  }

  /** The set on a stack slot stands for an expression. */
  ghost predicate Holds(tab: Tables, e: SetExpr, pts: seq<u32>) {
    Sorted(pts) && (!e.Table? ==> Canonical(pts)) && forall c :: InPoints(pts, c) == Denotes(tab, e, c)
  }

  /** Every slot has storage of its own and holds the set of its expression. */
  ghost predicate Stacked(tab: Tables, es: seq<SetExpr>, stack: seq<CharRange>)
    reads stack, set s | s in stack :: s.points
  {
    && |es| == |stack|
    && (forall i, j | 0 <= i < j < |stack| :: stack[i] != stack[j] && stack[i].points != stack[j].points)
    && (forall i | 0 <= i < |stack| :: stack[i].Valid() && Holds(tab, es[i], stack[i].Contents()))
  }

  /** A set read from a table. */
  method FromTable(pts: seq<u32>) returns (c: CharRange)
    ensures fresh(c) && c.Valid() && fresh(c.points) && c.Contents() == pts
  {
    c := new CharRange();
    for i := 0 to |pts|
      invariant fresh(c) && c.Valid() && fresh(c.points) && c.Contents() == pts[..i]
    {
      c.AddPoint(pts[i]);
      assert pts[..i + 1] == pts[..i] + [pts[i]];
    }
    assert pts[..|pts|] == pts;
  }

  lemma OpHolds(tab: Tables, op: SetOp, l: SetExpr, r: SetExpr, p: seq<u32>, q: seq<u32>, s: seq<u32>)
    requires Holds(tab, l, p) && Holds(tab, r, q) && IsOp(op, p, q, s)
    ensures Holds(tab, Bin(op, l, r), s)
  {
  }

  lemma ComplementHolds(tab: Tables, e: SetExpr, p: seq<u32>, s: seq<u32>)
    requires Holds(tab, e, p) && IsComplement(p, s)
    ensures Holds(tab, Not(e), s)
  {
  }

  lemma HoldsSorted(tab: Tables, e: SetExpr, p: seq<u32>)
    requires Holds(tab, e, p)
    ensures Sorted(p)
  {
  }

  method PushTable(k: Kind, a: u32, tab: Tables, stack: seq<CharRange>, ghost es: seq<SetExpr>)
      returns (stack': seq<CharRange>)
    requires Stacked(tab, es, stack) && |es| < StackMax && Sorted(tab(k, a))
    ensures Stacked(tab, StepExprs(Push(k, a), es).es, stack')
    ensures forall s | s in stack' ::
        (s in stack || fresh(s))
        && (fresh(s.points) || (s in stack && s.points == old(s.points)))
  {
    hide Holds, Sorted;
    var top := FromTable(tab(k, a));
    TableHolds(tab, k, a);
    stack' := stack + [top];
  }

  method ApplyOp(op: SetOp, tab: Tables, stack: seq<CharRange>, ghost es: seq<SetExpr>) returns (stack': seq<CharRange>)
    requires Stacked(tab, es, stack) && 2 <= |es| < StackMax
    ensures Stacked(tab, StepExprs(Apply(op), es).es, stack')
    ensures forall s | s in stack' ::
        (s in stack || fresh(s))
        && (fresh(s.points) || (s in stack && s.points == old(s.points)))
  {
    hide Holds, IsOp, Sorted;
    var n := |stack|;
    var top := new CharRange();
    var cr1, cr2 := stack[n - 2], stack[n - 1];
    ghost var p, q := cr1.Contents(), cr2.Contents();
    HoldsSorted(tab, es[n - 2], p);
    HoldsSorted(tab, es[n - 1], q);
    top.Op(cr1.points, cr1.len, cr2.points, cr2.len, op);
    OpHolds(tab, op, es[n - 2], es[n - 1], p, q, top.Contents());
    stack' := stack[..n - 2] + [top];
  }

  method ComplementTop(tab: Tables, stack: seq<CharRange>, ghost es: seq<SetExpr>)
    requires Stacked(tab, es, stack) && |es| >= 1
    modifies stack[|stack| - 1], stack[|stack| - 1].points
    ensures Stacked(tab, StepExprs(Complement, es).es, stack)
    ensures forall s | s in stack :: fresh(s.points) || s.points == old(s.points)
  {
    hide Holds, IsComplement, Sorted;
    var n := |stack|;
    var top := stack[n - 1];
    ghost var p := top.Contents();
    HoldsSorted(tab, es[n - 1], p);
    top.Invert();
    ComplementHolds(tab, es[n - 1], p, top.Contents());
  }

  /** One instruction of unicode_prop_ops, on a stack that holds the sets of es. */
  method StepSets(i: Instr, tab: Tables, stack: seq<CharRange>, ghost es: seq<SetExpr>)
    returns (ok: bool, stack': seq<CharRange>)
    requires Stacked(tab, es, stack) && forall k, a :: Sorted(tab(k, a))
    modifies stack, set s | s in stack :: s.points
    ensures ok == StepExprs(i, es).Stack?
    ensures ok ==> Stacked(tab, StepExprs(i, es).es, stack')
    ensures ok ==> forall s | s in stack' ::
        (s in stack || fresh(s))
        && (fresh(s.points) || (s in stack && s.points == old(s.points)))
  {
    hide Holds, Sorted;
    var n := |stack|;
    stack' := stack;
    ok := true;
    match i {
      case Push(k, a) =>
        if n >= StackMax { return false, stack; }
        stack' := PushTable(k, a, tab, stack, es);
      case Apply(op) =>
        if n < 2 || n >= StackMax { return false, stack; }
        stack' := ApplyOp(op, tab, stack, es);
      case Complement =>
        if n < 1 { return false, stack; }
        ComplementTop(tab, stack, es);
    }
  }

  lemma TableHolds(tab: Tables, k: Kind, a: u32)
    requires Sorted(tab(k, a))
    ensures Holds(tab, Table(k, a), tab(k, a))
  {
  }

  /** unicode_prop_ops: fails where an assertion of the source does, and otherwise leaves in cr
      the set of the expression. */
  method PropOps(cr: CharRange, prog: seq<Instr>, tab: Tables) returns (ok: bool)
    requires cr.Valid() && forall k, a :: Sorted(tab(k, a))
    modifies cr, cr.points
    ensures cr.Valid()
    ensures match Parse(prog, [])
      case Bad => !ok
      case Expr(e) => ok && Holds(tab, e, cr.Contents())
  {
    hide Holds, StepExprs;
    var stack: seq<CharRange> := [];
    ghost var es: seq<SetExpr> := [];
    ghost var pts := cr.points;
    for i := 0 to |prog|
      invariant cr.Valid() && cr.points == pts
      invariant Stacked(tab, es, stack)
      invariant forall s | s in stack :: fresh(s) && fresh(s.points)
      invariant Parse(prog[i..], es) == Parse(prog, [])
    {
      assert prog[i..][1..] == prog[i + 1..];
      ok, stack := StepSets(prog[i], tab, stack, es);
      if !ok { return; }
      es := StepExprs(prog[i], es).es;
    }
    if |stack| != 1 { return false; }
    cr.Copy(stack[0]);
    ok := true;
  }
}
