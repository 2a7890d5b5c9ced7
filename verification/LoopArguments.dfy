/** When a loop as an argument leaves the caller's variables alone. */
module LoopArguments {
  import opened Wrappers
  import opened Ast
  import opened Eval
  import opened PendingTargets
  import R = MachineRefines
  import M = Machine

  /** The machine agrees with the evaluator on the program, under all operators and from all stores. */
  ghost predicate Agrees(e: Expr) {
    forall ops: Ops, s: Store, v: Value, work: map<Name, Cell>, glob: map<Name, Cell> :: s.tmps == [map[]] ==>
      (R.Halts(ops, e, s, v, work, glob) <==> R.Evaluates(ops, e, s, v, work, glob))
  }

  /** Arguments whose loops all have bodies that end in assigning to the argument's name. */
  lemma LoopArgumentsKept(h: Expr, args: seq<Arg>)
    requires M.AtomOk(h) && SettledArgs(args)
    ensures Agrees(Call(h, args))
  {
    var e := Call(h, args);
    assert Settled(None, e);
    hide Settled;
    forall ops: Ops, s: Store, v: Value, work: map<Name, Cell>, glob: map<Name, Cell> | s.tmps == [map[]]
      ensures R.Halts(ops, e, s, v, work, glob) <==> R.Evaluates(ops, e, s, v, work, glob)
    {
      R.SettledRefines(ops, e, s, v, work, glob);
    }
  }

  // ----- A world in which everything has a value -----

  /** Operators that are always defined; one value alone reads as true. */
  function Steps(t: Value): Ops {
    Ops((op, a) => Some(VNull), (op, a, b) => Some(VNull), (b, vs) => Some(VNull), v => Some(v == t), (k, e) => VNull)
  }

  const G := VBuiltin("g")

  function Globals(names: set<Name>): map<Name, Cell> {
    map x | x in names :: Val(G)
  }

  /** A value that is not the true one; functions are all the same one. */
  predicate Tame(v: Value, t: Value) {
    v != t && (v.VBuiltin? ==> v == G)
  }

  ghost predicate Rich(s: Store, names: set<Name>, t: Value) {
    && s.glob == Globals(names) && s.tmps != []
    && forall x :: x in s.work ==> s.work[x].Val? && Tame(s.work[x].v, t)
  }

  /** Expressions that have a value in that world: no jumps, requests or generated names, and no literal that is true. */
  predicate Plain(e: Expr, t: Value)
    decreases e, 1
  {
    match e
    case Lit(v) => v != t && !v.VBuiltin?
    case Sym(x) => x.User?
    case Unop(_, a) => Plain(a, t)
    case Binop(_, l, r) => Plain(l, t) && Plain(r, t)
    case Block(es) => es != [] && PlainSeq(es, t)
    case While(c, b) => Plain(c, t) && Plain(b, t)
    case IfElse(c, a, b) => Plain(c, t) && Plain(a, t) && Plain(b, t)
    case Assign(x, a) => x.User? && Plain(a, t)
    case Call(h, args) => h.Sym? && h.x.User? && PlainArgs(args, t)
    case _ => false
  }

  predicate PlainSeq(es: seq<Expr>, t: Value)
    decreases es, 0
  {
    es == [] || (Plain(es[0], t) && PlainSeq(es[1..], t))
  }

  predicate PlainArgs(args: seq<Arg>, t: Value)
    decreases args, 0
  {
    args == [] || (Plain(args[0].e, t) && PlainArgs(args[1..], t))
  }

  ghost predicate TotalRes(r: Res, names: set<Name>, t: Value) {
    r.Ok? && Tame(r.v, t) && Rich(r.s, names, t)
  }

  lemma FoundTame(s: Store, names: set<Name>, t: Value, x: Name)
    requires Rich(s, names, t) && t.VNum? && x in names && x.User?
    ensures Find(s, x).Some? && Find(s, x).value.Val? && Tame(Find(s, x).value.v, t)
    ensures FindFunction(s, x) == Some("g")
  {}

  lemma {:induction false} TotalEv(fuel: nat, e: Expr, s: Store, names: set<Name>, t: Value)
    requires t.VNum? && Plain(e, t) && Mentions(e) <= names && User("g") in names && Rich(s, names, t)
    ensures TotalRes(Ev(Steps(t), fuel, e, s), names, t)
    decreases e, 1
  {
    match e
    case Lit(_) =>
    case Sym(x) => FoundTame(s, names, t, x);
    case Unop(_, a) => TotalEv(fuel, a, s, names, t);
    case Binop(_, l, r) =>
      TotalEv(fuel, l, s, names, t);
      TotalEv(fuel, r, Ev(Steps(t), fuel, l, s).s, names, t);
    case Block(es) => TotalSeq(fuel, es, s, names, t);
    case While(c, b) =>
      TotalEv(fuel, c, Push(s), names, t);
    case IfElse(c, a, b) =>
      TotalEv(fuel, c, s, names, t);
      TotalEv(fuel, b, Ev(Steps(t), fuel, c, s).s, names, t);
    case Assign(x, a) => TotalEv(fuel, a, s, names, t);
    case Call(h, args) =>
      assert h.x in Mentions(h);
      FoundTame(s, names, t, h.x);
      TotalArgs(fuel, args, s, names, t);
      FoundTame(EvArgs(Steps(t), fuel, args, s).s, names, t, User("g"));
  }

  lemma {:induction false} TotalSeq(fuel: nat, es: seq<Expr>, s: Store, names: set<Name>, t: Value)
    requires t.VNum? && es != [] && PlainSeq(es, t) && MentionsSeq(es) <= names && User("g") in names && Rich(s, names, t)
    ensures TotalRes(EvSeq(Steps(t), fuel, es, s), names, t)
    decreases es, 0
  {
    TotalEv(fuel, es[0], s, names, t);
    if |es| > 1 { TotalSeq(fuel, es[1..], Ev(Steps(t), fuel, es[0], s).s, names, t); }
  }

  lemma {:induction false} TotalArgs(fuel: nat, args: seq<Arg>, s: Store, names: set<Name>, t: Value)
    requires t.VNum? && PlainArgs(args, t) && MentionsArgs(args) <= names && User("g") in names && Rich(s, names, t)
    ensures var r := EvArgs(Steps(t), fuel, args, s); r.ArgsOk? && Rich(r.s, names, t)
    decreases args, 0
  {
    if args != [] {
      TotalEv(fuel, args[0].e, s, names, t);
      TotalArgs(fuel, args[1..], Ev(Steps(t), fuel, args[0].e, s).s, names, t);
    }
  }

  /** What the machine makes of such an expression is one again. */
  lemma {:induction false} PlainTold(p: Option<Name>, q: Option<Name>, e: Expr, t: Value)
    requires Plain(e, t) && Settled(q, e) && (p.Some? ==> p.value.User?)
    ensures Plain(Told(p, e), t)
    decreases e, 1
  {
    match e
    case Lit(_) | Sym(_) | Unop(_, _) | Binop(_, _, _) =>
    case Block(es) => PlainToldSeq(p, q, es, t);
    case While(c, b) =>
      PlainTold(None, None, c, t);
      PlainTold(p, q, b, t);
    case IfElse(_, a, b) =>
      PlainTold(p, q, a, t);
      PlainTold(p, q, b, t);
    case Assign(x, a) => PlainTold(Some(x), Some(x), a, t);
    case Call(_, args) => PlainToldArgs(args, t);
  }

  lemma {:induction false} PlainToldSeq(p: Option<Name>, q: Option<Name>, es: seq<Expr>, t: Value)
    requires PlainSeq(es, t) && SettledSeq(q, es) && (p.Some? ==> p.value.User?)
    ensures PlainSeq(ToldSeq(p, es), t)
    decreases es, 0
  {
    if es != [] {
      PlainTold(if |es| == 1 then p else None, if |es| == 1 then q else None, es[0], t);
      PlainToldSeq(p, q, es[1..], t);
    }
  }

  lemma {:induction false} PlainToldArgs(args: seq<Arg>, t: Value)
    requires PlainArgs(args, t) && SettledArgs(args)
    ensures PlainArgs(ToldArgs(args), t)
    decreases args, 0
  {
    if args != [] {
      PlainTold(Some(User(args[0].formal)), Some(User(args[0].formal)), args[0].e, t);
      PlainToldArgs(args[1..], t);
    }
  }

  // ----- The family `f(x = while (y) { y <- w; es })` -----

  function FamilyBody(y: string, w: Value, es: seq<Expr>): Expr {
    Block([Assign(User(y), Lit(w))] + es)
  }

  function Family(f: string, x: string, y: string, w: Value, es: seq<Expr>): Expr {
    Call(Sym(User(f)), [Arg(x, While(Sym(User(y)), FamilyBody(y, w, es)))])
  }

  /** The body is made of such expressions; some number is not among its literals. */
  ghost predicate HasValues(w: Value, es: seq<Expr>) {
    exists n: int :: PlainSeq(es, VNum(n)) && Plain(Lit(w), VNum(n))
  }

  /** The body, run in that world with `y` true: it ends with a value, and `y` is no longer true. */
  lemma BodyRuns(fuel: nat, y: string, w: Value, es: seq<Expr>, s: Store, names: set<Name>, t: Value)
    requires t.VNum? && s.tmps != [] && s.glob == Globals(names) && s.work == map[User(y) := Val(t)]
    requires PlainSeq(es, t) && Plain(Lit(w), t) && MentionsSeq(es) <= names && User("g") in names
    ensures TotalRes(Ev(Steps(t), fuel, FamilyBody(y, w, es), s), names, t)
  {
    var a := Assign(User(y), Lit(w));
    var all := [a] + es;
    var s1 := Add(s, User(y), Val(w));
    assert Ev(Steps(t), fuel, a, s) == Ok(w, s1) && Rich(s1, names, t);
    assert all[1..] == es;
    if es != [] { TotalSeq(fuel, es, s1, names, t); }
  }

  /** The loop as the machine has it: one iteration, and `x` holds its value. */
  lemma ToldLoop(x: string, y: string, w: Value, es: seq<Expr>, s: Store, names: set<Name>, t: Value) returns (s2: Store)
    requires t.VNum? && x != y && PlainSeq(es, t) && Plain(Lit(w), t) && MentionsSeq(es) + {User(y), User("g")} <= names
    requires s == Store(map[User(y) := Val(t)], Globals(names), [map[]])
    ensures Rich(s2, names, t) && User(x) in s2.work
    ensures Ev(Steps(t), 1, While(Sym(User(y)), Assign(User(x), FamilyBody(y, w, es))), s) == Ok(VNull, s2)
  {
    var ops, b, c := Steps(t), Assign(User(x), FamilyBody(y, w, es)), Sym(User(y));
    var s0 := Push(s);
    assert Ev(ops, 1, c, s0) == Ok(t, s0);
    BodyRuns(1, y, w, es, s0, names, t);
    hide FamilyBody;
    var q := Ev(ops, 1, FamilyBody(y, w, es), s0);
    var s1 := Add(q.s, User(x), Val(q.v));
    assert Ev(ops, 1, b, s0) == Ok(q.v, s1);
    assert Rich(s1, names, t) && User(x) in s1.work;
    FoundTame(s1, names, t, User(y));
    var v := Find(s1, User(y)).value.v;
    hide Rich, Globals;
    assert Ev(ops, 0, c, s1) == Ok(v, s1);
    assert Loop(ops, 0, c, b, s1) == Ok(v, s1);
    assert Loop(ops, 1, c, b, s0) == Loop(ops, 0, c, b, s1);
    s2 := Pop(s1);
    RichPop(s1, names, t);
  }

  lemma RichPop(s1: Store, names: set<Name>, t: Value)
    requires Rich(s1, names, t) && |s1.tmps| >= 2
    ensures Rich(Pop(s1), names, t) && Pop(s1).work == s1.work
  {}

  /** The call as the machine has it: it ends, and the caller's variable of the argument's name has been assigned. */
  lemma ToldRuns(f: string, x: string, y: string, w: Value, es: seq<Expr>, names: set<Name>, t: Value)
    requires t.VNum? && x != y && PlainSeq(es, t) && Plain(Lit(w), t)
    requires MentionsSeq(es) + {User(f), User(y), User("g")} <= names
    ensures var s := Store(map[User(y) := Val(t)], Globals(names), [map[]]);
            var told := Call(Sym(User(f)), [Arg(x, While(Sym(User(y)), Assign(User(x), FamilyBody(y, w, es))))]);
            var r := Ev(Steps(t), 1, told, s); r.Ok? && User(x) in r.s.work
  {
    var s := Store(map[User(y) := Val(t)], Globals(names), [map[]]);
    var arg := While(Sym(User(y)), Assign(User(x), FamilyBody(y, w, es)));
    var s2 := ToldLoop(x, y, w, es, s, names, t);
    hide FamilyBody, Loop;
    OneArg(Steps(t), x, arg, s, s2);
    assert FindFunction(s, User(f)) == Some("g");
    FoundTame(s2, names, t, User("g"));
    assert Invoke(Steps(t), "g", ArgsOk([VNull], s2)) == Ok(VNull, s2);
  }

  lemma OneArg(ops: Ops, x: string, e: Expr, s: Store, s2: Store)
    requires s.tmps != [] && Ev(ops, 1, e, s) == Ok(VNull, s2)
    ensures s2.tmps != [] && EvArgs(ops, 1, [Arg(x, e)], s) == ArgsOk([VNull], s2)
  {
    hide Ev;
    var args := [Arg(x, e)];
    assert args[1..] == [] && [VNull] + [] == [VNull];
    assert EvArgs(ops, 1, args[1..], s2) == ArgsOk([], s2);
  }

  /** The evaluator leaves alone what the call does not write. */
  lemma EvaluatorKeeps(ops: Ops, e: Expr, s: Store, v: Value, work: map<Name, Cell>, glob: map<Name, Cell>, x: Name)
    requires s.tmps != [] && R.Evaluates(ops, e, s, v, work, glob)
    requires x !in Writes(e) && x !in s.work && x != M.LAST
    ensures x !in work
  {
    hide Ev, Writes;
    var fuel: nat, s' :| Ev(ops, fuel, e, s) == Ok(v, s') && s'.work[M.LAST := Val(v)] == work && s'.glob == glob;
    EvKept(ops, fuel, e, s);
    assert SameAt(s.work, s'.work, x);
  }

  lemma FamilyWrites(f: string, x: string, y: string, w: Value, es: seq<Expr>)
    ensures Writes(Family(f, x, y, w, es)) == Writes(FamilyBody(y, w, es))
  {
    var args := [Arg(x, While(Sym(User(y)), FamilyBody(y, w, es)))];
    assert args[1..] == [];
    assert WritesArgs(args) == Writes(args[0].e) + WritesArgs(args[1..]);
    hide FamilyBody;
  }

  /** What the machine makes of the call. */
  lemma FamilyTold(f: string, x: string, y: string, w: Value, es: seq<Expr>)
    ensures Told(None, Family(f, x, y, w, es)) ==
            Call(Sym(User(f)), [Arg(x, While(Sym(User(y)), Assign(User(x), FamilyBody(y, w, ToldSeq(Some(User(x)), es)))))])
  {
    var p, a := Some(User(x)), Assign(User(y), Lit(w));
    var all, args := [a] + es, [Arg(x, While(Sym(User(y)), FamilyBody(y, w, es)))];
    assert all[1..] == es && args[1..] == [];
    LiteralTold(p, User(y), w);
    LiteralTold(None, User(y), w);
    hide Told;
    assert ToldSeq(p, all) == [a] + ToldSeq(p, es);
    BlockTold(p, all);
    assert Told(p, FamilyBody(y, w, es)) == FamilyBody(y, w, ToldSeq(p, es));
    LoopTold(f, x, User(y), FamilyBody(y, w, es));
  }

  lemma LiteralTold(p: Option<Name>, y: Name, w: Value)
    ensures Told(p, Assign(y, Lit(w))) == Assign(y, Lit(w))
  {
    assert Told(Some(y), Lit(w)) == Lit(w);
  }

  lemma BlockTold(p: Option<Name>, es: seq<Expr>)
    ensures Told(p, Block(es)) == Block(ToldSeq(p, es))
  {}

  lemma LoopTold(f: string, x: string, y: Name, b: Expr)
    requires M.AsList(b) != []
    ensures Told(None, Call(Sym(User(f)), [Arg(x, While(Sym(y), b))])) ==
            Call(Sym(User(f)), [Arg(x, While(Sym(y), Assign(User(x), Told(Some(User(x)), b))))])
  {
    var args := [Arg(x, While(Sym(y), b))];
    var p := Some(User(x));
    assert args[1..] == [];
    assert ToldArgs(args) == [Arg(x, Told(p, args[0].e))] + ToldArgs(args[1..]);
    assert Told(p, args[0].e) == While(Sym(y), Assign(User(x), Told(p, b)));
  }

  lemma FamilySettled(y: string, w: Value, es: seq<Expr>)
    requires Settled(None, FamilyBody(y, w, es))
    ensures SettledSeq(None, es)
  {
    var all := [Assign(User(y), Lit(w))] + es;
    assert all[1..] == es;
  }

  /** A body that never assigns to `x`: there is a run in which the caller's variable `x` appears out of nothing. */
  lemma CallerVariableAppears(f: string, x: string, y: string, w: Value, es: seq<Expr>, t: Value)
    requires t.VNum? && x != y && User(x) != M.LAST && PlainSeq(es, t) && Plain(Lit(w), t)
    requires Settled(None, FamilyBody(y, w, es)) && User(x) !in Writes(FamilyBody(y, w, es))
    ensures !Agrees(Family(f, x, y, w, es))
  {
    var told := ToldSeq(Some(User(x)), es);
    var names := MentionsSeq(told) + {User(f), User(y), User("g")};
    var s := Store(map[User(y) := Val(t)], Globals(names), [map[]]);
    var e := Family(f, x, y, w, es);
    FamilySettled(y, w, es);
    PlainToldSeq(Some(User(x)), None, es, t);
    ToldRuns(f, x, y, w, told, names, t);
    FamilyWrites(f, x, y, w, es);
    FamilyTold(f, x, y, w, es);
    hide Ev, FamilyBody, Family, Told, ToldSeq, Settled, Writes, PlainSeq, Steps, Globals;
    var r := Ev(Steps(t), 1, Told(None, e), s);
    var work := r.s.work[M.LAST := Val(r.v)];
    assert R.Evaluates(Steps(t), Told(None, e), s, r.v, work, r.s.glob);
    R.MachineRunsTold(Steps(t), e, s, r.v, work, r.s.glob);
    if R.Evaluates(Steps(t), e, s, r.v, work, r.s.glob) {
      EvaluatorKeeps(Steps(t), e, s, r.v, work, r.s.glob, User(x));
      assert false;
    }
  }

  /** A body that ends in an assignment is settled under every name or under none. */
  lemma {:induction false} EndsSettled(p: Option<Name>, q: Option<Name>, e: Expr, x: Name)
    requires Settled(q, e) && EndsIn(e, x)
    ensures Settled(p, e)
    decreases e, 1
  {
    match e
    case Assign(_, _) =>
    case Block(es) => SeqEndsSettled(p, q, es, x);
    case IfElse(_, t, f) =>
      EndsSettled(p, q, t, x);
      EndsSettled(p, q, f, x);
  }

  lemma {:induction false} SeqEndsSettled(p: Option<Name>, q: Option<Name>, es: seq<Expr>, x: Name)
    requires SettledSeq(q, es) && es != [] && EndsIn(es[|es| - 1], x)
    ensures SettledSeq(p, es)
    decreases es, 0
  {
    if |es| == 1 { EndsSettled(p, q, es[0], x); } else { SeqEndsSettled(p, q, es[1..], x); }
  }

  /**
   * The exact condition: with a body that either ends in assigning to `x` or never assigns to it, the machine agrees
   * with the evaluator on the call, under all operators and from all stores, if and only if the body ends in assigning
   * to `x`.
   */
  lemma LoopArgumentIsExact(f: string, x: string, y: string, w: Value, es: seq<Expr>)
    requires x != y && User(x) != M.LAST && HasValues(w, es) && Settled(None, FamilyBody(y, w, es))
    requires EndsIn(FamilyBody(y, w, es), User(x)) || User(x) !in Writes(FamilyBody(y, w, es))
    ensures Agrees(Family(f, x, y, w, es)) <==> EndsIn(FamilyBody(y, w, es), User(x))
  {
    if EndsIn(FamilyBody(y, w, es), User(x)) {
      var args := [Arg(x, While(Sym(User(y)), FamilyBody(y, w, es)))];
      EndsSettled(Some(User(x)), None, FamilyBody(y, w, es), User(x));
      assert args[1..] == [] && SettledArgs(args);
      LoopArgumentsKept(Sym(User(f)), args);
    } else {
      var n :| PlainSeq(es, VNum(n)) && Plain(Lit(w), VNum(n));
      CallerVariableAppears(f, x, y, w, es, VNum(n));
    }
  }
}
