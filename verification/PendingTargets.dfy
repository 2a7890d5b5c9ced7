/** What the machine makes of a program, as a program again: a loop takes the target of the pending assignment for its
    own, so that the value of every iteration is assigned to it; and an operand that is no atom stops the machine. */
module PendingTargets {
  import opened Wrappers
  import opened Ast
  import opened Eval
  import M = Machine

  // ----- The program that the machine runs -----

  /** What the machine makes of `e` when its value is expected under the name `p`. */
  function Told(p: Option<Name>, e: Expr): Expr
    decreases e, 1
  {
    match e
    case Unop(_, _) | Binop(_, _, _) => if M.AtomOk(e) then e else Break
    case Block(es) => Block(ToldSeq(p, es))
    case While(c, b) =>
      if M.AsList(c) == [] || M.AsList(b) == [] then Break else While(Told(None, c), Assigned(p, Told(p, b)))
    case IfElse(c, t, f) => if M.AtomOk(c) then IfElse(c, Told(p, t), Told(p, f)) else Break
    case For(l) => if l.Block? then For(Told(p, l)) else Break
    case Assign(x, a) => Assign(x, Told(Some(x), a))
    case Special(id, a) => Special(id, Told(Some(User(id)), a))
    case Request(c, _) => if M.AtomOk(c) then e else Break
    case Call(h, args) => if M.AtomOk(h) then Call(h, ToldArgs(args)) else Break
    case _ => e
  }

  /** The name goes to the last element. */
  function ToldSeq(p: Option<Name>, es: seq<Expr>): (r: seq<Expr>)
    ensures |r| == |es|
    decreases es, 0
  {
    if es == [] then [] else [Told(if |es| == 1 then p else None, es[0])] + ToldSeq(p, es[1..])
  }

  function ToldArgs(args: seq<Arg>): (r: seq<Arg>)
    ensures |r| == |args|
    decreases args, 0
  {
    if args == [] then []
    else [Arg(args[0].formal, Told(Some(User(args[0].formal)), args[0].e))] + ToldArgs(args[1..])
  }

  function Assigned(p: Option<Name>, b: Expr): Expr {
    match p case None => b case Some(x) => Assign(x, b)
  }

  // ----- When that changes nothing -----

  /** Whatever way the expression ends, the last thing it does is to assign its value to `x`. */
  predicate EndsIn(e: Expr, x: Name) {
    match e
    case Assign(y, _) => y == x
    case Block(es) => es != [] && EndsIn(es[|es| - 1], x)
    case IfElse(_, t, f) => EndsIn(t, x) && EndsIn(f, x)
    case _ => false
  }

  /** Nobody sees the assignments that a loop with body `b` is made to do. */
  predicate Harmless(p: Option<Name>, c: Expr, b: Expr) {
    p.Some? ==> Unseen(p.value, c, b) || EndsIn(b, p.value)
  }

  predicate Unseen(x: Name, c: Expr, b: Expr) {
    IsTemporary(x) && x !in Mentions(While(c, b))
  }

  /** Operands are atoms, and every loop that has a name pending is harmless. */
  predicate Settled(p: Option<Name>, e: Expr)
    decreases e, 1
  {
    match e
    case Unop(_, _) | Binop(_, _, _) => M.AtomOk(e)
    case Block(es) => SettledSeq(p, es)
    case While(c, b) =>
      M.AsList(c) != [] && M.AsList(b) != [] && Settled(None, c) && Settled(p, b) && Harmless(p, c, b)
    case IfElse(c, t, f) => M.AtomOk(c) && Settled(p, t) && Settled(p, f)
    case For(l) => l.Block? && Settled(p, l)
    case Assign(x, a) => Settled(Some(x), a)
    case Special(id, a) => Settled(Some(User(id)), a)
    case Request(c, _) => M.AtomOk(c)
    case Call(h, args) => M.AtomOk(h) && SettledArgs(args)
    case _ => true
  }

  predicate SettledSeq(p: Option<Name>, es: seq<Expr>)
    decreases es, 0
  {
    es == [] || (Settled(if |es| == 1 then p else None, es[0]) && SettledSeq(p, es[1..]))
  }

  predicate SettledArgs(args: seq<Arg>)
    decreases args, 0
  {
    args == [] || (Settled(Some(User(args[0].formal)), args[0].e) && SettledArgs(args[1..]))
  }

  // ----- Bodies that end in the assignment -----

  lemma {:induction false} EndHolds(ops: Ops, fuel: nat, e: Expr, x: Name, s: Store)
    requires s.tmps != [] && EndsIn(e, x)
    ensures var r := Ev(ops, fuel, e, s); r.Ok? ==> Add(r.s, x, Val(r.v)) == r.s
    decreases e, 1
  {
    match e
    case Assign(_, a) =>
      var r := Ev(ops, fuel, a, s);
      if r.Ok? { AddTwice(r.s, x, Val(r.v)); }
    case Block(es) => SeqEndHolds(ops, fuel, es, x, s);
    case IfElse(c, t, f) =>
      var r := Ev(ops, fuel, c, s);
      if r.Ok? {
        EndHolds(ops, fuel, t, x, r.s);
        EndHolds(ops, fuel, f, x, r.s);
      }
  }

  lemma AddTwice(s: Store, x: Name, v: Cell)
    requires s.tmps != []
    ensures Add(Add(s, x, v), x, v) == Add(s, x, v)
  {
    assert s.work[x := v][x := v] == s.work[x := v];
    assert s.tmps[0][x := v][x := v] == s.tmps[0][x := v];
  }

  lemma {:induction false} SeqEndHolds(ops: Ops, fuel: nat, es: seq<Expr>, x: Name, s: Store)
    requires s.tmps != [] && es != [] && EndsIn(es[|es| - 1], x)
    ensures var r := EvSeq(ops, fuel, es, s); r.Ok? ==> Add(r.s, x, Val(r.v)) == r.s
    decreases es, 0
  {
    if |es| == 1 {
      EndHolds(ops, fuel, es[0], x, s);
    } else {
      var r := Ev(ops, fuel, es[0], s);
      if r.Ok? { SeqEndHolds(ops, fuel, es[1..], x, r.s); }
    }
  }

  lemma {:induction false} ToldEnds(p: Option<Name>, e: Expr, x: Name)
    requires Settled(p, e) && EndsIn(e, x)
    ensures EndsIn(Told(p, e), x)
    decreases e, 1
  {
    match e
    case Assign(_, _) =>
    case Block(es) => ToldSeqEnds(p, es, x);
    case IfElse(_, t, f) =>
      ToldEnds(p, t, x);
      ToldEnds(p, f, x);
  }

  lemma {:induction false} ToldSeqEnds(p: Option<Name>, es: seq<Expr>, x: Name)
    requires SettledSeq(p, es) && es != [] && EndsIn(es[|es| - 1], x)
    ensures EndsIn(ToldSeq(p, es)[|es| - 1], x)
    decreases es, 0
  {
    if |es| == 1 { ToldEnds(p, es[0], x); } else { ToldSeqEnds(p, es[1..], x); }
  }

  // ----- Evaluating what the machine runs -----

  /** The names that may differ inside a loop: those that may outside, and the pending one when nobody sees it. */
  ghost function Inside(d: iset<Name>, p: Option<Name>, c: Expr, b: Expr): iset<Name> {
    if p.Some? && Unseen(p.value, c, b) then d + iset{p.value} else d
  }

  lemma AddIgnored(s: Store, t: Store, d: iset<Name>, x: Name, v: Cell)
    requires t.tmps != [] && Agree(s, t, d) && IsTemporary(x) && x in d
    ensures Agree(s, Add(t, x, v), d)
  {
    var a := Add(t, x, v);
    forall i, y | 0 <= i < |s.tmps| && y !in d ensures SameAt(s.tmps[i], a.tmps[i], y) {
      assert SameAt(s.tmps[i], t.tmps[i], y);
    }
  }

  lemma PopAgree(s: Store, t: Store, s1: Store, t1: Store, d: iset<Name>, d1: iset<Name>)
    requires Agree(s, t, d) && Agree(s1, t1, d1)
    requires s1.tmps != [] && s1.tmps[1..] == s.tmps && t1.tmps != [] && t1.tmps[1..] == t.tmps
    ensures Agree(Pop(s1), Pop(t1), d)
  {}

  lemma PushAgree(s: Store, t: Store, d: iset<Name>, d1: iset<Name>)
    requires Agree(s, t, d) && d <= d1
    ensures Agree(Push(s), Push(t), d1)
  {}

  lemma LoopTail(ops: Ops, fuel: nat, c: Expr, b: Expr, s: Store)
    requires s.tmps != []
    ensures var r := Loop(ops, fuel, c, b, Push(s)); r.Ok? ==> r.s.tmps != [] && r.s.tmps[1..] == s.tmps
  {
    assert Push(s).tmps[1..] == s.tmps;
    hide Loop;
    LoopKept(ops, fuel, c, b, Push(s));
  }

  /** From stores that agree, a settled expression and what the machine makes of it evaluate alike. */
  lemma {:induction false} ToldAgree(ops: Ops, fuel: nat, p: Option<Name>, e: Expr, s: Store, t: Store, d: iset<Name>)
    requires s.tmps != [] && Agree(s, t, d) && Apart(e, d) && Settled(p, e)
    ensures AgreeRes(Ev(ops, fuel, e, s), Ev(ops, fuel, Told(p, e), t), d)
    decreases fuel, e, 1
  {
    match e
    case Lit(_) | Sym(_) | Break | Next | Ellipsis | Unop(_, _) | Binop(_, _, _) | Request(_, _) =>
      EvAgree(ops, fuel, e, s, t, d);
    case Block(es) => ToldSeqAgree(ops, fuel, p, es, s, t, d);
    case While(_, _) => ToldWhileAgree(ops, fuel, p, e, s, t, d);
    case IfElse(_, _, _) => ToldIfAgree(ops, fuel, p, e, s, t, d);
    case For(l) => ToldAgree(ops, fuel, p, l, s, t, d);
    case Assign(x, a) =>
      ToldAgree(ops, fuel, Some(x), a, s, t, d);
      var r1, r2 := Ev(ops, fuel, a, s), Ev(ops, fuel, Told(Some(x), a), t);
      if r1.Ok? { AddAgree(r1.s, r2.s, d, x, Val(r1.v)); }
    case Special(id, a) => ToldAgree(ops, fuel, Some(User(id)), a, s, t, d);
    case Call(h, args) => ToldCallAgree(ops, fuel, h, args, s, t, d);
  }

  lemma {:induction false} ToldIfAgree(ops: Ops, fuel: nat, p: Option<Name>, e: Expr, s: Store, t: Store, d: iset<Name>)
    requires s.tmps != [] && Agree(s, t, d) && Apart(e, d) && Settled(p, e) && e.IfElse?
    ensures AgreeRes(Ev(ops, fuel, e, s), Ev(ops, fuel, Told(p, e), t), d)
    decreases fuel, e, 0
  {
    EvAgree(ops, fuel, e.cond, s, t, d);
    var r1, r2 := Ev(ops, fuel, e.cond, s), Ev(ops, fuel, e.cond, t);
    if r1.Ok? {
      ToldAgree(ops, fuel, p, e.thn, r1.s, r2.s, d);
      ToldAgree(ops, fuel, p, e.els, r1.s, r2.s, d);
    }
  }

  lemma {:induction false} ToldWhileAgree(ops: Ops, fuel: nat, p: Option<Name>, e: Expr, s: Store, t: Store, d: iset<Name>)
    requires s.tmps != [] && Agree(s, t, d) && Apart(e, d) && Settled(p, e) && e.While?
    ensures AgreeRes(Ev(ops, fuel, e, s), Ev(ops, fuel, Told(p, e), t), d)
    decreases fuel, e, 1, 0
  {
    var c, b := e.cond, e.body;
    var d1 := Inside(d, p, c, b);
    var c2, b2 := Told(None, c), Assigned(p, Told(p, b));
    InsideApart(d, p, c, b);
    PushAgree(s, t, d, d1);
    assert Told(p, e) == While(c2, b2) && Harmless(p, c, b) && Settled(None, c) && Settled(p, b);
    assert p.Some? && Unseen(p.value, c, b) ==> p.value in d1;
    assert e == While(c, b);
    hide Inside, Told, Settled, Harmless, Unseen, Assigned, Agree, Apart;
    ToldLoopAgree(ops, fuel, p, c, b, Push(s), Push(t), d1);
    LoopTail(ops, fuel, c, b, s);
    LoopTail(ops, fuel, c2, b2, t);
    var r1, r2 := Loop(ops, fuel, c, b, Push(s)), Loop(ops, fuel, c2, b2, Push(t));
    if r1.Ok? { PopAgree(s, t, r1.s, r2.s, d, d1); }
  }

  lemma InsideApart(d: iset<Name>, p: Option<Name>, c: Expr, b: Expr)
    requires Apart(While(c, b), d)
    ensures Apart(While(c, b), Inside(d, p, c, b)) && d <= Inside(d, p, c, b)
  {}

  lemma {:induction false} ToldCallAgree(ops: Ops, fuel: nat, h: Expr, args: seq<Arg>, s: Store, t: Store, d: iset<Name>)
    requires s.tmps != [] && Agree(s, t, d) && Apart(Call(h, args), d) && M.AtomOk(h) && SettledArgs(args)
    ensures AgreeRes(Ev(ops, fuel, Call(h, args), s), Ev(ops, fuel, Call(h, ToldArgs(args)), t), d)
    decreases fuel, Call(h, args), 0
  {
    assert Apart(h, d) && (h.Sym? ==> h.x !in d);
    if h.Sym? { FindAgree(s, t, d, h.x); } else { EvAgree(ops, fuel, h, s, t, d); }
    var h1 := if h.Sym? then EvHead(s, h.x) else Ev(ops, fuel, h, s);
    var h2 := if h.Sym? then EvHead(t, h.x) else Ev(ops, fuel, h, t);
    assert AgreeRes(h1, h2, d);
    if h1.Ok? && h1.v.VBuiltin? {
      ToldArgsAgree(ops, fuel, args, h1.s, h2.s, d);
      InvokeAgree(ops, h1.v.name, EvArgs(ops, fuel, args, h1.s), EvArgs(ops, fuel, ToldArgs(args), h2.s), d);
    }
  }

  lemma {:induction false} ToldSeqAgree(ops: Ops, fuel: nat, p: Option<Name>, es: seq<Expr>, s: Store, t: Store, d: iset<Name>)
    requires s.tmps != [] && Agree(s, t, d) && (forall x :: x in MentionsSeq(es) ==> x !in d) && SettledSeq(p, es)
    ensures AgreeRes(EvSeq(ops, fuel, es, s), EvSeq(ops, fuel, ToldSeq(p, es), t), d)
    decreases fuel, es, 0
  {
    if es != [] {
      var q := if |es| == 1 then p else None;
      ToldAgree(ops, fuel, q, es[0], s, t, d);
      assert ToldSeq(p, es)[0] == Told(q, es[0]) && ToldSeq(p, es)[1..] == ToldSeq(p, es[1..]);
      var r1, r2 := Ev(ops, fuel, es[0], s), Ev(ops, fuel, Told(q, es[0]), t);
      if r1.Ok? && |es| > 1 { ToldSeqAgree(ops, fuel, p, es[1..], r1.s, r2.s, d); }
    }
  }

  lemma {:induction false} ToldArgsAgree(ops: Ops, fuel: nat, args: seq<Arg>, s: Store, t: Store, d: iset<Name>)
    requires s.tmps != [] && Agree(s, t, d) && (forall x :: x in MentionsArgs(args) ==> x !in d) && SettledArgs(args)
    ensures AgreeArgs(EvArgs(ops, fuel, args, s), EvArgs(ops, fuel, ToldArgs(args), t), d)
    decreases fuel, args, 0
  {
    if args != [] {
      var x := User(args[0].formal);
      ToldAgree(ops, fuel, Some(x), args[0].e, s, t, d);
      assert ToldArgs(args)[0].e == Told(Some(x), args[0].e) && ToldArgs(args)[1..] == ToldArgs(args[1..]);
      var r1, r2 := Ev(ops, fuel, args[0].e, s), Ev(ops, fuel, Told(Some(x), args[0].e), t);
      if r1.Ok? { ToldArgsAgree(ops, fuel, args[1..], r1.s, r2.s, d); }
    }
  }

  /** The value that the machine assigns after the body: unseen, or there already. */
  lemma AssignedAgree(ops: Ops, fuel: nat, p: Option<Name>, c: Expr, b: Expr, s: Store, t: Store, d: iset<Name>)
    requires s.tmps != [] && t.tmps != [] && Settled(p, b) && Harmless(p, c, b)
    requires p.Some? && Unseen(p.value, c, b) ==> p.value in d
    requires AgreeRes(Ev(ops, fuel, b, s), Ev(ops, fuel, Told(p, b), t), d)
    ensures AgreeRes(Ev(ops, fuel, b, s), Ev(ops, fuel, Assigned(p, Told(p, b)), t), d)
  {
    var r, q := Ev(ops, fuel, b, s), Ev(ops, fuel, Told(p, b), t);
    if r.Ok? && p.Some? {
      if Unseen(p.value, c, b) {
        AddIgnored(r.s, q.s, d, p.value, Val(q.v));
      } else {
        ToldEnds(p, b, p.value);
        EndHolds(ops, fuel, Told(p, b), p.value, t);
      }
    }
  }

  lemma {:induction false} ToldLoopAgree(ops: Ops, fuel: nat, p: Option<Name>, c: Expr, b: Expr, s: Store, t: Store, d: iset<Name>)
    requires s.tmps != [] && Agree(s, t, d) && Apart(While(c, b), d) && Settled(None, c) && Settled(p, b) && Harmless(p, c, b)
    requires p.Some? && Unseen(p.value, c, b) ==> p.value in d
    ensures AgreeRes(Loop(ops, fuel, c, b, s), Loop(ops, fuel, Told(None, c), Assigned(p, Told(p, b)), t), d)
    decreases fuel, While(c, b), 0
  {
    assert Apart(c, d) && Apart(b, d);
    hide Told, Settled, Harmless, Unseen, Assigned, Agree, Apart;
    ToldAgree(ops, fuel, None, c, s, t, d);
    var r1, r2 := Ev(ops, fuel, c, s), Ev(ops, fuel, Told(None, c), t);
    if r1.Ok? && ops.truth(r1.v) == Some(true) {
      ToldAgree(ops, fuel, p, b, r1.s, r2.s, d);
      AssignedAgree(ops, fuel, p, c, b, r1.s, r2.s, d);
      var q1, q2 := Ev(ops, fuel, b, r1.s), Ev(ops, fuel, Assigned(p, Told(p, b)), r2.s);
      if q1.Ok? && fuel > 0 { ToldLoopAgree(ops, fuel - 1, p, c, b, q1.s, q2.s, d); }
    }
  }
}
