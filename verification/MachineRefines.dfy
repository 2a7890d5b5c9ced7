/** The continuation machine against the plain evaluator: it halts exactly when the evaluator has a value for what the
    machine makes of the program, with that value and the same variables; on programs in normal form that is the
    program itself. */
module MachineRefines {
  import opened Wrappers
  import opened Ast
  import opened Eval
  import opened PendingTargets
  import M = Machine

  type Config = M.Config
  type Kont = M.Kont

  // ----- Programs that the machine can run -----

  /** A loop may be the last thing that `e` does. */
  predicate TailLoops(e: Expr) {
    match e
    case While(_, _) => true
    case Block(es) => es != [] && TailLoops(es[|es| - 1])
    case IfElse(_, t, f) => TailLoops(t) || TailLoops(f)
    case For(l) => TailLoops(l)
    case _ => false
  }

  /** Every operand is an atom; and no value of a loop body can reach a variable of the program while
      the loop is still running: a loop hands its pending target down to its body. */
  predicate Runnable(e: Expr)
    decreases e, 1
  {
    match e
    case Lit(_) | Sym(_) | Break | Next | Ellipsis => true
    case Unop(_, _) | Binop(_, _, _) => M.AtomOk(e)
    case Block(es) => es != [] && RunnableSeq(es)
    case While(c, b) => Runnable(c) && Runnable(b)
    case IfElse(c, t, f) => M.AtomOk(c) && Runnable(t) && Runnable(f)
    case For(l) => l.Block? && Runnable(l)
    case Assign(x, a) => Runnable(a) && (TailLoops(a) ==> IsTemporary(x) && x !in Mentions(a))
    case Special(_, a) => Runnable(a) && !TailLoops(a)
    case Request(c, _) => M.AtomOk(c)
    case Call(h, args) => M.AtomOk(h) && RunnableArgs(args)
  }

  predicate RunnableSeq(es: seq<Expr>)
    decreases es, 0
  {
    es == [] || (Runnable(es[0]) && RunnableSeq(es[1..]))
  }

  predicate RunnableArgs(args: seq<Arg>)
    decreases args, 0
  {
    args == [] || (Runnable(args[0].e) && !TailLoops(args[0].e) && RunnableArgs(args[1..]))
  }

  // ----- Configurations before and after -----

  /** From `c` to `c2` the frame `r` and the frames of the user have come to be those of `s`, and the
      other frames of `c` are as they were. */
  ghost predicate Post(c: Config, c2: Config, r: nat, s: Store) {
    && r < |c.frames| <= |c2.frames|
    && c2.work == s.work && c2.glob == s.glob && c2.answers == c.answers && c2.slots == c.slots
    && |s.tmps| == |M.Tmps(c.frames, r)|
    && s.tmps[1..] == M.Tmps(c.frames, r)[1..]
    && c2.frames[r] == c.frames[r].(tmp := s.tmps[0])
    && forall i :: 0 <= i < |c.frames| && i != r ==> c2.frames[i] == c.frames[i]
  }

  lemma {:induction false} TmpsSame(f1: seq<M.Frame>, f2: seq<M.Frame>, r: nat)
    requires r < |f1| && r < |f2| && forall i :: 0 <= i <= r ==> f1[i] == f2[i]
    ensures M.Tmps(f1, r) == M.Tmps(f2, r)
  {
    var f := f1[r];
    if f.up.Some? && f.up.value < r { TmpsSame(f1, f2, f.up.value); }
  }

  lemma PostView(c: Config, c2: Config, r: nat, s: Store)
    requires Post(c, c2, r, s)
    ensures M.View(c2, r) == s
  {
    var f := c.frames[r];
    if f.up.Some? && f.up.value < r { TmpsSame(c.frames, c2.frames, f.up.value); }
    assert s.tmps == [s.tmps[0]] + s.tmps[1..];
  }

  lemma PostRefl(c: Config, r: nat)
    requires r < |c.frames|
    ensures Post(c, c, r, M.View(c, r))
  {
  }

  lemma PostTrans(c: Config, c1: Config, c2: Config, r: nat, s1: Store, s2: Store)
    requires Post(c, c1, r, s1) && Post(c1, c2, r, s2)
    ensures Post(c, c2, r, s2)
  {
    PostView(c, c1, r, s1);
  }

  /** Assigning in frame `r` is assigning in the store that it shows. */
  lemma PostAdd(c: Config, r: nat, x: Name, v: Cell)
    requires r < |c.frames|
    ensures Post(c, M.AddIn(c, r, x, v), r, Add(M.View(c, r), x, v))
  {
  }

  lemma PostSpecial(c: Config, r: nat, x: Name, v: Cell)
    requires r < |c.frames|
    ensures Post(c, M.AddSpecialIn(c, x, v), r, AddSpecial(M.View(c, r), x, v))
  {
  }

  // ----- Single steps -----

  predicate At(c: Config, e: Expr, kn: Kont) {
    c.k.K? && c.k.r < |c.frames| && c.k.control == M.Code(e) && c.k.next == kn && kn.K?
  }

  lemma {:induction false} AtomEv(ops: Ops, fuel: nat, e: Expr, s: Store)
    requires s.tmps != [] && M.AtomOk(e)
    ensures match M.EvalAtom(ops, s, e)
      case AtomVal(v) => Ev(ops, fuel, e, s) == Ok(v, s)
      case _ => Ev(ops, fuel, e, s) == Err
  {
    match e
    case Unop(_, a) => AtomEv(ops, fuel, a, s);
    case Binop(_, l, r) => AtomEv(ops, fuel, l, s); AtomEv(ops, fuel, r, s);
    case _ =>
  }

  lemma StepAtom(ops: Ops, c: Config, e: Expr, kn: Kont)
    requires At(c, e, kn) && M.AtomicControl(e)
    ensures M.Run(ops, false, 1, c) == M.DeliverAtom(ops, c, kn, M.EvalAtom(ops, M.View(c, c.k.r), e))
  {
    M.RunOne(ops, false, c);
  }

  lemma StepList(ops: Ops, c: Config, e: Expr, kn: Kont, es: seq<Expr>)
    requires At(c, e, kn) && es != []
    requires e == Block(es) || e == For(Block(es)) || ((e.Assign? || e.Special?) && es == [e])
    ensures M.Run(ops, false, 1, c) == M.Go(c.(k := M.Chain(es, c.k.r, kn)))
  {
    M.RunOne(ops, false, c);
  }

  lemma StepStuck(ops: Ops, c: Config, e: Expr, kn: Kont)
    requires At(c, e, kn) && (e.Break? || e.Next? || e.Ellipsis?)
    ensures M.Run(ops, false, 1, c) == M.Fail
  {
    M.RunOne(ops, false, c);
  }

  lemma StepIf(ops: Ops, c: Config, e: Expr, kn: Kont)
    requires At(c, e, kn) && e.IfElse?
    ensures M.Run(ops, false, 1, c) == M.StepIf(ops, c, e.cond, e.thn, e.els)
  {
    M.RunOne(ops, false, c);
  }

  lemma StepRequest(ops: Ops, c: Config, e: Expr, kn: Kont)
    requires At(c, e, kn) && e.Request?
    ensures M.Run(ops, false, 1, c) == M.StepRequest(ops, false, c, e.con, e.e)
  {
    M.RunOne(ops, false, c);
  }

  lemma StepCall(ops: Ops, c: Config, e: Expr, kn: Kont)
    requires At(c, e, kn) && e.Call?
    ensures M.Run(ops, false, 1, c) == M.StepCall(ops, c, e.head, e.args)
  {
    M.RunOne(ops, false, c);
  }

  lemma StepWhile(ops: Ops, c: Config, e: Expr, kn: Kont)
    requires At(c, e, kn) && e.While? && M.AsList(e.cond) != [] && M.AsList(e.body) != []
    ensures var fr := |c.frames|;
      var k := M.CondKont(e.cond, e.body, kn, fr);
      M.Run(ops, false, 1, c) ==
        M.Go(c.(frames := c.frames + [M.Frame(map[], Some(c.k.r), [], k, M.EndKont(kn, fr))], k := k))
  {
    M.RunOne(ops, false, c);
  }

  lemma StepInvoke(ops: Ops, c: Config, b: string)
    requires c.k.K? && c.k.r < |c.frames| && c.k.control == M.Invoke(b)
    ensures M.Run(ops, false, 1, c) == M.StepInvoke(ops, c, b)
  {
    M.RunOne(ops, false, c);
  }

  // ----- Deliveries -----

  /** To an ordinary continuation that is not a target: nothing is assigned. */
  lemma DeliverOn(ops: Ops, c: Config, k: Kont, v: Value)
    requires k.K? && k.r < |c.frames| && k.next.K? && k.target == None && k.fl == M.NORMAL && k.control != M.NoControl
    ensures M.Deliver(ops, c, k, Val(v)) == M.Go(c.(k := k))
  {
  }

  /** To the target of an assignment. */
  lemma DeliverAssign(ops: Ops, c: Config, k: Kont, x: Name, v: Value)
    requires k.K? && k.r < |c.frames| && k.target == Some(x) && k.control != M.NoControl
    requires k.fl == M.NORMAL.(global := k.fl.global)
    ensures M.Deliver(ops, c, k, Val(v)) ==
      M.Go((if k.fl.global then M.AddSpecialIn(c, x, Val(v)) else M.AddIn(c, k.r, x, Val(v))).(k := k))
  {
  }

  /** To the body of a loop, the value of its condition. */
  lemma DeliverCond(ops: Ops, c: Config, k: Kont, v: Value)
    requires k.K? && k.r < |c.frames| && k.next.K? && k.target == None && k.fl == M.NORMAL.(cond := true)
    ensures M.Deliver(ops, c, k, Val(v)) == match ops.truth(v)
      case None => M.Fail
      case Some(true) => M.Go(c.(k := k))
      case Some(false) => M.Go(M.Cleared(c, k.r).(k := c.frames[k.r].cc))
  {
  }

  /** To the end of a loop: the pending target takes the value of the body, and the loop restarts. */
  lemma DeliverEnd(ops: Ops, c: Config, kn: Kont, r: nat, v: Value)
    requires kn.K? && r < |c.frames|
    ensures var c1 := if kn.target.Some? then M.AddIn(c, r, kn.target.value, Val(v)) else c;
      M.Deliver(ops, c, M.EndKont(kn, r), Val(v)) == M.Go(c1.(k := c1.frames[r].bc))
  {
  }

  lemma DeliverArg(ops: Ops, c: Config, k: Kont, v: Value)
    requires k.K? && k.r < |c.frames| && k.next.K? && k.target.Some? && k.control == M.NoControl
    requires k.fl == M.NORMAL.(arg := true)
    ensures M.Deliver(ops, c, k, Val(v)) == M.Go(M.AddArgIn(c, k.r, Val(v)).(k := k.next))
  {
  }

  // ----- Simulation -----

  predicate Stuck(r: M.StepRes) {
    r.Fail? || r.Blocked?
  }

  /** From `c`, after `n` steps, the value is about to be delivered to `kn`; or the machine has
      stopped, when there is no value; or it has made more than `fuel` steps and is still running. */
  ghost predicate Sim(ops: Ops, fuel: nat, c: Config, r: nat, kn: Kont, res: Res, n: nat, c2: Config) {
    match res
    case Ok(v, s) => n >= 1 && M.Run(ops, false, n, c) == M.Deliver(ops, c2, kn, Val(v)) && Post(c, c2, r, s)
    case Err => Stuck(M.Run(ops, false, n, c))
    case Timeout => n > fuel && M.Run(ops, false, n, c).Go?
  }

  lemma SimPrefix(ops: Ops, fuel: nat, c: Config, m: nat, c1: Config, s1: Store, r: nat, kn: Kont, res: Res, n: nat, c2: Config)
    requires M.Run(ops, false, m, c) == M.Go(c1) && Post(c, c1, r, s1)
    requires Sim(ops, fuel, c1, r, kn, res, n, c2)
    ensures Sim(ops, fuel, c, r, kn, res, m + n, c2)
  {
    M.RunAdd(ops, false, m, n, c);
    if res.Ok? { PostTrans(c, c1, c2, r, s1, res.s); }
  }

  predicate SameBody(k: Kont, l: Kont) {
    k.K? && l.K? && k.control == l.control && k.r == l.r && k.next == l.next
  }

  /** What is no atom has no value for the machine. */
  lemma {:induction false} NoAtomStuck(ops: Ops, e: Expr, s: Store)
    requires !M.AtomOk(e)
    ensures !M.EvalAtom(ops, s, e).AtomVal?
  {
    match e
    case Unop(_, a) => NoAtomStuck(ops, a, s);
    case Binop(_, l, r) => if M.AtomOk(l) { NoAtomStuck(ops, r, s); } else { NoAtomStuck(ops, l, s); }
    case _ =>
  }

  lemma {:induction false} SimExpr(ops: Ops, fuel: nat, e: Expr, c: Config, kn: Kont) returns (n: nat, c2: Config)
    requires At(c, e, kn)
    ensures Sim(ops, fuel, c, c.k.r, kn, Ev(ops, fuel, Told(kn.target, e), M.View(c, c.k.r)), n, c2)
    decreases fuel, e, 1
  {
    var r := c.k.r;
    n, c2 := 1, c;
    match e
    case Lit(_) | Sym(_) | Unop(_, _) | Binop(_, _, _) => SimAtom(ops, fuel, e, c, kn);
    case Break | Next | Ellipsis => StepStuck(ops, c, e, kn);
    case Block(_) | For(_) => n, c2 := SimBlock(ops, fuel, e, c, kn);
    case Assign(_, _) | Special(_, _) =>
      PostRefl(c, r);
      StepList(ops, c, e, kn, [e]);
      var c1 := c.(k := M.Chain([e], r, kn));
      n, c2 := SimLastAssign(ops, fuel, e, c1, kn);
      SimPrefix(ops, fuel, c, 1, c1, M.View(c, r), r, kn, Ev(ops, fuel, Told(kn.target, e), M.View(c, r)), n, c2);
      n := n + 1;
    case IfElse(_, _, _) => n, c2 := SimIf(ops, fuel, e, c, kn);
    case While(_, _) => n, c2 := SimWhile(ops, fuel, e, c, kn);
    case Request(_, _) => SimRequest(ops, fuel, e, c, kn);
    case Call(_, _) => n, c2 := SimCall(ops, fuel, e, c, kn);
  }

  lemma SimAtom(ops: Ops, fuel: nat, e: Expr, c: Config, kn: Kont)
    requires At(c, e, kn) && M.AtomicControl(e)
    ensures Sim(ops, fuel, c, c.k.r, kn, Ev(ops, fuel, Told(kn.target, e), M.View(c, c.k.r)), 1, c)
  {
    PostRefl(c, c.k.r);
    StepAtom(ops, c, e, kn);
    if M.AtomOk(e) {
      AtomEv(ops, fuel, e, M.View(c, c.k.r));
    } else {
      NoAtomStuck(ops, e, M.View(c, c.k.r));
    }
  }

  predicate NoList(e: Expr) {
    e == Block([]) || (e.For? && (!e.loop.Block? || e.loop.es == []))
  }

  /** An empty list, and a `for` without one, stop the machine. */
  lemma SimNoList(ops: Ops, fuel: nat, e: Expr, c: Config, kn: Kont)
    requires At(c, e, kn) && NoList(e)
    ensures Sim(ops, fuel, c, c.k.r, kn, Ev(ops, fuel, Told(kn.target, e), M.View(c, c.k.r)), 1, c)
  {
    M.RunOne(ops, false, c);
    var s := M.View(c, c.k.r);
    assert Told(kn.target, Block([])) == Block([]) && Ev(ops, fuel, Block([]), s) == Err;
    assert Ev(ops, fuel, For(Block([])), s) == Err;
  }

  lemma {:induction false} SimBlock(ops: Ops, fuel: nat, e: Expr, c: Config, kn: Kont) returns (n: nat, c2: Config)
    requires At(c, e, kn) && (e.Block? || e.For?)
    ensures Sim(ops, fuel, c, c.k.r, kn, Ev(ops, fuel, Told(kn.target, e), M.View(c, c.k.r)), n, c2)
    decreases fuel, e, 0
  {
    var r := c.k.r;
    var b := if e.For? then e.loop else e;
    n, c2 := 1, c;
    if NoList(e) {
      SimNoList(ops, fuel, e, c, kn);
    } else {
      StepList(ops, c, e, kn, b.es);
      PostRefl(c, r);
      var c1 := c.(k := M.Chain(b.es, r, kn));
      assert M.View(c1, r) == M.View(c, r) && c1.k.r == r;
      assert Told(kn.target, b) == Block(ToldSeq(kn.target, b.es));
      assert Ev(ops, fuel, Told(kn.target, e), M.View(c, r)) == EvSeq(ops, fuel, ToldSeq(kn.target, b.es), M.View(c, r));
      hide Told, ToldSeq, Ev, EvSeq, M.Chain, M.View, M.Tmps, M.Deliver;
      n, c2 := SimList(ops, fuel, b.es, c1, kn);
      SimPrefix(ops, fuel, c, 1, c1, M.View(c, r), r, kn, Ev(ops, fuel, Told(kn.target, e), M.View(c, r)), n, c2);
      n := n + 1;
    }
  }

  lemma SimRequest(ops: Ops, fuel: nat, e: Expr, c: Config, kn: Kont)
    requires At(c, e, kn) && e.Request?
    ensures Sim(ops, fuel, c, c.k.r, kn, Ev(ops, fuel, Told(kn.target, e), M.View(c, c.k.r)), 1, c)
  {
    PostRefl(c, c.k.r);
    StepRequest(ops, c, e, kn);
    if M.AtomOk(e.con) {
      AtomEv(ops, fuel, e.con, M.View(c, c.k.r));
    } else {
      NoAtomStuck(ops, e.con, M.View(c, c.k.r));
    }
  }

  lemma {:induction false} SimIf(ops: Ops, fuel: nat, e: Expr, c: Config, kn: Kont) returns (n: nat, c2: Config)
    requires At(c, e, kn) && e.IfElse?
    ensures Sim(ops, fuel, c, c.k.r, kn, Ev(ops, fuel, Told(kn.target, e), M.View(c, c.k.r)), n, c2)
    decreases fuel, e, 0
  {
    var r := c.k.r;
    var s := M.View(c, r);
    n, c2 := 1, c;
    PostRefl(c, r);
    StepIf(ops, c, e, kn);
    if !M.AtomOk(e.cond) {
      NoAtomStuck(ops, e.cond, s);
      return;
    }
    AtomEv(ops, fuel, e.cond, s);
    var a := M.EvalAtom(ops, s, e.cond);
    if a.AtomVal? && ops.truth(a.v).Some? {
      var b := if ops.truth(a.v).value then e.thn else e.els;
      var c1 := c.(k := M.K(None, M.Code(b), r, M.NORMAL, kn));
      n, c2 := SimExpr(ops, fuel, b, c1, kn);
      SimPrefix(ops, fuel, c, 1, c1, s, r, kn, Ev(ops, fuel, Told(kn.target, b), s), n, c2);
      n := n + 1;
    }
  }

  /** The right-hand side of an assignment, up to the assignment itself. */
  lemma {:induction false} SimAssign(ops: Ops, fuel: nat, p: Option<Name>, e: Expr, c: Config, k: Kont)
    returns (n: nat, c2: Config)
    requires (e.Assign? || e.Special?) && At(c, e.e, k) && k.r == c.k.r && k.control != M.NoControl
    requires k.target == Some(if e.Assign? then e.x else User(e.id)) && k.fl == M.NORMAL.(global := e.Special?)
    ensures match Ev(ops, fuel, Told(p, e), M.View(c, c.k.r))
      case Ok(v, s) => n >= 1 && M.Run(ops, false, n, c) == M.Go(c2) && c2.k == k && Post(c, c2, c.k.r, s)
      case Err => Stuck(M.Run(ops, false, n, c))
      case Timeout => n > fuel && M.Run(ops, false, n, c).Go?
    decreases fuel, e, 0, 0
  {
    var r := c.k.r;
    var x := k.target.value;
    n, c2 := SimExpr(ops, fuel, e.e, c, k);
    var res := Ev(ops, fuel, Told(k.target, e.e), M.View(c, r));
    if res.Ok? {
      var c1 := c2;
      PostView(c, c1, r, res.s);
      DeliverAssign(ops, c1, k, x, res.v);
      if e.Special? {
        PostSpecial(c1, r, x, Val(res.v));
        c2 := M.AddSpecialIn(c1, x, Val(res.v)).(k := k);
        PostTrans(c, c1, c2, r, res.s, AddSpecial(res.s, x, Val(res.v)));
      } else {
        PostAdd(c1, r, x, Val(res.v));
        c2 := M.AddIn(c1, r, x, Val(res.v)).(k := k);
        PostTrans(c, c1, c2, r, res.s, Add(res.s, x, Val(res.v)));
      }
    }
  }

  /** An assignment at the end of a list: the variable is read back. */
  lemma {:induction false} SimLastAssign(ops: Ops, fuel: nat, e: Expr, c: Config, kn: Kont) returns (n: nat, c2: Config)
    requires (e.Assign? || e.Special?) && kn.K?
    requires c.k.K? && c.k.r < |c.frames| && SameBody(c.k, M.Chain([e], c.k.r, kn))
    ensures Sim(ops, fuel, c, c.k.r, kn, Ev(ops, fuel, Told(kn.target, e), M.View(c, c.k.r)), n, c2)
    decreases fuel, e, 0, 1
  {
    var r := c.k.r;
    var x := if e.Assign? then e.x else User(e.id);
    var k := M.K(Some(x), M.Code(Sym(x)), r, M.NORMAL.(global := e.Special?), kn);
    n, c2 := SimAssign(ops, fuel, kn.target, e, c, k);
    var t := Told(kn.target, e);
    var res := Ev(ops, fuel, t, M.View(c, r));
    if res.Ok? {
      PostView(c, c2, r, res.s);
      StepAtom(ops, c2, Sym(x), kn);
      AssignedIsFound(ops, fuel, t, M.View(c, r), x);
      M.RunAdd(ops, false, n, 1, c);
      n := n + 1;
    }
  }

  lemma AssignedIsFound(ops: Ops, fuel: nat, e: Expr, s: Store, x: Name)
    requires s.tmps != [] && (e.Assign? || e.Special?) && x == (if e.Assign? then e.x else User(e.id))
    ensures var r := Ev(ops, fuel, e, s); r.Ok? ==> Find(r.s, x) == Some(Val(r.v))
  {
    var a := Ev(ops, fuel, e.e, s);
    if a.Ok? {
      var s' := if e.Assign? then Add(a.s, x, Val(a.v)) else AddSpecial(a.s, x, Val(a.v));
      assert Find(s', x) == Some(Val(a.v));
    }
  }

  /** The first of several elements, up to the start of the rest. */
  lemma {:induction false} SimFirst(ops: Ops, fuel: nat, es: seq<Expr>, c: Config, kn: Kont) returns (n: nat, c2: Config)
    requires |es| > 1 && kn.K?
    requires c.k.K? && c.k.r < |c.frames| && SameBody(c.k, M.Chain(es, c.k.r, kn))
    ensures match Ev(ops, fuel, Told(None, es[0]), M.View(c, c.k.r))
      case Ok(v, s) =>
        M.Run(ops, false, n, c) == M.Go(c2) && Post(c, c2, c.k.r, s) && SameBody(c2.k, M.Chain(es[1..], c.k.r, kn))
      case Err => Stuck(M.Run(ops, false, n, c))
      case Timeout => n > fuel && M.Run(ops, false, n, c).Go?
    decreases fuel, es[0], 2
  {
    hide M.Deliver, M.View, M.Tmps;
    var r, e := c.k.r, es[0];
    var rest := M.Chain(es[1..], r, kn);
    if e.Assign? || e.Special? {
      var x := if e.Assign? then e.x else User(e.id);
      n, c2 := SimAssign(ops, fuel, None, e, c, M.AssignKont(x, e.Special?, false, r, rest));
    } else {
      n, c2 := SimExpr(ops, fuel, e, c, rest);
      var res := Ev(ops, fuel, Told(None, e), M.View(c, r));
      if res.Ok? {
        DeliverOn(ops, c2, rest, res.v);
        c2 := c2.(k := rest);
      }
    }
  }

  lemma {:induction false} SimList(ops: Ops, fuel: nat, es: seq<Expr>, c: Config, kn: Kont) returns (n: nat, c2: Config)
    requires es != [] && kn.K?
    requires c.k.K? && c.k.r < |c.frames| && SameBody(c.k, M.Chain(es, c.k.r, kn))
    ensures Sim(ops, fuel, c, c.k.r, kn, EvSeq(ops, fuel, ToldSeq(kn.target, es), M.View(c, c.k.r)), n, c2)
    decreases fuel, es, 0
  {
    var r, told := c.k.r, ToldSeq(kn.target, es);
    assert told[0] == Told(if |es| == 1 then kn.target else None, es[0]) && told[1..] == ToldSeq(kn.target, es[1..]);
    hide M.Deliver, M.View, M.Tmps, M.Chain, Told, ToldSeq;
    if |es| == 1 {
      assert es == [es[0]];
      n, c2 := SimTerm(ops, fuel, es[0], c, kn);
    } else {
      var s := M.View(c, r);
      n, c2 := SimFirst(ops, fuel, es, c, kn);
      var res := Ev(ops, fuel, told[0], s);
      if res.Ok? {
        var c1, m := c2, n;
        PostView(c, c1, r, res.s);
        n, c2 := SimList(ops, fuel, es[1..], c1, kn);
        SimPrefix(ops, fuel, c, m, c1, res.s, r, kn, EvSeq(ops, fuel, told[1..], res.s), n, c2);
        n := m + n;
      }
    }
  }

  /** An expression that stands where a list is expected. */
  lemma {:induction false} SimTerm(ops: Ops, fuel: nat, e: Expr, c: Config, kn: Kont) returns (n: nat, c2: Config)
    requires kn.K? && c.k.K? && c.k.r < |c.frames| && SameBody(c.k, M.Chain([e], c.k.r, kn))
    ensures Sim(ops, fuel, c, c.k.r, kn, Ev(ops, fuel, Told(kn.target, e), M.View(c, c.k.r)), n, c2)
    decreases fuel, e, 2
  {
    if e.Assign? || e.Special? {
      n, c2 := SimLastAssign(ops, fuel, e, c, kn);
    } else {
      n, c2 := SimExpr(ops, fuel, e, c, kn);
    }
  }

  // ----- Loops -----

  /** The condition or the body of a loop. */
  lemma {:induction false} SimPart(ops: Ops, fuel: nat, e: Expr, c: Config, kn: Kont) returns (n: nat, c2: Config)
    requires kn.K? && M.AsList(e) != []
    requires c.k.K? && c.k.r < |c.frames| && SameBody(c.k, M.Chain(M.AsList(e), c.k.r, kn))
    ensures Sim(ops, fuel, c, c.k.r, kn, Ev(ops, fuel, Told(kn.target, e), M.View(c, c.k.r)), n, c2)
    decreases fuel, e, 3
  {
    if e.Block? {
      n, c2 := SimList(ops, fuel, e.es, c, kn);
    } else {
      n, c2 := SimTerm(ops, fuel, e, c, kn);
    }
  }

  /** From the start of a loop, its frame `fr` left aside, to its end. */
  ghost predicate SimL(ops: Ops, fuel: nat, c: Config, fr: nat, kn: Kont, res: Res, n: nat, c2: Config)
    requires kn.K?
  {
    match res
    case Ok(_, s) =>
      && M.Run(ops, false, n, c) == M.Go(c2) && c2.k == M.EndKont(kn, fr)
      && fr < |c.frames| <= |c2.frames|
      && c2.work == s.work && c2.glob == s.glob && c2.answers == c.answers && c2.slots == c.slots
      && (forall i :: 0 <= i < |c.frames| && i != fr ==> c2.frames[i] == c.frames[i])
      && c2.frames[fr].tmp == map[] && c2.frames[fr].args == []
    case Err => Stuck(M.Run(ops, false, n, c))
    case Timeout => n > fuel && M.Run(ops, false, n, c).Go?
  }

  /** The frame of the loop holds its two continuations. */
  ghost predicate AtLoop(c: Config, w: Expr, kn: Kont, fr: nat) {
    && w.While? && kn.K? && M.AsList(w.cond) != [] && M.AsList(w.body) != []
    && fr < |c.frames| && c.frames[fr].bc == M.CondKont(w.cond, w.body, kn, fr) && c.frames[fr].cc == M.EndKont(kn, fr)
  }

  lemma {:induction false} SimLoop(ops: Ops, fuel: nat, w: Expr, c: Config, kn: Kont, fr: nat)
    returns (n: nat, c2: Config)
    requires AtLoop(c, w, kn, fr) && c.k == c.frames[fr].bc
    ensures var body := Assigned(kn.target, Told(kn.target, w.body));
      SimL(ops, fuel, c, fr, kn, Loop(ops, fuel, Told(None, w.cond), body, M.View(c, fr)), n, c2)
    decreases fuel, w, 0, 0
  {
    var bodyk := M.BodyKont(w.body, kn, fr);
    var s := M.View(c, fr);
    n, c2 := SimPart(ops, fuel, w.cond, c, bodyk);
    var r := Ev(ops, fuel, Told(None, w.cond), s);
    hide Told;
    if r.Ok? {
      var c1, m := c2, n;
      PostView(c, c1, fr, r.s);
      DeliverCond(ops, c1, bodyk, r.v);
      match ops.truth(r.v)
      case None =>
      case Some(false) => c2 := M.Cleared(c1, fr).(k := c1.frames[fr].cc);
      case Some(true) =>
        c1 := c1.(k := bodyk);
        n, c2 := SimIteration(ops, fuel, w, c1, kn, fr);
        M.RunAdd(ops, false, m, n, c);
        n := m + n;
    }
  }

  /** The body of a loop, the assignment of its value to the pending target, and the iterations that follow. */
  lemma {:induction false} SimIteration(ops: Ops, fuel: nat, w: Expr, c: Config, kn: Kont, fr: nat)
    returns (n: nat, c2: Config)
    requires AtLoop(c, w, kn, fr) && c.k == M.BodyKont(w.body, kn, fr)
    ensures var body := Assigned(kn.target, Told(kn.target, w.body));
      var q := Ev(ops, fuel, body, M.View(c, fr));
      SimL(ops, fuel, c, fr, kn,
        if !q.Ok? then q else if fuel == 0 then Timeout else Loop(ops, fuel - 1, Told(None, w.cond), body, q.s), n, c2)
    decreases fuel, w.body, 4
  {
    var s := M.View(c, fr);
    n, c2 := SimPart(ops, fuel, w.body, c, M.EndKont(kn, fr));
    var q := Ev(ops, fuel, Told(kn.target, w.body), s);
    var body := Assigned(kn.target, Told(kn.target, w.body));
    AssignedEv(ops, fuel, kn.target, Told(kn.target, w.body), s);
    hide Told, Ev;
    if q.Ok? {
      var c1, m := c2, n;
      var c3, s3 := Restart(ops, c, c1, kn, fr, q.s, q.v);
      assert M.Run(ops, false, m, c) == M.Go(c3);
      assert Ev(ops, fuel, body, s) == Ok(q.v, s3);
      if fuel == 0 {
        c2 := c3;
      } else {
        n, c2 := SimLoop(ops, fuel - 1, w, c3, kn, fr);
        M.RunAdd(ops, false, m, n, c);
        n := m + n;
      }
    }
  }

  lemma AssignedEv(ops: Ops, fuel: nat, p: Option<Name>, b: Expr, s: Store)
    requires s.tmps != []
    ensures var q := Ev(ops, fuel, b, s);
      Ev(ops, fuel, Assigned(p, b), s) == if q.Ok? && p.Some? then Ok(q.v, Add(q.s, p.value, Val(q.v))) else q
  {}

  /** The end of an iteration, from the delivery of the value of the body. */
  lemma Restart(ops: Ops, c: Config, c1: Config, kn: Kont, fr: nat, s: Store, v: Value) returns (c3: Config, s3: Store)
    requires kn.K? && fr < |c.frames| && Post(c, c1, fr, s)
    ensures s3 == if kn.target.Some? then Add(s, kn.target.value, Val(v)) else s
    ensures M.Deliver(ops, c1, M.EndKont(kn, fr), Val(v)) == M.Go(c3)
    ensures c3.k == c.frames[fr].bc && fr < |c3.frames| && M.View(c3, fr) == s3
    ensures c3.frames[fr].bc == c.frames[fr].bc && c3.frames[fr].cc == c.frames[fr].cc
    ensures c3.answers == c.answers && c3.slots == c.slots && |c.frames| <= |c3.frames|
    ensures forall i :: 0 <= i < |c.frames| && i != fr ==> c3.frames[i] == c.frames[i]
  {
    PostView(c, c1, fr, s);
    DeliverEnd(ops, c1, kn, fr, v);
    c3, s3 := c1, s;
    if kn.target.Some? {
      var x := kn.target.value;
      c3, s3 := M.AddIn(c1, fr, x, Val(v)), Add(s, x, Val(v));
      PostAdd(c1, fr, x, Val(v));
      PostView(c1, c3, fr, s3);
    }
    c3 := c3.(k := c3.frames[fr].bc);
  }

  lemma StepNoLoop(ops: Ops, c: Config, e: Expr, kn: Kont)
    requires At(c, e, kn) && e.While? && (M.AsList(e.cond) == [] || M.AsList(e.body) == [])
    ensures M.Run(ops, false, 1, c) == M.Fail
  {
    M.RunOne(ops, false, c);
  }

  lemma {:induction false} SimWhile(ops: Ops, fuel: nat, e: Expr, c: Config, kn: Kont) returns (n: nat, c2: Config)
    requires At(c, e, kn) && e.While?
    ensures Sim(ops, fuel, c, c.k.r, kn, Ev(ops, fuel, Told(kn.target, e), M.View(c, c.k.r)), n, c2)
    ensures Ev(ops, fuel, Told(kn.target, e), M.View(c, c.k.r)).Ok? ==>
              |c2.frames| > |c.frames| && c2.frames[|c.frames|].tmp == map[] && c2.frames[|c.frames|].args == []
    decreases fuel, e, 0, 1
  {
    n, c2 := 1, c;
    if M.AsList(e.cond) == [] || M.AsList(e.body) == [] {
      StepNoLoop(ops, c, e, kn);
      return;
    }
    var fr, s := |c.frames|, M.View(c, c.k.r);
    var cond, body := Told(None, e.cond), Assigned(kn.target, Told(kn.target, e.body));
    assert Told(kn.target, e) == While(cond, body);
    var c1 := EnterLoop(ops, e, c, kn);
    WhileEv(ops, fuel, cond, body, s);
    hide Told, Assigned, M.CondKont, M.View, M.Tmps, M.Deliver, Ev, Loop, AtLoop, Post, Mentions;
    n, c2 := SimLoop(ops, fuel, e, c1, kn, fr);
    M.RunAdd(ops, false, 1, n, c);
    n := n + 1;
    var res := Loop(ops, fuel, cond, body, Push(s));
    if res.Ok? {
      LoopTail(ops, fuel, cond, body, s);
      AfterLoop(ops, n, c, c1, c2, kn, c.k.r, res.s);
      n := n + 1;
    }
  }

  lemma WhileEv(ops: Ops, fuel: nat, cond: Expr, body: Expr, s: Store)
    requires s.tmps != []
    ensures var r := Loop(ops, fuel, cond, body, Push(s));
      Ev(ops, fuel, While(cond, body), s) == if r.Ok? then Ok(VNull, Pop(r.s)) else r
  {}

  /** The step that opens the frame of a loop. */
  lemma EnterLoop(ops: Ops, e: Expr, c: Config, kn: Kont) returns (c1: Config)
    requires At(c, e, kn) && e.While? && M.AsList(e.cond) != [] && M.AsList(e.body) != []
    ensures M.Run(ops, false, 1, c) == M.Go(c1) && AtLoop(c1, e, kn, |c.frames|) && c1.k == c1.frames[|c.frames|].bc
    ensures |c1.frames| == |c.frames| + 1 && c1.frames[..|c.frames|] == c.frames
    ensures c1.answers == c.answers && c1.slots == c.slots && M.View(c1, |c.frames|) == Push(M.View(c, c.k.r))
  {
    var r, fr := c.k.r, |c.frames|;
    var condk := M.CondKont(e.cond, e.body, kn, fr);
    c1 := c.(frames := c.frames + [M.Frame(map[], Some(r), [], condk, M.EndKont(kn, fr))], k := condk);
    StepWhile(ops, c, e, kn);
    TmpsSame(c.frames, c1.frames, r);
  }

  /** From the end of a loop: its value is delivered, and its frame is left behind. */
  lemma AfterLoop(ops: Ops, n: nat, c: Config, c1: Config, c2: Config, kn: Kont, r: nat, s: Store)
    requires kn.K? && r < |c.frames| && |c1.frames| == |c.frames| + 1 && c1.frames[..|c.frames|] == c.frames
    requires c2.k == M.EndKont(kn, |c.frames|) && |c1.frames| <= |c2.frames|
    requires forall i :: 0 <= i < |c1.frames| && i != |c.frames| ==> c2.frames[i] == c1.frames[i]
    requires c2.work == s.work && c2.glob == s.glob && c2.answers == c.answers && c2.slots == c.slots
    requires s.tmps != [] && s.tmps[1..] == M.View(c, r).tmps && M.Run(ops, false, n, c) == M.Go(c2)
    ensures M.Run(ops, false, n + 1, c) == M.Deliver(ops, c2, kn, Val(VNull)) && Post(c, c2, r, Pop(s))
  {
    forall i | 0 <= i < |c.frames| ensures c2.frames[i] == c.frames[i] {
      assert c1.frames[..|c.frames|][i] == c1.frames[i];
    }
    StepAtom(ops, c2, Lit(VNull), kn);
    M.RunAdd(ops, false, n, 1, c);
  }

  // ----- Calls -----

  /** `c` with its frame `fb` put back to `f`. */
  function WithFrame(c: Config, fb: nat, f: M.Frame): Config
    requires fb < |c.frames|
  {
    c.(frames := c.frames[fb := f])
  }

  function Cells(vs: seq<Value>): seq<Cell> {
    seq(|vs|, i requires 0 <= i < |vs| => Val(vs[i]))
  }

  /** After some arguments: they stand in the frame `fb` of the builtin, the rest is as evaluated. */
  ghost predicate PostArgs(c: Config, c2: Config, r: nat, fb: nat, s: Store, vs: seq<Value>) {
    && r < fb < |c.frames| <= |c2.frames|
    && Post(c, WithFrame(c2, fb, c.frames[fb]), r, s)
    && c2.frames[fb] == c.frames[fb].(args := c.frames[fb].args + Cells(vs))
  }

  lemma PostArgsView(c: Config, c2: Config, r: nat, fb: nat, s: Store, vs: seq<Value>)
    requires PostArgs(c, c2, r, fb, s, vs)
    ensures M.View(c2, r) == s
  {
    PostView(c, WithFrame(c2, fb, c.frames[fb]), r, s);
    TmpsSame(c2.frames, WithFrame(c2, fb, c.frames[fb]).frames, r);
  }

  lemma PostArgsNone(c: Config, r: nat, fb: nat)
    requires r < fb < |c.frames|
    ensures PostArgs(c, c, r, fb, M.View(c, r), [])
  {
    assert c.frames[fb].args + Cells([]) == c.frames[fb].args;
    assert WithFrame(c, fb, c.frames[fb]) == c;
  }

  lemma PostArgsCons(c: Config, c1: Config, c2: Config, c3: Config, r: nat, fb: nat, s1: Store, v: Value, s: Store, vs: seq<Value>)
    requires r < fb < |c.frames| && Post(c, c1, r, s1)
    requires c2.frames == M.AddArgIn(c1, fb, Val(v)).frames
      && c2 == M.AddArgIn(c1, fb, Val(v)).(k := c2.k)
    requires PostArgs(c2, c3, r, fb, s, vs)
    ensures PostArgs(c, c3, r, fb, s, [v] + vs)
  {
    assert Cells([v] + vs) == [Val(v)] + Cells(vs);
    assert c.frames[fb].args + [Val(v)] + Cells(vs) == c.frames[fb].args + Cells([v] + vs);
    var back := WithFrame(c3, fb, c.frames[fb]);
    var same := WithFrame(c3, fb, c2.frames[fb]);
    TmpsSame(c2.frames, c1.frames, r);
    forall i | 0 <= i < |c1.frames| && i != r ensures back.frames[i] == c1.frames[i] {
      assert same.frames[i] == c2.frames[i];
    }
    assert back.frames[r] == same.frames[r];
    PostTrans(c, c1, back, r, s1, s);
  }

  lemma {:induction false} SimArgs(ops: Ops, fuel: nat, args: seq<Arg>, c: Config, r: nat, fb: nat, rest: Kont)
    returns (n: nat, c2: Config)
    requires rest.K? && r < fb < |c.frames| && c.k == M.ArgChain(args, r, fb, rest)
    ensures match EvArgs(ops, fuel, ToldArgs(args), M.View(c, r))
      case ArgsOk(vs, s) => M.Run(ops, false, n, c) == M.Go(c2) && c2.k == rest && PostArgs(c, c2, r, fb, s, vs)
      case ArgsErr => Stuck(M.Run(ops, false, n, c))
      case ArgsTimeout => n > fuel && M.Run(ops, false, n, c).Go?
    decreases fuel, args, 0
  {
    var s := M.View(c, r);
    if args == [] {
      PostArgsNone(c, r, fb);
      return 0, c;
    }
    var told := ToldArgs(args);
    assert told[0].e == Told(Some(User(args[0].formal)), args[0].e) && told[1..] == ToldArgs(args[1..]);
    var after := M.ArgChain(args[1..], r, fb, rest);
    var argk := M.K(Some(User(args[0].formal)), M.NoControl, fb, M.NORMAL.(arg := true), after);
    ArgChainIsK(args[1..], r, fb, rest);
    assert At(c, args[0].e, argk) && c.k.r == r;
    hide Ev, Told, ToldArgs;
    n, c2 := SimExpr(ops, fuel, args[0].e, c, argk);
    var res := Ev(ops, fuel, told[0].e, s);
    hide M.ArgChain, Post, PostArgs, M.Deliver, M.View;
    if res.Ok? {
      var c1, m := c2, n;
      var c3 := ArgArrives(ops, m, c, c1, r, fb, argk, res.v, res.s);
      n, c2 := SimArgs(ops, fuel, args[1..], c3, r, fb, rest);
      M.RunAdd(ops, false, m, n, c);
      n := m + n;
      var q := EvArgs(ops, fuel, told[1..], res.s);
      if q.ArgsOk? { PostArgsCons(c, c1, c3, c2, r, fb, res.s, res.v, q.s, q.vs); }
    }
  }

  /** The value of an argument joins those in the frame of the call. */
  lemma ArgArrives(ops: Ops, m: nat, c: Config, c1: Config, r: nat, fb: nat, argk: Kont, v: Value, s: Store) returns (c3: Config)
    requires Post(c, c1, r, s) && r < fb < |c.frames| && argk.K? && argk.r == fb && argk.next.K?
    requires argk.target.Some? && argk.control == M.NoControl && argk.fl == M.NORMAL.(arg := true)
    requires M.Run(ops, false, m, c) == M.Deliver(ops, c1, argk, Val(v))
    ensures |c3.frames| == |c1.frames| >= |c.frames| && fb < |c1.frames|
    ensures c3 == M.AddArgIn(c1, fb, Val(v)).(k := argk.next) && M.Run(ops, false, m, c) == M.Go(c3)
    ensures r < |c3.frames| && M.View(c3, r) == s
  {
    DeliverArg(ops, c1, argk, v);
    c3 := M.AddArgIn(c1, fb, Val(v)).(k := argk.next);
    PostView(c, c1, r, s);
    TmpsSame(c1.frames, c3.frames, r);
  }

  lemma ArgChainIsK(args: seq<Arg>, r: nat, fb: nat, rest: Kont)
    requires rest.K?
    ensures M.ArgChain(args, r, fb, rest).K?
  {
  }

  lemma {:induction false} SimCall(ops: Ops, fuel: nat, e: Expr, c: Config, kn: Kont) returns (n: nat, c2: Config)
    requires At(c, e, kn) && e.Call?
    ensures Sim(ops, fuel, c, c.k.r, kn, Ev(ops, fuel, Told(kn.target, e), M.View(c, c.k.r)), n, c2)
    decreases fuel, e, 0
  {
    var r, fb := c.k.r, |c.frames|;
    var s := M.View(c, r);
    n, c2 := 1, c;
    StepCall(ops, c, e, kn);
    if !M.AtomOk(e.head) {
      NoAtomStuck(ops, e.head, s);
      return;
    }
    if !e.head.Sym? { AtomEv(ops, fuel, e.head, s); }
    var a := M.EvalHead(ops, s, e.head);
    if a.AtomVal? && a.v.VBuiltin? {
      var sentinel := M.K(None, M.NoControl, fb, M.NORMAL.(end := true), kn);
      var invoke := M.K(None, M.Invoke(a.v.name), fb, M.NORMAL, sentinel);
      var c1 := c.(frames := c.frames + [M.Frame(map[], Some(r), [], M.Nil, M.Nil)],
                   k := M.ArgChain(e.args, r, fb, invoke));
      n, c2 := SimBuiltin(ops, fuel, e.args, a.v.name, c, c1, kn);
      M.RunAdd(ops, false, 1, n, c);
      n := n + 1;
    }
  }

  /** A call from the moment its frame has been pushed. */
  lemma {:induction false} SimBuiltin(ops: Ops, fuel: nat, args: seq<Arg>, b: string, c: Config, c1: Config, kn: Kont)
    returns (n: nat, c2: Config)
    requires c.k.K? && c.k.r < |c.frames| && kn.K?
    requires c1.answers == c.answers && c1.slots == c.slots && c1.work == c.work && c1.glob == c.glob
    requires c1.frames == c.frames + [M.Frame(map[], Some(c.k.r), [], M.Nil, M.Nil)]
    requires var sentinel := M.K(None, M.NoControl, |c.frames|, M.NORMAL.(end := true), kn);
      c1.k == M.ArgChain(args, c.k.r, |c.frames|, M.K(None, M.Invoke(b), |c.frames|, M.NORMAL, sentinel))
    ensures match Invoke(ops, b, EvArgs(ops, fuel, ToldArgs(args), M.View(c, c.k.r)))
      case Ok(v, s) => n >= 1 && M.Run(ops, false, n, c1) == M.Deliver(ops, c2, kn, Val(v)) && Post(c, c2, c.k.r, s)
      case Err => Stuck(M.Run(ops, false, n, c1))
      case Timeout => n > fuel && M.Run(ops, false, n, c1).Go?
    decreases fuel, args, 1
  {
    var r, fb := c.k.r, |c.frames|;
    TmpsSame(c.frames, c1.frames, r);
    n, c2 := SimArgs(ops, fuel, args, c1, r, fb,
                     M.K(None, M.Invoke(b), fb, M.NORMAL, M.K(None, M.NoControl, fb, M.NORMAL.(end := true), kn)));
    hide ToldArgs, EvArgs;
    var ar := EvArgs(ops, fuel, ToldArgs(args), M.View(c, r));
    if ar.ArgsOk? {
      PostArgsView(c1, c2, r, fb, ar.s, ar.vs);
      assert c2.frames[fb].args == Cells(ar.vs);
      SimInvoke(ops, c2, b, kn, r, ar.vs, ar.s);
      PostCall(c, c1, c2, r, ar.s, ar.vs);
      M.RunAdd(ops, false, n, 1, c1);
      n := n + 1;
    }
  }

  lemma PostCall(c: Config, c1: Config, c2: Config, r: nat, s: Store, vs: seq<Value>)
    requires r < |c.frames| && |c1.frames| == |c.frames| + 1 && c1.frames[..|c.frames|] == c.frames
    requires c1.answers == c.answers && c1.slots == c.slots
    requires PostArgs(c1, c2, r, |c.frames|, s, vs)
    ensures Post(c, c2, r, s)
  {
    forall i | 0 <= i < |c.frames| ensures c1.frames[i] == c.frames[i] {
      assert c1.frames[..|c.frames|][i] == c1.frames[i];
    }
    TmpsSame(c.frames, c1.frames, r);
    var back := WithFrame(c2, |c.frames|, c1.frames[|c.frames|]);
    forall i | 0 <= i < |c.frames| ensures c2.frames[i] == back.frames[i] {
    }
  }

  lemma SimInvoke(ops: Ops, c: Config, b: string, kn: Kont, r: nat, vs: seq<Value>, s: Store)
    requires c.k.K? && c.k.control == M.Invoke(b) && r < c.k.r < |c.frames| && M.View(c, r) == s
    requires c.k.next == M.K(None, M.NoControl, c.k.r, M.NORMAL.(end := true), kn)
    requires c.frames[c.k.r].up == Some(r) && c.frames[c.k.r].args == Cells(vs)
    ensures match Invoke(ops, b, ArgsOk(vs, s))
      case Ok(v, s') => s' == s && M.Run(ops, false, 1, c) == M.Deliver(ops, c, kn, Val(v))
      case _ => M.Run(ops, false, 1, c) == M.Fail
  {
    StepInvoke(ops, c, b);
    assert M.Values(Cells(vs)) == vs;
    assert !M.HasFuture(Cells(vs));
  }

  // ----- The theorem -----

  /** After `n` steps the machine, started on `e`, has reached its end in `c`. */
  ghost predicate HaltsAt(ops: Ops, e: Expr, s: Store, n: nat, c: Config) {
    M.Run(ops, false, n, M.Start(e, s.work, s.glob)) == M.Go(c) && c.k == M.HALT
  }

  ghost predicate Evaluates(ops: Ops, e: Expr, s: Store, v: Value, work: map<Name, Cell>, glob: map<Name, Cell>)
    requires s.tmps != []
  {
    exists fuel: nat, s': Store :: Ev(ops, fuel, e, s) == Ok(v, s') && s'.work[M.LAST := Val(v)] == work && s'.glob == glob
  }

  lemma {:induction false} StuckStays(ops: Ops, c: Config, n: nat, m: nat)
    requires n <= m && Stuck(M.Run(ops, false, n, c))
    ensures M.Run(ops, false, m, c) == M.Run(ops, false, n, c)
  {
    M.RunAdd(ops, false, n, m - n, c);
  }

  /** Once at the end, the machine neither moves nor fails. */
  lemma HaltIsIdle(ops: Ops, e: Expr, s: Store, n: nat, c: Config, m: nat)
    requires HaltsAt(ops, e, s, n, c) && m > n
    ensures M.Run(ops, false, m, M.Start(e, s.work, s.glob)) == M.Idle
  {
    var c0 := M.Start(e, s.work, s.glob);
    M.RunStep(ops, false, n, c0, c);
    M.RunAdd(ops, false, n + 1, m - n - 1, c0);
  }

  /** The whole program, from the evaluator's side. */
  lemma SimProgram(ops: Ops, fuel: nat, e: Expr, s: Store) returns (n: nat, c: Config)
    requires s.tmps == [map[]]
    ensures match Ev(ops, fuel, Told(None, e), s)
      case Ok(v, s') => HaltsAt(ops, e, s, n, c) && c.work == s'.work[M.LAST := Val(v)] && c.glob == s'.glob
      case Err => Stuck(M.Run(ops, false, n, M.Start(e, s.work, s.glob)))
      case Timeout => n > fuel && M.Run(ops, false, n, M.Start(e, s.work, s.glob)).Go?
  {
    var c0 := M.Start(e, s.work, s.glob);
    assert M.View(c0, 0) == s;
    var c2;
    n, c2 := SimExpr(ops, fuel, e, c0, M.HALT);
    c := c2;
    var r := Ev(ops, fuel, Told(None, e), s);
    hide Ev, Told;
    if r.Ok? {
      c := M.AddIn(c2, 0, M.LAST, Val(r.v)).(k := M.HALT);
      assert M.Deliver(ops, c2, M.HALT, Val(r.v)) == M.Go(c);
    }
  }

  /** The machine reaches its end with the value `v` and these frames of the user. */
  ghost predicate Halts(ops: Ops, e: Expr, s: Store, v: Value, work: map<Name, Cell>, glob: map<Name, Cell>) {
    exists n: nat, c: Config ::
      HaltsAt(ops, e, s, n, c) && c.work == work && c.glob == glob && M.LAST in work && work[M.LAST] == Val(v)
  }

  lemma HaltedIsTold(ops: Ops, e: Expr, s: Store, n: nat, c: Config, v: Value)
    requires s.tmps == [map[]] && HaltsAt(ops, e, s, n, c) && M.LAST in c.work && c.work[M.LAST] == Val(v)
    ensures Evaluates(ops, Told(None, e), s, v, c.work, c.glob)
  {
    var m, d := SimProgram(ops, n, e, s);
    hide Ev, Told;
    if m > n { HaltIsIdle(ops, e, s, n, c, m); }
    var r := Ev(ops, n, Told(None, e), s);
    if r.Err? {
      StuckStays(ops, M.Start(e, s.work, s.glob), m, n);
    } else if r.Ok? {
      if m < n { HaltIsIdle(ops, e, s, m, d, n); }
      assert c == d && r.v == v;
      assert Ev(ops, n, Told(None, e), s) == Ok(v, r.s);
    }
  }

  lemma ToldHalts(ops: Ops, fuel: nat, e: Expr, s: Store, v: Value, s': Store)
    requires s.tmps == [map[]] && Ev(ops, fuel, Told(None, e), s) == Ok(v, s')
    ensures Halts(ops, e, s, v, s'.work[M.LAST := Val(v)], s'.glob)
  {
    var n, c := SimProgram(ops, fuel, e, s);
    hide Ev, Told;
    assert HaltsAt(ops, e, s, n, c);
  }

  /**
   * The exact law, for every program: the machine halts with a value and variables if and only if the evaluator gives
   * them for the program in which every loop assigns the value of its body to the name that is pending.
   */
  lemma MachineRunsTold(ops: Ops, e: Expr, s: Store, v: Value, work: map<Name, Cell>, glob: map<Name, Cell>)
    requires s.tmps == [map[]]
    ensures Halts(ops, e, s, v, work, glob) <==> Evaluates(ops, Told(None, e), s, v, work, glob)
  {
    hide Evaluates, Halts, Told;
    if Evaluates(ops, Told(None, e), s, v, work, glob) {
      EvaluatedToldHalts(ops, e, s, v, work, glob);
    }
    if Halts(ops, e, s, v, work, glob) {
      HaltsAsTold(ops, e, s, v, work, glob);
    }
  }

  lemma EvaluatedToldHalts(ops: Ops, e: Expr, s: Store, v: Value, work: map<Name, Cell>, glob: map<Name, Cell>)
    requires s.tmps == [map[]] && Evaluates(ops, Told(None, e), s, v, work, glob)
    ensures Halts(ops, e, s, v, work, glob)
  {
    hide Ev, Told, Halts;
    var fuel: nat, s' :|
      Ev(ops, fuel, Told(None, e), s) == Ok(v, s') && s'.work[M.LAST := Val(v)] == work && s'.glob == glob;
    ToldHalts(ops, fuel, e, s, v, s');
  }

  lemma HaltsAsTold(ops: Ops, e: Expr, s: Store, v: Value, work: map<Name, Cell>, glob: map<Name, Cell>)
    requires s.tmps == [map[]] && Halts(ops, e, s, v, work, glob)
    ensures Evaluates(ops, Told(None, e), s, v, work, glob)
  {
    hide HaltsAt, Told, Evaluates;
    var n: nat, c: Config :|
      HaltsAt(ops, e, s, n, c) && c.work == work && c.glob == glob && M.LAST in work && work[M.LAST] == Val(v);
    HaltedIsTold(ops, e, s, n, c, v);
  }

  // ----- Programs on which that is the evaluator itself -----

  lemma OtherEvaluates(ops: Ops, fuel: nat, e: Expr, t: Expr, s: Store, v: Value, s': Store)
    requires s.tmps != [] && Ev(ops, fuel, e, s) == Ok(v, s')
    requires Alike(ops, fuel, e, t, s)
    ensures Evaluates(ops, t, s, v, s'.work[M.LAST := Val(v)], s'.glob)
  {
    hide Ev;
    var r := Ev(ops, fuel, t, s);
    assert r == Ok(v, r.s) && r.s.work == s'.work && r.s.glob == s'.glob;
  }

  /** When two programs agree with any fuel, one evaluates as the other does. */
  lemma LikeEvaluates(ops: Ops, e: Expr, t: Expr, s: Store, v: Value, work: map<Name, Cell>, glob: map<Name, Cell>)
    requires s.tmps != [] && Evaluates(ops, e, s, v, work, glob)
    requires forall fuel: nat :: Alike(ops, fuel, e, t, s)
    ensures Evaluates(ops, t, s, v, work, glob)
  {
    hide Ev;
    var fuel: nat, s' :| Ev(ops, fuel, e, s) == Ok(v, s') && s'.work[M.LAST := Val(v)] == work && s'.glob == glob;
    assert Alike(ops, fuel, e, t, s);
    hide Evaluates;
    OtherEvaluates(ops, fuel, e, t, s, v, s');
  }

  ghost predicate Alike(ops: Ops, fuel: nat, e: Expr, t: Expr, s: Store)
    requires s.tmps != []
  {
    AgreeRes(Ev(ops, fuel, e, s), Ev(ops, fuel, t, s), iset{}) || AgreeRes(Ev(ops, fuel, t, s), Ev(ops, fuel, e, s), iset{})
  }

  lemma ToldEvaluates(ops: Ops, e: Expr, s: Store, v: Value, work: map<Name, Cell>, glob: map<Name, Cell>)
    requires Settled(None, e) && s.tmps != []
    ensures Evaluates(ops, Told(None, e), s, v, work, glob) <==> Evaluates(ops, e, s, v, work, glob)
  {
    var t := Told(None, e);
    assert Agree(s, s, iset{}) && Apart(e, iset{});
    forall fuel: nat ensures Alike(ops, fuel, e, t, s) && Alike(ops, fuel, t, e, s) {
      ToldAgree(ops, fuel, None, e, s, s, iset{});
    }
    hide Ev, Told, Settled, Agree, Apart, Alike, Evaluates;
    if Evaluates(ops, e, s, v, work, glob) { LikeEvaluates(ops, e, t, s, v, work, glob); }
    if Evaluates(ops, t, s, v, work, glob) { LikeEvaluates(ops, t, e, s, v, work, glob); }
  }

  /** Programs that the machine can run are settled, also under a generated name that they do not mention. */
  lemma {:induction false} RunnableSettled(p: Option<Name>, e: Expr)
    requires Runnable(e) && (p.Some? && TailLoops(e) ==> IsTemporary(p.value) && p.value !in Mentions(e))
    ensures Settled(p, e)
    decreases e, 1
  {
    match e
    case Block(es) => RunnableSeqSettled(p, es);
    case While(c, b) =>
      RunnableSettled(None, c);
      RunnableSettled(p, b);
    case IfElse(_, t, f) =>
      RunnableSettled(p, t);
      RunnableSettled(p, f);
    case For(l) => RunnableSettled(p, l);
    case Assign(x, a) => RunnableSettled(Some(x), a);
    case Special(id, a) => RunnableSettled(Some(User(id)), a);
    case Call(_, args) => RunnableArgsSettled(args);
    case _ =>
  }

  lemma {:induction false} RunnableSeqSettled(p: Option<Name>, es: seq<Expr>)
    requires RunnableSeq(es)
    requires p.Some? && es != [] && TailLoops(es[|es| - 1]) ==> IsTemporary(p.value) && p.value !in MentionsSeq(es)
    ensures SettledSeq(p, es)
    decreases es, 0
  {
    if es != [] {
      RunnableSettled(if |es| == 1 then p else None, es[0]);
      RunnableSeqSettled(p, es[1..]);
    }
  }

  lemma {:induction false} RunnableArgsSettled(args: seq<Arg>)
    requires RunnableArgs(args)
    ensures SettledArgs(args)
    decreases args, 0
  {
    if args != [] {
      RunnableSettled(Some(User(args[0].formal)), args[0].e);
      RunnableArgsSettled(args[1..]);
    }
  }

  /** The machine halts exactly on the settled programs that the evaluator gives a value to, with that value
      and the same variables.  It never halts when the evaluator fails or goes on for ever. */
  lemma SettledRefines(ops: Ops, e: Expr, s: Store, v: Value, work: map<Name, Cell>, glob: map<Name, Cell>)
    requires Settled(None, e) && s.tmps == [map[]]
    ensures Evaluates(ops, e, s, v, work, glob) <==> Halts(ops, e, s, v, work, glob)
  {
    hide Settled, Evaluates, Halts;
    ToldEvaluates(ops, e, s, v, work, glob);
    MachineRunsTold(ops, e, s, v, work, glob);
  }

  /** In particular on the programs that the conversion makes. */
  lemma MachineRefinesEvaluator(ops: Ops, e: Expr, s: Store, v: Value, work: map<Name, Cell>, glob: map<Name, Cell>)
    requires Runnable(e) && s.tmps == [map[]]
    ensures Evaluates(ops, e, s, v, work, glob) <==> Halts(ops, e, s, v, work, glob)
  {
    RunnableSettled(None, e);
    hide Settled, Evaluates, Halts, Runnable;
    SettledRefines(ops, e, s, v, work, glob);
  }

  lemma HaltedIsEvaluated(ops: Ops, e: Expr, s: Store, n: nat, c: Config, v: Value)
    requires Runnable(e) && s.tmps == [map[]]
    requires HaltsAt(ops, e, s, n, c) && M.LAST in c.work && c.work[M.LAST] == Val(v)
    ensures Evaluates(ops, e, s, v, c.work, c.glob)
  {
    HaltedIsTold(ops, e, s, n, c, v);
    RunnableSettled(None, e);
    hide HaltsAt, Evaluates, Runnable, Settled;
    ToldEvaluates(ops, e, s, v, c.work, c.glob);
  }

  lemma EvaluatedHalts(ops: Ops, fuel: nat, e: Expr, s: Store, v: Value, s': Store)
    requires Runnable(e) && s.tmps == [map[]]
    requires Ev(ops, fuel, e, s) == Ok(v, s')
    ensures Halts(ops, e, s, v, s'.work[M.LAST := Val(v)], s'.glob)
  {
    hide Ev, Runnable, Halts;
    MachineRefinesEvaluator(ops, e, s, v, s'.work[M.LAST := Val(v)], s'.glob);
  }

  /**
   * Where assignments go: `x <- a` binds the name in the working frame and leaves the global one alone; `x <<- a` rebinds
   * it there only when it is bound there, and otherwise binds it globally and leaves the working frame alone.
   */
  lemma WhereAssignmentsGo(ops: Ops, id: string, a: Expr, s: Store, v: Value)
    requires M.AtomOk(a) && s.tmps == [map[]] && Ev(ops, 0, a, s) == Ok(v, s)
    ensures Halts(ops, Assign(User(id), a), s, v, s.work[User(id) := Val(v)][M.LAST := Val(v)], s.glob)
    ensures User(id) in s.work ==> Halts(ops, Special(id, a), s, v, s.work[User(id) := Val(v)][M.LAST := Val(v)], s.glob)
    ensures User(id) !in s.work ==> Halts(ops, Special(id, a), s, v, s.work[M.LAST := Val(v)], s.glob[User(id) := Val(v)])
  {
    assert Runnable(a) && !TailLoops(a);
    var s1, s2 := Add(s, User(id), Val(v)), AddSpecial(s, User(id), Val(v));
    assert Ev(ops, 0, Assign(User(id), a), s) == Ok(v, s1);
    assert Ev(ops, 0, Special(id, a), s) == Ok(v, s2);
    hide Ev, Halts;
    EvaluatedHalts(ops, 0, Assign(User(id), a), s, v, s1);
    EvaluatedHalts(ops, 0, Special(id, a), s, v, s2);
  }

  /** A builtin is looked up again when its arguments are there: `f(x = f <- g)` calls `g`. */
  lemma ArgumentRebindsCallee(ops: Ops, f: string, g: string, x: string, s: Store, v: Value)
    requires s.tmps == [map[]] && FindFunction(s, User(f)) == Some(f) && Find(s, User(g)) == Some(Val(VBuiltin(g)))
    requires ops.builtin(g, [VBuiltin(g)]) == Some(v)
    ensures Halts(ops, Call(Sym(User(f)), [Arg(x, Assign(User(f), Sym(User(g))))]), s, v,
                  s.work[User(f) := Val(VBuiltin(g))][M.LAST := Val(v)], s.glob)
  {
    var h, a := Sym(User(f)), Assign(User(f), Sym(User(g)));
    var args := [Arg(x, a)];
    var s1 := Add(s, User(f), Val(VBuiltin(g)));
    assert Ev(ops, 0, Sym(User(g)), s) == Ok(VBuiltin(g), s);
    assert Ev(ops, 0, a, s) == Ok(VBuiltin(g), s1);
    assert args[1..] == [] && EvArgs(ops, 0, args[1..], s1) == ArgsOk([], s1) && [VBuiltin(g)] + [] == [VBuiltin(g)];
    assert EvArgs(ops, 0, args, s) == ArgsOk([VBuiltin(g)], s1);
    assert FindFunction(s1, User(f)) == Some(g);
    assert Ev(ops, 0, Call(h, args), s) == Ok(v, s1);
    assert RunnableArgs(args[1..]) && Runnable(a) && Runnable(Call(h, args));
    hide Ev, Halts, Runnable;
    EvaluatedHalts(ops, 0, Call(h, args), s, v, s1);
  }
}
