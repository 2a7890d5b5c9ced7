/** The code that requests send: it is converted with the program, so that the machine of the peer can run it. */
module SentCode {
  import opened Wrappers
  import opened Ast
  import opened Eval
  import opened AnfRunnable
  import A = Anf
  import W = AnfMeaning
  import R = MachineRefines
  import M = Machine

  // ----- Code that is sent -----

  /** All code that the program sends, and that this code sends in turn, can be run by a machine. */
  predicate SendsRunnable(e: Expr)
    decreases e, 1
  {
    match e
    case Unop(_, a) => SendsRunnable(a)
    case Binop(_, l, r) => SendsRunnable(l) && SendsRunnable(r)
    case Block(es) => SendsRunnableSeq(es)
    case While(c, b) => SendsRunnable(c) && SendsRunnable(b)
    case IfElse(c, t, f) => SendsRunnable(c) && SendsRunnable(t) && SendsRunnable(f)
    case For(l) => SendsRunnable(l)
    case Assign(_, a) => SendsRunnable(a)
    case Special(_, a) => SendsRunnable(a)
    case Request(c, q) => SendsRunnable(c) && R.Runnable(q) && SendsRunnable(q)
    case Call(h, args) => SendsRunnable(h) && SendsRunnableArgs(args)
    case _ => true
  }

  predicate SendsRunnableSeq(es: seq<Expr>)
    decreases es, 0
  {
    es == [] || (SendsRunnable(es[0]) && SendsRunnableSeq(es[1..]))
  }

  predicate SendsRunnableArgs(args: seq<Arg>)
    decreases args, 0
  {
    args == [] || (SendsRunnable(args[0].e) && SendsRunnableArgs(args[1..]))
  }

  /** The code of every request in the source is convertible; in an operand `x <<- e` it must be runnable as it stands. */
  predicate SendsConvertible(e: Expr)
    decreases e, 0
  {
    match e
    case Unop(_, a) => SendsConvertibleName(a)
    case Binop(_, l, r) => SendsConvertibleName(l) && SendsConvertibleName(r)
    case Block(es) => SendsConvertibleSeq(es)
    case While(c, b) => SendsConvertible(c) && SendsConvertible(b)
    case IfElse(c, t, f) => SendsConvertibleName(c) && SendsConvertible(t) && SendsConvertible(f)
    case For(l) => SendsConvertible(l)
    case Assign(_, a) => if a.Call? then SendsConvertible(a) else SendsConvertibleName(a)
    case Special(_, a) => if a.Call? then SendsConvertible(a) else SendsConvertibleName(a)
    case Request(c, q) => SendsConvertibleName(c) && Convertible(q) && SendsConvertible(q)
    case Call(h, args) => SendsConvertibleName(h) && SendsConvertibleArgs(args)
    case _ => true
  }

  predicate SendsConvertibleName(e: Expr)
    decreases e, 1
  {
    if Strip(e).Special? then SendsRunnable(Strip(e)) else SendsConvertible(Strip(e))
  }

  predicate SendsConvertibleSeq(es: seq<Expr>)
    decreases es, 0
  {
    es == [] || (SendsConvertible(es[0]) && SendsConvertibleSeq(es[1..]))
  }

  predicate SendsConvertibleArgs(args: seq<Arg>)
    decreases args, 0
  {
    args == [] || (SendsConvertible(args[0].e) && SendsConvertibleArgs(args[1..]))
  }

  /** The code of every request is as the parser makes it. */
  predicate SentSource(e: Expr)
    decreases e, 1
  {
    match e
    case Unop(_, a) => SentSource(a)
    case Binop(_, l, r) => SentSource(l) && SentSource(r)
    case Block(es) => SentSourceSeq(es)
    case While(c, b) => SentSource(c) && SentSource(b)
    case IfElse(c, t, f) => SentSource(c) && SentSource(t) && SentSource(f)
    case For(l) => SentSource(l)
    case Assign(_, a) => SentSource(a)
    case Special(_, a) => SentSource(a)
    case Request(c, q) => SentSource(c) && WellFormed(q) && W.NoAnf(Mentions(q)) && SentSource(q)
    case Call(h, args) => SentSource(h) && SentSourceArgs(args)
    case _ => true
  }

  predicate SentSourceSeq(es: seq<Expr>)
    decreases es, 0
  {
    es == [] || (SentSource(es[0]) && SentSourceSeq(es[1..]))
  }

  predicate SentSourceArgs(args: seq<Arg>)
    decreases args, 0
  {
    args == [] || (SentSource(args[0].e) && SentSourceArgs(args[1..]))
  }

  // ----- What the conversion makes of it -----

  lemma SendsConcat(a: seq<Expr>, b: seq<Expr>)
    ensures SendsRunnableSeq(a + b) == (SendsRunnableSeq(a) && SendsRunnableSeq(b))
  {
    if a == [] {
      assert a + b == b;
    } else {
      assert (a + b)[1..] == a[1..] + b;
      SendsConcat(a[1..], b);
    }
  }

  lemma SendsOne(e: Expr)
    ensures SendsRunnableSeq([e]) == SendsRunnable(e)
  {
    assert [e][1..] == [];
    assert SendsRunnableSeq([]);
  }

  /** All code sent by what is left of a statement and by what it hoists can be run exactly when it is convertible. */
  lemma {:induction false} NormSends(e: Expr, g: nat)
    requires SentSource(e)
    ensures var n := A.Norm(e, g); SendsRunnableSeq(n.pre) && SendsRunnable(n.e) <==> SendsConvertible(e)
    decreases e, 0
  {
    match e
    case Call(h, args) =>
      NameSends(h, g);
      ArgsSends(args, A.NormName(h, g).g);
    case Assign(_, a) => if a.Call? { NormSends(a, g); } else { NameSends(a, g); }
    case Special(_, a) => if a.Call? { NormSends(a, g); } else { NameSends(a, g); }
    case Unop(_, a) => NameSends(a, g);
    case Binop(_, l, r) =>
      var n := A.NormName(l, g);
      NameSends(l, g);
      NameSends(r, n.g);
      SendsConcat(n.pre, A.NormName(r, n.g).pre);
    case Block(es) => TermsSends(es, g);
    case IfElse(c, t, f) =>
      var g1 := A.NormName(c, g).g;
      NameSends(c, g);
      TermSends(t, g1);
      TermSends(f, A.NormTerm(t, g1).1);
    case While(c, b) =>
      TermSends(c, g);
      TermSends(b, A.NormTerm(c, g).1);
    case For(l) => TermSends(l, g);
    case Request(c, q) =>
      var g1 := A.NormName(c, g).g;
      NameSends(c, g);
      TermRunnable(q, g1);
      TermSends(q, g1);
    case _ =>
  }

  lemma {:induction false} NameSends(e: Expr, g: nat)
    requires SentSource(e)
    ensures var n := A.NormName(e, g); SendsRunnableSeq(n.pre) && SendsRunnable(n.e) <==> SendsConvertibleName(e)
    decreases e, 1
  {
    var s := Strip(e);
    assert SentSource(s);
    if s.Assign? {
      var n := A.Norm(s, g);
      NormSends(s, g);
      var save := Assign(Name.Anf(n.g), Sym(s.x));
      assert [n.e, save] == [n.e] + [save];
      SendsConcat(n.pre, [n.e, save]);
      SendsConcat([n.e], [save]);
      SendsOne(n.e);
      SendsOne(save);
    } else if s.Special? {
      SendsOne(s);
    } else if !A.IsAtomic(s) {
      var n := A.Norm(s, g + 1);
      NormSends(s, g + 1);
      SendsConcat(n.pre, [Assign(Name.Anf(g), n.e)]);
      SendsOne(Assign(Name.Anf(g), n.e));
    } else {
      NormSends(s, g);
    }
  }

  lemma StripSends(es: seq<Expr>)
    ensures SendsRunnable(Strip(Block(es))) == SendsRunnableSeq(es)
  {
    if |es| == 1 {
      assert es == [es[0]];
      SendsOne(es[0]);
    }
  }

  lemma {:induction false} TermSends(e: Expr, g: nat)
    requires SentSource(e)
    ensures SendsRunnable(A.NormTerm(e, g).0) <==> SendsConvertible(e)
    decreases e, 2
  {
    if e.Block? {
      ListSends(e.es, g);
      StripSends(A.NormList(e.es, g).0);
    } else {
      var n := A.Norm(e, g);
      NormSends(e, g);
      SendsConcat(n.pre, [n.e]);
      SendsOne(n.e);
      StripSends(n.pre + [n.e]);
    }
  }

  /** A program: all code that it sends once converted can be run by a machine exactly when the source's is convertible. */
  lemma {:induction false} ListSends(es: seq<Expr>, g: nat)
    requires SentSourceSeq(es)
    ensures SendsRunnableSeq(A.NormList(es, g).0) <==> SendsConvertibleSeq(es)
    decreases es, 0
  {
    if es != [] {
      var n := A.Norm(es[0], g);
      NormSends(es[0], g);
      ListSends(es[1..], n.g);
      SendsConcat(n.pre + [n.e], A.NormList(es[1..], n.g).0);
      SendsConcat(n.pre, [n.e]);
      SendsOne(n.e);
    }
  }

  lemma {:induction false} TermsSends(es: seq<Expr>, g: nat)
    requires SentSourceSeq(es)
    ensures SendsRunnableSeq(A.NormTerms(es, g).0) <==> SendsConvertibleSeq(es)
    decreases es, 0
  {
    if es != [] {
      TermSends(es[0], g);
      var (e', g1) := A.NormTerm(es[0], g);
      var rest := A.NormTerms(es[1..], g1).0;
      TermsSends(es[1..], g1);
      assert ([e'] + rest)[1..] == rest;
    }
  }

  lemma {:induction false} ArgsSends(args: seq<Arg>, g: nat)
    requires SentSourceArgs(args)
    ensures SendsRunnableArgs(A.NormArgs(args, g).0) <==> SendsConvertibleArgs(args)
    decreases args, 0
  {
    if args != [] {
      TermSends(args[0].e, g);
      var (e', g1) := A.NormTerm(args[0].e, g);
      var rest := A.NormArgs(args[1..], g1).0;
      ArgsSends(args[1..], g1);
      assert ([Arg(args[0].formal, e')] + rest)[1..] == rest;
    }
  }

  /**
   * What a converted request sends, run by the machine of the peer, gives exactly what the evaluator gives there for the
   * code as it was written.
   */
  lemma SentRunsAsWritten(ops: Ops, c: Expr, q: Expr, g: nat, s: Store, v: Value, work: map<Name, Cell>, glob: map<Name, Cell>)
    requires s.tmps == [map[]] && W.RemoteNormal(ops) && W.Source(q, true) && WellFormed(q) && Convertible(q)
    ensures var n := A.Norm(Request(c, q), g);
      n.e.Request? && (R.Halts(ops, n.e.e, s, v, work, glob) <==> R.Evaluates(ops, q, s, v, work, glob))
  {
    var g1 := A.NormName(c, g).g;
    var t := A.NormTerm(q, g1).0;
    assert A.Norm(Request(c, q), g).e.e == t;
    TermRunnable(q, g1);
    hide Convertible, WellFormed, R.Halts, A.NormTerm;
    R.MachineRefinesEvaluator(ops, t, s, v, work, glob);
    TermEvaluates(ops, q, g1, s, v, work, glob);
  }

  lemma TermGives(ops: Ops, fuel: nat, q: Expr, g: nat, s: Store, v: Value, s': Store)
    requires s.tmps == [map[]] && W.RemoteNormal(ops) && W.Source(q, true) && Ev(ops, fuel, q, s) == Ok(v, s')
    ensures R.Evaluates(ops, A.NormTerm(q, g).0, s, v, s'.work[M.LAST := Val(v)], s'.glob)
  {
    W.TermSound(ops, fuel, q, g, s, s, true);
    hide Ev, A.NormTerm, W.Source, W.RemoteNormal;
    var r := Ev(ops, fuel, A.NormTerm(q, g).0, s);
    assert r == Ok(v, r.s) && r.s.work == s'.work && r.s.glob == s'.glob;
  }

  lemma TermGiven(ops: Ops, fuel: nat, q: Expr, g: nat, s: Store, v: Value, s': Store)
    requires s.tmps == [map[]] && W.RemoteNormal(ops) && W.Source(q, true) && Ev(ops, fuel, A.NormTerm(q, g).0, s) == Ok(v, s')
    ensures R.Evaluates(ops, q, s, v, s'.work[M.LAST := Val(v)], s'.glob)
  {
    W.TermSound(ops, fuel, q, g, s, s, true);
    hide Ev, A.NormTerm, W.Source, W.RemoteNormal;
    var r := Ev(ops, fuel, q, s);
    assert r == Ok(v, r.s) && r.s.work == s'.work && r.s.glob == s'.glob;
  }

  lemma TermEvaluates(ops: Ops, q: Expr, g: nat, s: Store, v: Value, work: map<Name, Cell>, glob: map<Name, Cell>)
    requires s.tmps == [map[]] && W.RemoteNormal(ops) && W.Source(q, true)
    ensures R.Evaluates(ops, q, s, v, work, glob) <==> R.Evaluates(ops, A.NormTerm(q, g).0, s, v, work, glob)
  {
    hide A.NormTerm, Ev, W.Source, W.RemoteNormal, R.Evaluates;
    if R.Evaluates(ops, q, s, v, work, glob) { TermForth(ops, q, g, s, v, work, glob); }
    if R.Evaluates(ops, A.NormTerm(q, g).0, s, v, work, glob) { TermBack(ops, q, g, s, v, work, glob); }
  }

  lemma TermForth(ops: Ops, q: Expr, g: nat, s: Store, v: Value, work: map<Name, Cell>, glob: map<Name, Cell>)
    requires s.tmps == [map[]] && W.RemoteNormal(ops) && W.Source(q, true) && R.Evaluates(ops, q, s, v, work, glob)
    ensures R.Evaluates(ops, A.NormTerm(q, g).0, s, v, work, glob)
  {
    hide A.NormTerm, Ev, W.Source, W.RemoteNormal;
    var fuel: nat, s' :| Ev(ops, fuel, q, s) == Ok(v, s') && s'.work[M.LAST := Val(v)] == work && s'.glob == glob;
    hide R.Evaluates;
    TermGives(ops, fuel, q, g, s, v, s');
  }

  lemma TermBack(ops: Ops, q: Expr, g: nat, s: Store, v: Value, work: map<Name, Cell>, glob: map<Name, Cell>)
    requires s.tmps == [map[]] && W.RemoteNormal(ops) && W.Source(q, true)
    requires R.Evaluates(ops, A.NormTerm(q, g).0, s, v, work, glob)
    ensures R.Evaluates(ops, q, s, v, work, glob)
  {
    hide A.NormTerm, Ev, W.Source, W.RemoteNormal;
    var fuel: nat, s' :|
      Ev(ops, fuel, A.NormTerm(q, g).0, s) == Ok(v, s') && s'.work[M.LAST := Val(v)] == work && s'.glob == glob;
    hide R.Evaluates;
    TermGiven(ops, fuel, q, g, s, v, s');
  }

  // ----- What the machine sends while it runs -----

  predicate KontSends(k: M.Kont) {
    k.K? ==> (k.control.Code? ==> SendsRunnable(k.control.e)) && KontSends(k.next)
  }

  ghost predicate ConfigSends(c: M.Config) {
    KontSends(c.k) && forall i :: 0 <= i < |c.frames| ==> KontSends(c.frames[i].bc) && KontSends(c.frames[i].cc)
  }

  lemma {:induction false} SkipEndSends(k: M.Kont)
    requires KontSends(k)
    ensures KontSends(M.SkipEnd(k))
  {
    if k.K? && k.fl.end { SkipEndSends(k.next); }
  }

  lemma AssignedKeepsLoops(c: M.Config, k: M.Kont, v: Cell)
    requires k.K? && k.r < |c.frames|
    ensures var c1 := M.Assigned(c, k, v);
      && c1.k == c.k && |c1.frames| == |c.frames|
      && forall i :: 0 <= i < |c.frames| ==> c1.frames[i].bc == c.frames[i].bc && c1.frames[i].cc == c.frames[i].cc
  {}

  lemma SlotSetKeepsLoops(c: M.Config, v: Cell, p: M.Slot)
    ensures var c1 := M.SlotSet(c, v, p); c1.k == c.k && c1.frames == c.frames
  {}

  lemma AssignedSends(c: M.Config, k: M.Kont, v: Cell)
    requires ConfigSends(c) && k.K? && k.r < |c.frames|
    ensures var c1 := M.SlotSet(M.Assigned(c, k, v), v, M.Place(c, k)); ConfigSends(c1) && |c1.frames| == |c.frames|
  {
    AssignedKeepsLoops(c, k, v);
    SlotSetKeepsLoops(M.Assigned(c, k, v), v, M.Place(c, k));
    hide M.SlotSet, M.Assigned, M.Place, KontSends;
  }

  lemma FlowSends(ops: Ops, c: M.Config, k: M.Kont, v: Cell)
    requires ConfigSends(c) && k.K? && KontSends(k) && k.r < |c.frames|
    ensures var r := M.Flow(ops, c, k, v); r.Go? ==> ConfigSends(r.c)
  {
    assert KontSends(c.frames[k.r].bc) && KontSends(c.frames[k.r].cc);
  }

  lemma DeliverSends(ops: Ops, c: M.Config, k0: M.Kont, v: Cell)
    requires ConfigSends(c) && KontSends(k0)
    ensures var r := M.Deliver(ops, c, k0, v); r.Go? ==> ConfigSends(r.c)
  {
    SkipEndSends(k0);
    var k := M.SkipEnd(k0);
    if k.K? && k.r < |c.frames| {
      AssignedSends(c, k, v);
      hide ConfigSends, KontSends, M.Flow, M.Assigned, M.SlotSet, M.Place;
      FlowSends(ops, M.SlotSet(M.Assigned(c, k, v), v, M.Place(c, k)), k, v);
    }
  }

  lemma {:induction false} ChainSends(es: seq<Expr>, r: nat, k: M.Kont)
    requires es != [] && SendsRunnableSeq(es) && KontSends(k)
    ensures KontSends(M.Chain(es, r, k))
  {
    if |es| > 1 { ChainSends(es[1..], r, k); }
  }

  lemma {:induction false} ArgChainSends(args: seq<Arg>, r: nat, fb: nat, k: M.Kont)
    requires SendsRunnableArgs(args) && KontSends(k)
    ensures KontSends(M.ArgChain(args, r, fb, k))
  {
    if args != [] { ArgChainSends(args[1..], r, fb, k); }
  }

  lemma PartSends(e: Expr, r: nat, k: M.Kont)
    requires SendsRunnable(e) && M.AsList(e) != [] && KontSends(k)
    ensures KontSends(M.Chain(M.AsList(e), r, k))
  {
    SendsOne(e);
    ChainSends(M.AsList(e), r, k);
  }

  lemma PushSends(c: M.Config, f: M.Frame, k: M.Kont)
    requires ConfigSends(c) && KontSends(f.bc) && KontSends(f.cc) && KontSends(k)
    ensures ConfigSends(c.(frames := c.frames + [f], k := k))
  {}

  lemma LoopSends(c: M.Config, cond: Expr, body: Expr)
    requires ConfigSends(c) && c.k.K? && c.k.r < |c.frames| && SendsRunnable(cond) && SendsRunnable(body)
    ensures var r := M.StepWhile(c, cond, body); r.Go? ==> ConfigSends(r.c)
  {
    if c.k.next.K? && M.AsList(cond) != [] && M.AsList(body) != [] {
      var fr := |c.frames|;
      PartSends(body, fr, M.EndKont(c.k.next, fr));
      PartSends(cond, fr, M.BodyKont(body, c.k.next, fr));
      var k := M.CondKont(cond, body, c.k.next, fr);
      PushSends(c, M.Frame(map[], Some(c.k.r), [], k, M.EndKont(c.k.next, fr)), k);
    }
  }

  lemma CallSends(ops: Ops, c: M.Config, h: Expr, args: seq<Arg>)
    requires ConfigSends(c) && c.k.K? && c.k.r < |c.frames| && SendsRunnableArgs(args)
    ensures var r := M.StepCall(ops, c, h, args); r.Go? ==> ConfigSends(r.c)
  {
    var a := M.EvalHead(ops, M.View(c, c.k.r), h);
    if a.AtomVal? && a.v.VBuiltin? {
      var fb := |c.frames|;
      var sentinel := M.K(None, M.NoControl, fb, M.NORMAL.(end := true), c.k.next);
      var invoke := M.K(None, M.Invoke(a.v.name), fb, M.NORMAL, sentinel);
      ArgChainSends(args, c.k.r, fb, invoke);
      PushSends(c, M.Frame(map[], Some(c.k.r), [], M.Nil, M.Nil), M.ArgChain(args, c.k.r, fb, invoke));
    }
  }

  lemma RequestSends(ops: Ops, async: bool, c: M.Config, con: Expr, q: Expr)
    requires ConfigSends(c) && c.k.K? && c.k.r < |c.frames|
    ensures var r := M.StepRequest(ops, async, c, con, q); r.Go? ==> ConfigSends(r.c)
  {
    var a := M.EvalAtom(ops, M.View(c, c.k.r), con);
    if a.AtomVal? && a.v.VConn? {
      var w := ops.remote(a.v.peer, q);
      DeliverSends(ops, c, c.k.next, Val(w));
      DeliverSends(ops, c.(answers := c.answers + [w], slots := c.slots + [M.Nowhere]), c.k.next, Fut(|c.answers|));
    }
  }

  /** Every step keeps it. */
  lemma StepSends(ops: Ops, async: bool, c: M.Config)
    requires ConfigSends(c)
    ensures var r := M.Step(ops, async, c); r.Go? ==> ConfigSends(r.c)
  {
    if c.k.K? && c.k.r < |c.frames| {
      match c.k.control
      case NoControl =>
      case Invoke(b) =>
        var f := c.frames[c.k.r];
        if f.up.Some? && f.up.value < |c.frames| {
          var g := FindFunction(M.View(c, f.up.value), User(b));
          if g.Some? && ops.builtin(g.value, M.Values(f.args)).Some? {
            DeliverSends(ops, c, c.k.next, Val(ops.builtin(g.value, M.Values(f.args)).value));
          }
        }
      case Code(e) => CodeSends(ops, async, c, e);
    }
  }

  lemma CodeSends(ops: Ops, async: bool, c: M.Config, e: Expr)
    requires ConfigSends(c) && c.k.K? && c.k.r < |c.frames| && c.k.control == M.Code(e)
    ensures var r := M.Step(ops, async, c); r.Go? ==> ConfigSends(r.c)
  {
    match e
    case Lit(_) | Sym(_) | Unop(_, _) | Binop(_, _, _) =>
      var a := M.EvalAtom(ops, M.View(c, c.k.r), e);
      if a.AtomVal? { DeliverSends(ops, c, c.k.next, Val(a.v)); }
    case Assign(_, _) | Special(_, _) =>
      SendsOne(e);
      ChainSends([e], c.k.r, c.k.next);
    case Block(es) => if es != [] { ChainSends(es, c.k.r, c.k.next); }
    case Request(con, q) => RequestSends(ops, async, c, con, q);
    case IfElse(_, _, _) =>
    case Call(h, args) => CallSends(ops, c, h, args);
    case While(cond, body) => LoopSends(c, cond, body);
    case For(l) =>
      assert SendsRunnable(l);
      if l.Block? && l.es != [] { ChainSends(l.es, c.k.r, c.k.next); }
    case _ =>
  }

  lemma {:induction false} RunSends(ops: Ops, async: bool, n: nat, c: M.Config)
    requires ConfigSends(c)
    ensures var r := M.Run(ops, async, n, c); r.Go? ==> ConfigSends(r.c)
  {
    if n > 0 {
      RunSends(ops, async, n - 1, c);
      M.RunAdd(ops, async, n - 1, 1, c);
      var r := M.Run(ops, async, n - 1, c);
      if r.Go? {
        M.RunOne(ops, async, r.c);
        StepSends(ops, async, r.c);
      }
    }
  }

  /** Whatever request a converted program comes to, however often and in whichever order: the peer can run what it is sent. */
  lemma EveryRequestIsRunnable(ops: Ops, async: bool, n: nat, es: seq<Expr>, g: nat, work: map<Name, Cell>, glob: map<Name, Cell>,
                               c: M.Config, con: Expr, q: Expr)
    requires SentSourceSeq(es) && SendsConvertibleSeq(es)
    requires M.Run(ops, async, n, M.Start(Block(A.NormList(es, g).0), work, glob)) == M.Go(c)
    requires c.k.K? && c.k.control == M.Code(Request(con, q))
    ensures R.Runnable(q) && SendsRunnable(q)
  {
    ListSends(es, g);
    hide A.NormList, SentSourceSeq, SendsConvertibleSeq;
    StartSends(A.NormList(es, g).0, work, glob);
    RunSends(ops, async, n, M.Start(Block(A.NormList(es, g).0), work, glob));
  }

  lemma StartSends(es: seq<Expr>, work: map<Name, Cell>, glob: map<Name, Cell>)
    requires SendsRunnableSeq(es)
    ensures ConfigSends(M.Start(Block(es), work, glob))
  {
    assert KontSends(M.HALT);
  }
}
