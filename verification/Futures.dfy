/** Remote futures (src/interp_ctx.cpp, src/valuevar.cpp): a run in which requests are answered at any
    time and in any order computes what the run in which they are answered at once computes. */
module Futures {
  import opened Wrappers
  import opened Ast
  import M = Machine
  import R = MachineRefines

  type Config = M.Config
  type Kont = M.Kont

  // ----- The two runs side by side -----

  /** What the blocking run holds is the value, or the future of it. */
  ghost predicate CellRel(a: Cell, s: Cell, answers: seq<Value>) {
    s.Val? && (a == s || (a.Fut? && a.n < |answers| && answers[a.n] == s.v))
  }

  ghost predicate MapRel(a: map<Name, Cell>, s: map<Name, Cell>, answers: seq<Value>) {
    a.Keys == s.Keys && forall x :: x in a ==> CellRel(a[x], s[x], answers)
  }

  ghost predicate ArgsRel(a: seq<Cell>, s: seq<Cell>, answers: seq<Value>) {
    |a| == |s| && forall i :: 0 <= i < |a| ==> CellRel(a[i], s[i], answers)
  }

  ghost predicate FrameRel(a: M.Frame, s: M.Frame, answers: seq<Value>) {
    && a.up == s.up && a.bc == s.bc && a.cc == s.cc
    && MapRel(a.tmp, s.tmp, answers) && ArgsRel(a.args, s.args, answers)
  }

  /** The run that waits for its answers, `a`, and the run that has them at once, `s`. */
  ghost predicate Related(a: Config, s: Config) {
    && a.k == s.k && |a.frames| == |s.frames| && |a.slots| == |a.answers| && s.slots == []
    && MapRel(a.work, s.work, a.answers) && MapRel(a.glob, s.glob, a.answers)
    && (forall i :: 0 <= i < |a.frames| ==> FrameRel(a.frames[i], s.frames[i], a.answers))
    && (forall i :: 0 <= i < |a.answers| ==> !a.answers[i].VBuiltin?)
  }

  ghost predicate RelatedRes(a: M.StepRes, s: M.StepRes) {
    match a
    case Go(c) => s.Go? && Related(c, s.c)
    case Fail => s.Fail?
    case Blocked => true
    case Idle => s.Idle?
  }

  /** Values that are functions cannot be sent. */
  ghost predicate Transmissible(ops: Ops) {
    forall k: nat, e :: !ops.remote(k, e).VBuiltin?
  }

  // ----- Lookups -----

  ghost predicate TmpsRel(a: seq<map<Name, Cell>>, s: seq<map<Name, Cell>>, answers: seq<Value>) {
    |a| == |s| && forall i :: 0 <= i < |a| ==> MapRel(a[i], s[i], answers)
  }

  ghost predicate StoreRel(a: Store, s: Store, answers: seq<Value>) {
    && MapRel(a.work, s.work, answers) && MapRel(a.glob, s.glob, answers) && TmpsRel(a.tmps, s.tmps, answers)
    && forall i :: 0 <= i < |answers| ==> !answers[i].VBuiltin?
  }

  lemma {:induction false} TmpsRelated(a: Config, s: Config, r: nat)
    requires Related(a, s) && r < |a.frames|
    ensures TmpsRel(M.Tmps(a.frames, r), M.Tmps(s.frames, r), a.answers)
  {
    var f := a.frames[r];
    assert FrameRel(f, s.frames[r], a.answers);
    if f.up.Some? && f.up.value < r { TmpsRelated(a, s, f.up.value); }
  }

  lemma ViewRelated(a: Config, s: Config, r: nat)
    requires Related(a, s) && r < |a.frames|
    ensures StoreRel(M.View(a, r), M.View(s, r), a.answers)
  {
    TmpsRelated(a, s, r);
  }

  ghost predicate FoundRel(a: Option<Cell>, s: Option<Cell>, answers: seq<Value>) {
    match a case None => s.None? case Some(c) => s.Some? && CellRel(c, s.value, answers)
  }

  lemma {:induction false} FindRelated(a: Store, s: Store, answers: seq<Value>, x: Name)
    requires StoreRel(a, s, answers)
    ensures FoundRel(Find(a, x), Find(s, x), answers)
    ensures FindFunction(a, x) == FindFunction(s, x)
  {
    FindTmpRelated(a.tmps, s.tmps, answers, x);
  }

  lemma {:induction false} FindTmpRelated(a: seq<map<Name, Cell>>, s: seq<map<Name, Cell>>, answers: seq<Value>, x: Name)
    requires TmpsRel(a, s, answers) && forall i :: 0 <= i < |answers| ==> !answers[i].VBuiltin?
    ensures FoundRel(FindTemporary(a, x), FindTemporary(s, x), answers)
    ensures FindFunctionTemporary(a, x) == FindFunctionTemporary(s, x)
  {
    if a != [] {
      assert MapRel(a[0], s[0], answers);
      FindTmpRelated(a[1..], s[1..], answers, x);
    }
  }

  /** An atom has the same value in both runs, or the blocking run cannot evaluate it yet. */
  lemma {:induction false} AtomRelated(ops: Ops, a: Store, s: Store, answers: seq<Value>, e: Expr)
    requires StoreRel(a, s, answers)
    ensures var r := M.EvalAtom(ops, a, e); r.AtomBlocked? || r == M.EvalAtom(ops, s, e)
  {
    match e
    case Sym(x) => FindRelated(a, s, answers, x);
    case Unop(_, b) => AtomRelated(ops, a, s, answers, b);
    case Binop(_, l, r) => AtomRelated(ops, a, s, answers, l); AtomRelated(ops, a, s, answers, r);
    case _ =>
  }

  lemma HeadRelated(ops: Ops, a: Store, s: Store, answers: seq<Value>, e: Expr)
    requires StoreRel(a, s, answers)
    ensures var r := M.EvalHead(ops, a, e); r.AtomBlocked? || r == M.EvalHead(ops, s, e)
  {
    if e.Sym? { FindRelated(a, s, answers, e.x); } else { AtomRelated(ops, a, s, answers, e); }
  }

  // ----- Deliveries -----

  lemma FramesRelated(a: Config, s: Config, r: nat, f: M.Frame, g: M.Frame)
    requires Related(a, s) && r < |a.frames| && FrameRel(f, g, a.answers)
    ensures Related(a.(frames := a.frames[r := f]), s.(frames := s.frames[r := g]))
  {
  }

  lemma MapAdd(a: map<Name, Cell>, s: map<Name, Cell>, answers: seq<Value>, x: Name, va: Cell, vs: Cell)
    requires MapRel(a, s, answers) && CellRel(va, vs, answers)
    ensures MapRel(a[x := va], s[x := vs], answers)
  {
  }

  lemma AddRelated(a: Config, s: Config, r: nat, x: Name, va: Cell, vs: Cell)
    requires Related(a, s) && r < |a.frames| && CellRel(va, vs, a.answers)
    ensures Related(M.AddIn(a, r, x, va), M.AddIn(s, r, x, vs))
  {
    var f, g := a.frames[r], s.frames[r];
    assert FrameRel(f, g, a.answers);
    if IsTemporary(x) {
      MapAdd(f.tmp, g.tmp, a.answers, x, va, vs);
      FramesRelated(a, s, r, f.(tmp := f.tmp[x := va]), g.(tmp := g.tmp[x := vs]));
    } else {
      MapAdd(a.work, s.work, a.answers, x, va, vs);
    }
  }

  lemma AssignedRelated(a: Config, s: Config, k: Kont, va: Cell, vs: Cell)
    requires Related(a, s) && k.K? && k.r < |a.frames| && CellRel(va, vs, a.answers)
    ensures Related(M.Assigned(a, k, va), M.Assigned(s, k, vs))
    ensures |M.Assigned(a, k, va).frames| == |a.frames|
  {
    if k.target.Some? && k.fl.arg {
      var f, g := a.frames[k.r], s.frames[k.r];
      assert FrameRel(f, g, a.answers);
      FramesRelated(a, s, k.r, f.(args := f.args + [va]), g.(args := g.args + [vs]));
    } else if k.target.Some? && k.fl.global {
      var x := k.target.value;
      MapAdd(a.work, s.work, a.answers, x, va, vs);
      MapAdd(a.glob, s.glob, a.answers, x, va, vs);
    } else if k.target.Some? {
      AddRelated(a, s, k.r, k.target.value, va, vs);
    } else if k.next.Nil? {
      AddRelated(a, s, k.r, M.LAST, va, vs);
    }
  }

  lemma FlowRelated(ops: Ops, a: Config, s: Config, k: Kont, va: Cell, vs: Cell)
    requires Related(a, s) && k.K? && k.r < |a.frames| && CellRel(va, vs, a.answers) && (va.Fut? ==> !k.fl.cond)
    ensures RelatedRes(M.Flow(ops, a, k, va), M.Flow(ops, s, k, vs))
  {
    var f, g := a.frames[k.r], s.frames[k.r];
    assert FrameRel(f, g, a.answers);
    if k.fl.cond && ops.truth(vs.v) == Some(false) {
      FramesRelated(a, s, k.r, M.Frame(map[], f.up, [], M.Nil, M.Nil), M.Frame(map[], g.up, [], M.Nil, M.Nil));
    }
  }

  lemma DeliverRelated(ops: Ops, a: Config, s: Config, k0: Kont, va: Cell, vs: Cell)
    requires Related(a, s) && CellRel(va, vs, a.answers)
    requires var k := M.SkipEnd(k0); va.Fut? && k.K? ==> !k.fl.cond
    ensures RelatedRes(M.Deliver(ops, a, k0, va), M.Deliver(ops, s, k0, vs))
  {
    var k := M.SkipEnd(k0);
    if k.K? && k.r < |a.frames| {
      AssignedRelated(a, s, k, va, vs);
      var a1 := M.SlotSet(M.Assigned(a, k, va), va, M.Place(a, k));
      var s1 := M.SlotSet(M.Assigned(s, k, vs), vs, M.Place(s, k));
      FlowRelated(ops, a1, s1, k, va, vs);
    }
  }

  // ----- Conditions -----

  /** The value of a request may be the value of `e`. */
  predicate TailRequests(e: Expr) {
    match e
    case Request(_, _) => true
    case Block(es) => es != [] && TailRequests(es[|es| - 1])
    case IfElse(_, t, f) => TailRequests(t) || TailRequests(f)
    case For(l) => TailRequests(l)
    case _ => false
  }

  /** No loop has a request as its condition. */
  predicate CondsOk(e: Expr)
    decreases e, 1
  {
    match e
    case Unop(_, a) => CondsOk(a)
    case Binop(_, l, r) => CondsOk(l) && CondsOk(r)
    case Block(es) => CondsOkSeq(es)
    case While(c, b) => CondsOk(c) && CondsOk(b) && !TailRequests(c)
    case IfElse(c, t, f) => CondsOk(c) && CondsOk(t) && CondsOk(f)
    case For(l) => CondsOk(l)
    case Assign(_, a) => CondsOk(a)
    case Special(_, a) => CondsOk(a)
    case Call(h, args) => CondsOk(h) && CondsOkArgs(args)
    case _ => true
  }

  predicate CondsOkSeq(es: seq<Expr>)
    decreases es, 0
  {
    es == [] || (CondsOk(es[0]) && CondsOkSeq(es[1..]))
  }

  predicate CondsOkArgs(args: seq<Arg>)
    decreases args, 0
  {
    args == [] || (CondsOk(args[0].e) && CondsOkArgs(args[1..]))
  }

  /** No request in the chain is about to hand its future to a condition. */
  predicate KontSafe(k: Kont) {
    k.K? ==>
      && (k.control.Code? ==> CondsOk(k.control.e) && (TailRequests(k.control.e) ==> Unconditional(k.next)))
      && KontSafe(k.next)
  }

  predicate Unconditional(k: Kont) {
    var l := M.SkipEnd(k); l.K? ==> !l.fl.cond
  }

  ghost predicate Safe(c: Config) {
    KontSafe(c.k) && forall i :: 0 <= i < |c.frames| ==> KontSafe(c.frames[i].bc) && KontSafe(c.frames[i].cc)
  }

  ghost predicate SafeRes(r: M.StepRes) {
    r.Go? ==> Safe(r.c)
  }

  lemma {:induction false} SkipEndSafe(k: Kont)
    requires KontSafe(k)
    ensures KontSafe(M.SkipEnd(k))
  {
    if k.K? && k.fl.end { SkipEndSafe(k.next); }
  }

  lemma AssignedSafe(c: Config, k: Kont, v: Cell)
    requires Safe(c) && k.K? && k.r < |c.frames|
    ensures Safe(M.Assigned(c, k, v)) && |M.Assigned(c, k, v).frames| == |c.frames|
  {
    var c' := M.Assigned(c, k, v);
    forall i | 0 <= i < |c'.frames| ensures KontSafe(c'.frames[i].bc) && KontSafe(c'.frames[i].cc) {
      assert c'.frames[i].bc == c.frames[i].bc && c'.frames[i].cc == c.frames[i].cc;
    }
  }

  lemma DeliverSafe(ops: Ops, c: Config, k0: Kont, v: Cell)
    requires Safe(c) && KontSafe(k0)
    ensures SafeRes(M.Deliver(ops, c, k0, v))
  {
    SkipEndSafe(k0);
    var k := M.SkipEnd(k0);
    if k.K? && k.r < |c.frames| {
      AssignedSafe(c, k, v);
      var c1 := M.SlotSet(M.Assigned(c, k, v), v, M.Place(c, k));
      assert Safe(c1);
      FlowSafe(ops, c1, k, v);
    }
  }

  lemma FlowSafe(ops: Ops, c: Config, k: Kont, v: Cell)
    requires Safe(c) && k.K? && KontSafe(k) && k.r < |c.frames|
    ensures SafeRes(M.Flow(ops, c, k, v))
  {
    assert KontSafe(c.frames[k.r].bc) && KontSafe(c.frames[k.r].cc);
  }

  lemma {:induction false} ChainSafe(es: seq<Expr>, r: nat, k: Kont)
    requires es != [] && CondsOkSeq(es) && KontSafe(k) && (TailRequests(es[|es| - 1]) ==> Unconditional(k))
    ensures KontSafe(M.Chain(es, r, k))
  {
    var rest := k;
    if |es| > 1 {
      ChainSafe(es[1..], r, k);
      rest := M.Chain(es[1..], r, k);
    }
    match es[0]
    case Assign(x, a) => AssignKontSafe(x, false, |es| == 1, r, rest);
    case Special(x, a) => AssignKontSafe(User(x), true, |es| == 1, r, rest);
    case _ =>
  }

  lemma AssignKontSafe(x: Name, global: bool, last: bool, r: nat, rest: Kont)
    requires KontSafe(rest) && (rest.K? && !last ==> !rest.fl.cond && !rest.fl.end)
    ensures var k := M.AssignKont(x, global, last, r, rest); KontSafe(k) && Unconditional(k)
  {
  }

  lemma {:induction false} ArgChainSafe(args: seq<Arg>, r: nat, fb: nat, k: Kont)
    requires CondsOkArgs(args) && KontSafe(k)
    ensures KontSafe(M.ArgChain(args, r, fb, k))
  {
    if args != [] { ArgChainSafe(args[1..], r, fb, k); }
  }

  lemma ListSafe(es: seq<Expr>)
    ensures CondsOk(Block(es)) == CondsOkSeq(es)
  {
  }

  /** The condition and the body of a loop, seen as lists. */
  lemma PartSafe(e: Expr, r: nat, k: Kont)
    requires CondsOk(e) && M.AsList(e) != [] && KontSafe(k) && (TailRequests(e) ==> Unconditional(k))
    ensures KontSafe(M.Chain(M.AsList(e), r, k))
  {
    if !e.Block? {
      assert [e][1..] == [];
      assert CondsOkSeq([e]) == (CondsOk(e) && CondsOkSeq([]));
    }
    ChainSafe(M.AsList(e), r, k);
  }

  // ----- One step -----

  lemma AtomStep(ops: Ops, a: Config, s: Config, e: Expr)
    requires Related(a, s) && Safe(a) && a.k.K? && a.k.r < |a.frames|
    ensures var r := M.DeliverAtom(ops, a, a.k.next, M.EvalAtom(ops, M.View(a, a.k.r), e));
      RelatedRes(r, M.DeliverAtom(ops, s, s.k.next, M.EvalAtom(ops, M.View(s, s.k.r), e))) && SafeRes(r)
  {
    ViewRelated(a, s, a.k.r);
    AtomRelated(ops, M.View(a, a.k.r), M.View(s, s.k.r), a.answers, e);
    var r := M.EvalAtom(ops, M.View(a, a.k.r), e);
    if r.AtomVal? {
      DeliverRelated(ops, a, s, a.k.next, Val(r.v), Val(r.v));
      DeliverSafe(ops, a, a.k.next, Val(r.v));
    }
  }

  lemma InvokeStep(ops: Ops, a: Config, s: Config, b: string)
    requires Related(a, s) && Safe(a) && a.k.K? && a.k.r < |a.frames|
    ensures var r := M.StepInvoke(ops, a, b); RelatedRes(r, M.StepInvoke(ops, s, b)) && SafeRes(r)
  {
    var f, g := a.frames[a.k.r], s.frames[s.k.r];
    assert FrameRel(f, g, a.answers);
    if f.up.Some? && f.up.value < |a.frames| {
      ViewRelated(a, s, f.up.value);
      FindRelated(M.View(a, f.up.value), M.View(s, f.up.value), a.answers, User(b));
      var h := FindFunction(M.View(a, f.up.value), User(b));
      if h.Some? && !M.HasFuture(f.args) {
        SameValues(f.args, g.args, a.answers);
        var v := ops.builtin(h.value, M.Values(f.args));
        if v.Some? {
          DeliverRelated(ops, a, s, a.k.next, Val(v.value), Val(v.value));
          DeliverSafe(ops, a, a.k.next, Val(v.value));
        }
      }
    }
  }

  lemma SameValues(a: seq<Cell>, s: seq<Cell>, answers: seq<Value>)
    requires ArgsRel(a, s, answers) && !M.HasFuture(a)
    ensures a == s && !M.HasFuture(s)
  {
    forall i | 0 <= i < |a| ensures a[i] == s[i] && a[i].Val? {
    }
  }

  lemma MapGrows(m: map<Name, Cell>, n: map<Name, Cell>, answers: seq<Value>, v: Value)
    requires MapRel(m, n, answers)
    ensures MapRel(m, n, answers + [v])
  {
  }

  lemma SentRelated(a: Config, s: Config, v: Value)
    requires Related(a, s) && !v.VBuiltin?
    ensures Related(a.(answers := a.answers + [v], slots := a.slots + [M.Nowhere]), s)
  {
    var answers := a.answers + [v];
    MapGrows(a.work, s.work, a.answers, v);
    MapGrows(a.glob, s.glob, a.answers, v);
    forall i | 0 <= i < |a.frames| ensures FrameRel(a.frames[i], s.frames[i], answers) {
      var f, g := a.frames[i], s.frames[i];
      assert FrameRel(f, g, a.answers);
      MapGrows(f.tmp, g.tmp, a.answers, v);
    }
  }

  lemma RequestStep(ops: Ops, a: Config, s: Config, con: Expr, e: Expr)
    requires Related(a, s) && Safe(a) && Transmissible(ops) && a.k.K? && a.k.r < |a.frames|
    requires a.k.control == M.Code(Request(con, e))
    ensures var r := M.StepRequest(ops, true, a, con, e);
      RelatedRes(r, M.StepRequest(ops, false, s, con, e)) && SafeRes(r)
  {
    ViewRelated(a, s, a.k.r);
    AtomRelated(ops, M.View(a, a.k.r), M.View(s, s.k.r), a.answers, con);
    var r := M.EvalAtom(ops, M.View(a, a.k.r), con);
    if r.AtomVal? && r.v.VConn? {
      var v := ops.remote(r.v.peer, e);
      var a1 := a.(answers := a.answers + [v], slots := a.slots + [M.Nowhere]);
      SentRelated(a, s, v);
      assert Safe(a1);
      DeliverRelated(ops, a1, s, a.k.next, Fut(|a.answers|), Val(v));
      DeliverSafe(ops, a1, a.k.next, Fut(|a.answers|));
    }
  }

  lemma IfStep(ops: Ops, a: Config, s: Config, e: Expr)
    requires Related(a, s) && Safe(a) && a.k.K? && a.k.r < |a.frames| && e.IfElse? && a.k.control == M.Code(e)
    ensures var r := M.StepIf(ops, a, e.cond, e.thn, e.els);
      RelatedRes(r, M.StepIf(ops, s, e.cond, e.thn, e.els)) && SafeRes(r)
  {
    ViewRelated(a, s, a.k.r);
    AtomRelated(ops, M.View(a, a.k.r), M.View(s, s.k.r), a.answers, e.cond);
  }

  lemma PushRelated(a: Config, s: Config, f: M.Frame)
    requires Related(a, s) && f.tmp == map[] && f.args == []
    ensures Related(a.(frames := a.frames + [f]), s.(frames := s.frames + [f]))
  {
  }

  lemma PushSafe(c: Config, f: M.Frame, k: Kont)
    requires Safe(c) && KontSafe(f.bc) && KontSafe(f.cc) && KontSafe(k)
    ensures Safe(c.(frames := c.frames + [f], k := k))
  {
  }

  lemma CallStep(ops: Ops, a: Config, s: Config, e: Expr)
    requires Related(a, s) && Safe(a) && a.k.K? && a.k.r < |a.frames| && e.Call? && a.k.control == M.Code(e)
    ensures var r := M.StepCall(ops, a, e.head, e.args);
      RelatedRes(r, M.StepCall(ops, s, e.head, e.args)) && SafeRes(r)
  {
    ViewRelated(a, s, a.k.r);
    HeadRelated(ops, M.View(a, a.k.r), M.View(s, s.k.r), a.answers, e.head);
    var r := M.EvalHead(ops, M.View(a, a.k.r), e.head);
    if r.AtomVal? && r.v.VBuiltin? {
      var fb := |a.frames|;
      var sentinel := M.K(None, M.NoControl, fb, M.NORMAL.(end := true), a.k.next);
      var invoke := M.K(None, M.Invoke(r.v.name), fb, M.NORMAL, sentinel);
      var f := M.Frame(map[], Some(a.k.r), [], M.Nil, M.Nil);
      ArgChainSafe(e.args, a.k.r, fb, invoke);
      PushRelated(a, s, f);
      PushSafe(a, f, M.ArgChain(e.args, a.k.r, fb, invoke));
    }
  }

  lemma WhileStep(a: Config, s: Config, e: Expr)
    requires Related(a, s) && Safe(a) && a.k.K? && a.k.r < |a.frames| && e.While? && a.k.control == M.Code(e)
    ensures var r := M.StepWhile(a, e.cond, e.body); RelatedRes(r, M.StepWhile(s, e.cond, e.body)) && SafeRes(r)
  {
    if a.k.next.K? && M.AsList(e.cond) != [] && M.AsList(e.body) != [] {
      var fr := |a.frames|;
      var endk := M.EndKont(a.k.next, fr);
      PartSafe(e.body, fr, endk);
      var bodyk := M.BodyKont(e.body, a.k.next, fr);
      assert KontSafe(bodyk);
      PartSafe(e.cond, fr, bodyk);
      var condk := M.CondKont(e.cond, e.body, a.k.next, fr);
      var f := M.Frame(map[], Some(a.k.r), [], condk, endk);
      PushRelated(a, s, f);
      PushSafe(a, f, condk);
    }
  }

  lemma ListStep(a: Config, s: Config, e: Expr, es: seq<Expr>)
    requires Related(a, s) && Safe(a) && a.k.K? && a.k.r < |a.frames| && a.k.control == M.Code(e)
    requires e == Block(es) || e == For(Block(es)) || ((e.Assign? || e.Special?) && es == [e])
    ensures var r := M.StepList(a, es); RelatedRes(r, M.StepList(s, es)) && SafeRes(r)
  {
    if es != [] {
      if e.For? {
        ListSafe(es);
        assert TailRequests(e) == TailRequests(e.loop);
      } else if !e.Block? {
        assert [e][1..] == [];
        assert CondsOkSeq([e]) == (CondsOk(e) && CondsOkSeq([]));
      }
      ChainSafe(es, a.k.r, a.k.next);
    }
  }

  /** A step of the blocking run either waits or is the step of the run that has its answers. */
  lemma StepRelated(ops: Ops, a: Config, s: Config)
    requires Related(a, s) && Safe(a) && Transmissible(ops)
    ensures var r := M.Step(ops, true, a); RelatedRes(r, M.Step(ops, false, s)) && SafeRes(r)
  {
    if a.k.K? && a.k.control != M.NoControl && a.k.r < |a.frames| {
      match a.k.control
      case Invoke(b) => InvokeStep(ops, a, s, b);
      case Code(e) =>
        match e
        case Lit(_) | Sym(_) | Unop(_, _) | Binop(_, _, _) => AtomStep(ops, a, s, e);
        case Assign(_, _) | Special(_, _) => ListStep(a, s, e, [e]);
        case Block(es) => ListStep(a, s, e, es);
        case For(l) => if l.Block? { ListStep(a, s, e, l.es); }
        case Request(con, b) => RequestStep(ops, a, s, con, b);
        case IfElse(_, _, _) => IfStep(ops, a, s, e);
        case Call(_, _) => CallStep(ops, a, s, e);
        case While(_, _) => WhileStep(a, s, e);
        case Break | Next | Ellipsis =>
    }
  }

  // ----- Where the futures are -----

  function CellAt(c: Config, l: M.Slot): Option<Cell> {
    match l
    case Nowhere => None
    case InWork(x) => if x in c.work then Some(c.work[x]) else None
    case InGlob(x) => if x in c.glob then Some(c.glob[x]) else None
    case InTmp(r, x) => if r < |c.frames| && x in c.frames[r].tmp then Some(c.frames[r].tmp[x]) else None
    case InArgs(r, i) => if r < |c.frames| && i < |c.frames[r].args| then Some(c.frames[r].args[i]) else None
  }

  function WriteAt(c: Config, l: M.Slot, v: Cell): Config
    requires CellAt(c, l).Some?
  {
    match l
    case InWork(x) => c.(work := c.work[x := v])
    case InGlob(x) => c.(glob := c.glob[x := v])
    case InTmp(r, x) => c.(frames := c.frames[r := c.frames[r].(tmp := c.frames[r].tmp[x := v])])
    case InArgs(r, i) => c.(frames := c.frames[r := c.frames[r].(args := c.frames[r].args[i := v])])
  }

  /** A future stands in one place at most, and knows it. */
  ghost predicate SlotsOk(c: Config) {
    && |c.slots| == |c.answers|
    && forall l, n: nat :: CellAt(c, l) == Some(Fut(n)) ==> n < |c.slots| && c.slots[n] == l
  }

  ghost predicate SlotsOkRes(r: M.StepRes) {
    r.Go? ==> SlotsOk(r.c)
  }

  /** Some variable or argument still holds the future of request `n`: the source counts the users
      of the future. */
  ghost predicate Held(c: Config, n: nat) {
    exists l :: CellAt(c, l) == Some(Fut(n))
  }

  ghost predicate NoNewCells(c: Config, c': Config) {
    && c'.slots == c.slots && c'.answers == c.answers
    && forall l :: CellAt(c', l).Some? ==> CellAt(c', l) == CellAt(c, l)
  }

  lemma NoNewSlots(c: Config, c': Config)
    requires SlotsOk(c) && NoNewCells(c, c')
    ensures SlotsOk(c')
  {
    forall l, n: nat | CellAt(c', l) == Some(Fut(n)) ensures n < |c'.slots| && c'.slots[n] == l {
      assert CellAt(c, l) == Some(Fut(n));
    }
  }

  /** A delivery fills the place that it says, and leaves all others alone. */
  lemma AssignedCells(c: Config, k: Kont, v: Cell, l: M.Slot)
    requires k.K? && k.r < |c.frames|
    ensures var p := M.Place(c, k);
      CellAt(M.Assigned(c, k, v), l) == if l == p && p != M.Nowhere then Some(v) else CellAt(c, l)
  {
  }

  lemma DeliverSlots(ops: Ops, c: Config, k0: Kont, v: Cell)
    requires SlotsOk(c) && (v.Fut? ==> v.n < |c.slots| && !Held(c, v.n))
    ensures SlotsOkRes(M.Deliver(ops, c, k0, v))
  {
    var k := M.SkipEnd(k0);
    if k.K? && k.r < |c.frames| {
      AssignedSlots(c, k, v);
      var c2 := M.SlotSet(M.Assigned(c, k, v), v, M.Place(c, k));
      FlowSlots(ops, c2, k, v);
    }
  }

  lemma AssignedAlike(c: Config, k: Kont, v: Cell)
    requires k.K? && k.r < |c.frames|
    ensures var c1 := M.Assigned(c, k, v); c1.slots == c.slots && c1.answers == c.answers && |c1.frames| == |c.frames|
  {}

  lemma SlotSetAlike(c: Config, v: Cell, p: M.Slot)
    ensures var c2 := M.SlotSet(c, v, p);
      && |c2.slots| == |c.slots| && c2.answers == c.answers && c2.frames == c.frames
      && (forall l :: CellAt(c2, l) == CellAt(c, l))
      && (forall n :: 0 <= n < |c.slots| ==> c2.slots[n] == if v == Fut(n) then p else c.slots[n])
  {}

  lemma AssignedSlots(c: Config, k: Kont, v: Cell)
    requires SlotsOk(c) && k.K? && k.r < |c.frames| && (v.Fut? ==> v.n < |c.slots| && !Held(c, v.n))
    ensures var c2 := M.SlotSet(M.Assigned(c, k, v), v, M.Place(c, k));
      SlotsOk(c2) && |c2.frames| == |c.frames|
  {
    var c1, p := M.Assigned(c, k, v), M.Place(c, k);
    var c2 := M.SlotSet(c1, v, p);
    AssignedAlike(c, k, v);
    SlotSetAlike(c1, v, p);
    forall l, n: nat | CellAt(c2, l) == Some(Fut(n)) ensures n < |c2.slots| && c2.slots[n] == l {
      AssignedCells(c, k, v, l);
      hide CellAt, M.Assigned, M.Place, M.SlotSet;
      if v != Fut(n) {
        assert CellAt(c, l) == Some(Fut(n));
      }
    }
  }

  lemma FlowSlots(ops: Ops, c: Config, k: Kont, v: Cell)
    requires SlotsOk(c) && k.K? && k.r < |c.frames|
    ensures SlotsOkRes(M.Flow(ops, c, k, v))
  {
    var r := M.Flow(ops, c, k, v);
    if r.Go? {
      assert NoNewCells(c, r.c);
      NoNewSlots(c, r.c);
    }
  }

  lemma PushCells(c: Config, f: M.Frame, k: Kont)
    requires SlotsOk(c) && f.tmp == map[] && f.args == []
    ensures SlotsOk(c.(frames := c.frames + [f], k := k))
  {
    var c' := c.(frames := c.frames + [f], k := k);
    assert NoNewCells(c, c');
    NoNewSlots(c, c');
  }

  lemma MoveCells(c: Config, k: Kont)
    requires SlotsOk(c)
    ensures SlotsOk(c.(k := k))
  {
    var c' := c.(k := k);
    assert NoNewCells(c, c');
    NoNewSlots(c, c');
  }

  lemma SendCells(c: Config, v: Value)
    requires SlotsOk(c)
    ensures var c' := c.(answers := c.answers + [v], slots := c.slots + [M.Nowhere]);
      SlotsOk(c') && !Held(c', |c.answers|)
  {
    var c' := c.(answers := c.answers + [v], slots := c.slots + [M.Nowhere]);
    forall l, n: nat | CellAt(c', l) == Some(Fut(n)) ensures n < |c.slots| && c'.slots[n] == l {
      assert CellAt(c, l) == Some(Fut(n));
    }
  }

  lemma StepSlots(ops: Ops, c: Config)
    requires SlotsOk(c)
    ensures SlotsOkRes(M.Step(ops, true, c))
  {
    if c.k.K? && c.k.control != M.NoControl && c.k.r < |c.frames| {
      match c.k.control
      case Invoke(b) =>
        var f := c.frames[c.k.r];
        if f.up.Some? && f.up.value < |c.frames| {
          var h := FindFunction(M.View(c, f.up.value), User(b));
          if h.Some? && ops.builtin(h.value, M.Values(f.args)).Some? {
            DeliverSlots(ops, c, c.k.next, Val(ops.builtin(h.value, M.Values(f.args)).value));
          }
        }
      case Code(e) => CodeSlots(ops, c, e);
    }
  }

  lemma CodeSlots(ops: Ops, c: Config, e: Expr)
    requires SlotsOk(c) && c.k.K? && c.k.r < |c.frames| && c.k.control == M.Code(e)
    ensures SlotsOkRes(M.Step(ops, true, c))
  {
    match e
    case Lit(_) | Sym(_) | Unop(_, _) | Binop(_, _, _) =>
      var r := M.EvalAtom(ops, M.View(c, c.k.r), e);
      if r.AtomVal? { DeliverSlots(ops, c, c.k.next, Val(r.v)); }
    case Assign(_, _) | Special(_, _) => MoveCells(c, M.Chain([e], c.k.r, c.k.next));
    case Block(es) => if es != [] { MoveCells(c, M.Chain(es, c.k.r, c.k.next)); }
    case For(l) => if l.Block? && l.es != [] { MoveCells(c, M.Chain(l.es, c.k.r, c.k.next)); }
    case Request(con, b) =>
      var r := M.EvalAtom(ops, M.View(c, c.k.r), con);
      if r.AtomVal? && r.v.VConn? {
        var v := ops.remote(r.v.peer, b);
        SendCells(c, v);
        DeliverSlots(ops, c.(answers := c.answers + [v], slots := c.slots + [M.Nowhere]), c.k.next, Fut(|c.answers|));
      }
    case IfElse(cond, thn, els) =>
      var r := M.StepIf(ops, c, cond, thn, els);
      if r.Go? { MoveCells(c, r.c.k); }
    case Call(h, args) =>
      var r := M.StepCall(ops, c, h, args);
      if r.Go? { PushCells(c, M.Frame(map[], Some(c.k.r), [], M.Nil, M.Nil), r.c.k); }
    case While(cond, body) =>
      var r := M.StepWhile(c, cond, body);
      if r.Go? { PushCells(c, M.Frame(map[], Some(c.k.r), [], r.c.k, M.EndKont(c.k.next, |c.frames|)), r.c.k); }
    case Break | Next | Ellipsis =>
  }

  // ----- Responses -----

  /** The response to request `n` arrives: it fills the slot of the future, if the future is still
      in use. */
  ghost function Respond(c: Config, n: nat): Config
    requires SlotsOk(c) && n < |c.answers|
  {
    if Held(c, n) then WriteAt(c, c.slots[n], Val(c.answers[n])) else c
  }

  /** A response replaces its future and nothing else: a variable that has been assigned again in
      the meantime keeps its new value. */
  lemma RespondExactly(c: Config, n: nat, l: M.Slot)
    requires SlotsOk(c) && n < |c.answers|
    ensures CellAt(Respond(c, n), l) == if CellAt(c, l) == Some(Fut(n)) then Some(Val(c.answers[n])) else CellAt(c, l)
  {
    if Held(c, n) {
      var h :| CellAt(c, h) == Some(Fut(n));
      assert h == c.slots[n];
      WrittenCells(c, h, Val(c.answers[n]), l);
      if CellAt(c, l) == Some(Fut(n)) { assert l == c.slots[n]; }
    }
  }

  lemma WrittenCells(c: Config, h: M.Slot, v: Cell, l: M.Slot)
    requires CellAt(c, h).Some?
    ensures CellAt(WriteAt(c, h, v), l) == if l == h then Some(v) else CellAt(c, l)
  {
  }

  lemma RespondKeeps(c: Config, n: nat)
    requires SlotsOk(c) && n < |c.answers|
    ensures var c' := Respond(c, n);
      && SlotsOk(c') && c'.answers == c.answers && c'.k == c.k && !Held(c', n)
      && (Safe(c) ==> Safe(c'))
      && forall m :: Held(c', m) ==> Held(c, m)
  {
    var c' := Respond(c, n);
    forall l ensures CellAt(c', l) == if CellAt(c, l) == Some(Fut(n)) then Some(Val(c.answers[n])) else CellAt(c, l) {
      RespondExactly(c, n, l);
    }
    forall i | 0 <= i < |c'.frames| ensures c'.frames[i].bc == c.frames[i].bc && c'.frames[i].cc == c.frames[i].cc {
    }
  }

  lemma RespondRelated(a: Config, s: Config, n: nat)
    requires Related(a, s) && SlotsOk(a) && n < |a.answers|
    ensures Related(Respond(a, n), s)
  {
    if Held(a, n) {
      var h :| CellAt(a, h) == Some(Fut(n));
      assert h == a.slots[n];
      var v := Val(a.answers[n]);
      match h
      case InWork(x) => assert CellRel(a.work[x], s.work[x], a.answers);
      case InGlob(x) => assert CellRel(a.glob[x], s.glob[x], a.answers);
      case InTmp(r, x) =>
        assert FrameRel(a.frames[r], s.frames[r], a.answers);
        assert CellRel(a.frames[r].tmp[x], s.frames[r].tmp[x], a.answers);
      case InArgs(r, i) =>
        assert FrameRel(a.frames[r], s.frames[r], a.answers);
        assert CellRel(a.frames[r].args[i], s.frames[r].args[i], a.answers);
    }
  }

  /** What the interpretation context does with a response: the pointer of the future tells the
      place, and the place is filled only while the future is in it. */
  method ReadResponse(it: M.Interpreter, n: nat)
    requires SlotsOk(it.State()) && n < |it.answers|
    modifies it
    ensures it.State() == Respond(old(it.State()), n)
  {
    var c := it.State();
    var p := c.slots[n];
    if CellAt(c, p) == Some(Fut(n)) {
      assert Held(c, n);
      var v := Val(it.answers[n]);
      match p
      case InWork(x) => it.work := it.work[x := v];
      case InGlob(x) => it.glob := it.glob[x := v];
      case InTmp(r, x) => it.frames := it.frames[r := it.frames[r].(tmp := it.frames[r].tmp[x := v])];
      case InArgs(r, i) => it.frames := it.frames[r := it.frames[r].(args := it.frames[r].args[i := v])];
    }
  }

  // ----- Schedules -----

  /** The context tries to go on, or a response arrives. */
  datatype Event = Try | Response(n: nat)

  datatype Played = Played(c: Config, steps: nat, failed: bool)

  ghost function Play(ops: Ops, events: seq<Event>, c: Config): Played
    requires SlotsOk(c)
  {
    if events == [] then Played(c, 0, false) else
    match events[0]
    case Response(n) =>
      if n >= |c.answers| then Play(ops, events[1..], c)
      else RespondKeeps(c, n); Play(ops, events[1..], Respond(c, n))
    case Try =>
      StepSlots(ops, c);
      match M.Step(ops, true, c)
      case Go(c') => var p := Play(ops, events[1..], c'); p.(steps := p.steps + 1)
      case Fail => Played(c, 0, true)
      case Blocked => Play(ops, events[1..], c)
      case Idle => Play(ops, events[1..], c)
  }

  lemma {:induction false} PlayRelated(ops: Ops, events: seq<Event>, a: Config, s: Config)
    requires Related(a, s) && Safe(a) && SlotsOk(a) && Transmissible(ops)
    ensures var p := Play(ops, events, a);
      if p.failed then M.Run(ops, false, p.steps + 1, s).Fail?
      else M.Run(ops, false, p.steps, s).Go? && Related(p.c, M.Run(ops, false, p.steps, s).c)
    ensures var p := Play(ops, events, a); Safe(p.c) && SlotsOk(p.c)
  {
    hide M.Step, Related, Safe, SlotsOk, Respond, Transmissible, Held;
    if events != [] {
      match events[0]
      case Response(n) =>
        if n >= |a.answers| {
          PlayRelated(ops, events[1..], a, s);
        } else {
          RespondKeeps(a, n);
          RespondRelated(a, s, n);
          PlayRelated(ops, events[1..], Respond(a, n), s);
        }
      case Try =>
        StepSlots(ops, a);
        StepRelated(ops, a, s);
        M.RunOne(ops, false, s);
        match M.Step(ops, true, a)
        case Go(a1) =>
          var s1 := M.Step(ops, false, s).c;
          PlayRelated(ops, events[1..], a1, s1);
          var p := Play(ops, events[1..], a1);
          M.RunAdd(ops, false, 1, p.steps, s);
          M.RunAdd(ops, false, 1, p.steps + 1, s);
        case Fail =>
        case Blocked => PlayRelated(ops, events[1..], a, s);
        case Idle => PlayRelated(ops, events[1..], a, s);
    }
  }

  // ----- The theorem -----

  predicate NoFutures(m: map<Name, Cell>) {
    forall x :: x in m ==> m[x].Val?
  }

  lemma StartSlots(e: Expr, work: map<Name, Cell>, glob: map<Name, Cell>)
    requires NoFutures(work) && NoFutures(glob)
    ensures var c := M.Start(e, work, glob); Related(c, c) && SlotsOk(c)
  {
    var c := M.Start(e, work, glob);
    forall l ensures CellAt(c, l).Some? ==> CellAt(c, l).value.Val? {
    }
  }

  lemma StartOk(e: Expr, work: map<Name, Cell>, glob: map<Name, Cell>)
    requires NoFutures(work) && NoFutures(glob) && CondsOk(e)
    ensures var c := M.Start(e, work, glob); Related(c, c) && Safe(c) && SlotsOk(c)
  {
    StartSlots(e, work, glob);
    assert Unconditional(M.HALT) && KontSafe(M.HALT);
  }

  ghost function PlayProgram(ops: Ops, e: Expr, work: map<Name, Cell>, glob: map<Name, Cell>, events: seq<Event>): Played
    requires NoFutures(work) && NoFutures(glob)
  {
    StartSlots(e, work, glob);
    Play(ops, events, M.Start(e, work, glob))
  }

  /** Whatever the order in which responses arrive and the context tries to go on: the blocking run
      has made some steps of the run that has its answers at once; each variable has its value there,
      or is still the future of that value; and it fails only where that run fails. */
  lemma FuturesAreTransparent(ops: Ops, e: Expr, work: map<Name, Cell>, glob: map<Name, Cell>, events: seq<Event>)
    requires Transmissible(ops) && CondsOk(e) && NoFutures(work) && NoFutures(glob)
    ensures var c0 := M.Start(e, work, glob);
      var p := PlayProgram(ops, e, work, glob, events);
      && (p.failed ==> M.Run(ops, false, p.steps + 1, c0).Fail?)
      && (!p.failed ==> M.Run(ops, false, p.steps, c0).Go? && Related(p.c, M.Run(ops, false, p.steps, c0).c))
  {
    StartOk(e, work, glob);
    PlayRelated(ops, events, M.Start(e, work, glob), M.Start(e, work, glob));
  }

  /** No response is outstanding. */
  ghost predicate Settled(c: Config) {
    forall n: nat :: !Held(c, n)
  }

  lemma SettledIsEqual(a: Config, s: Config)
    requires Related(a, s) && Settled(a)
    ensures a.work == s.work && a.glob == s.glob && a.frames == s.frames
  {
    forall l, n: nat ensures CellAt(a, l) != Some(Fut(n)) {
      assert !Held(a, n);
    }
    forall x | x in a.work ensures a.work[x] == s.work[x] {
      assert CellAt(a, M.InWork(x)) == Some(a.work[x]);
    }
    forall x | x in a.glob ensures a.glob[x] == s.glob[x] {
      assert CellAt(a, M.InGlob(x)) == Some(a.glob[x]);
    }
    forall i | 0 <= i < |a.frames| ensures a.frames[i] == s.frames[i] {
      FrameSettled(a, s, i);
    }
  }

  lemma FrameSettled(a: Config, s: Config, i: nat)
    requires Related(a, s) && Settled(a) && i < |a.frames|
    ensures a.frames[i] == s.frames[i]
  {
    var f, g := a.frames[i], s.frames[i];
    assert FrameRel(f, g, a.answers);
    forall x | x in f.tmp ensures f.tmp[x] == g.tmp[x] {
      assert CellAt(a, M.InTmp(i, x)) == Some(f.tmp[x]);
      if f.tmp[x].Fut? { assert Held(a, f.tmp[x].n); }
    }
    forall j | 0 <= j < |f.args| ensures f.args[j] == g.args[j] {
      assert CellAt(a, M.InArgs(i, j)) == Some(f.args[j]);
      if f.args[j].Fut? { assert Held(a, f.args[j].n); }
    }
  }

  /** A blocking run that has ended, with all its responses in, gives what the evaluator gives. */
  lemma BlockingRunEvaluates(ops: Ops, e: Expr, work: map<Name, Cell>, glob: map<Name, Cell>, events: seq<Event>)
    requires Transmissible(ops) && CondsOk(e) && R.Runnable(e) && NoFutures(work) && NoFutures(glob)
    requires var p := PlayProgram(ops, e, work, glob, events);
      !p.failed && p.c.k == M.HALT && Settled(p.c) && M.LAST in p.c.work && p.c.work[M.LAST].Val?
    ensures var c := PlayProgram(ops, e, work, glob, events).c;
      R.Evaluates(ops, e, Store(work, glob, [map[]]), c.work[M.LAST].v, c.work, c.glob)
  {
    var c0 := M.Start(e, work, glob);
    var s := Store(work, glob, [map[]]);
    var p := PlayProgram(ops, e, work, glob, events);
    FuturesAreTransparent(ops, e, work, glob, events);
    var d := M.Run(ops, false, p.steps, c0).c;
    SettledIsEqual(p.c, d);
    R.HaltedIsEvaluated(ops, e, s, p.steps, d, p.c.work[M.LAST].v);
  }

  /** The order in which the responses arrive does not matter. */
  lemma OrderIsIrrelevant(ops: Ops, e: Expr, work: map<Name, Cell>, glob: map<Name, Cell>, es: seq<Event>, fs: seq<Event>)
    requires Transmissible(ops) && CondsOk(e) && NoFutures(work) && NoFutures(glob)
    requires var p, q := PlayProgram(ops, e, work, glob, es), PlayProgram(ops, e, work, glob, fs);
      !p.failed && p.c.k == M.HALT && Settled(p.c) && !q.failed && q.c.k == M.HALT && Settled(q.c)
    ensures var p, q := PlayProgram(ops, e, work, glob, es).c, PlayProgram(ops, e, work, glob, fs).c;
      p.work == q.work && p.glob == q.glob && p.frames == q.frames
  {
    var s, c0 := Store(work, glob, [map[]]), M.Start(e, work, glob);
    var p, q := PlayProgram(ops, e, work, glob, es), PlayProgram(ops, e, work, glob, fs);
    FuturesAreTransparent(ops, e, work, glob, es);
    FuturesAreTransparent(ops, e, work, glob, fs);
    var c, d := M.Run(ops, false, p.steps, c0).c, M.Run(ops, false, q.steps, c0).c;
    SettledIsEqual(p.c, c);
    SettledIsEqual(q.c, d);
    if p.steps < q.steps { R.HaltIsIdle(ops, e, s, p.steps, c, q.steps); }
    if q.steps < p.steps { R.HaltIsIdle(ops, e, s, q.steps, d, p.steps); }
  }

  // ----- Progress -----

  ghost function RespondAll(c: Config, n: nat): (r: Config)
    requires SlotsOk(c) && n <= |c.answers|
    ensures SlotsOk(r) && r.answers == c.answers && r.k == c.k
  {
    if n == 0 then c else RespondNext(RespondAll(c, n - 1), n - 1)
  }

  ghost function RespondNext(c: Config, n: nat): (r: Config)
    requires SlotsOk(c) && n < |c.answers|
    ensures SlotsOk(r) && r.answers == c.answers && r.k == c.k
  {
    RespondKeeps(c, n);
    Respond(c, n)
  }

  lemma HeldBefore(c: Config, n: nat, m: nat)
    requires SlotsOk(c) && n < |c.answers| && Held(RespondNext(c, n), m)
    ensures Held(c, m) && m != n
  {
    hide SlotsOk, Held, Respond, Safe;
    RespondKeeps(c, n);
  }

  lemma {:induction false} HeldAfterAll(c: Config, n: nat, m: nat)
    requires SlotsOk(c) && n <= |c.answers| && Held(RespondAll(c, n), m)
    ensures n <= m && Held(c, m)
  {
    hide SlotsOk, Held, Respond;
    if n > 0 {
      HeldBefore(RespondAll(c, n - 1), n - 1, m);
      HeldAfterAll(c, n - 1, m);
    }
  }

  lemma {:induction false} UnblockedTemporary(tmps: seq<map<Name, Cell>>, x: Name)
    requires forall i :: 0 <= i < |tmps| ==> NoFutures(tmps[i])
    ensures FindTemporary(tmps, x).Some? ==> FindTemporary(tmps, x).value.Val?
  {
    if tmps != [] { UnblockedTemporary(tmps[1..], x); }
  }

  lemma {:induction false} UnblockedAtom(ops: Ops, s: Store, e: Expr)
    requires NoFutures(s.work) && NoFutures(s.glob) && forall i :: 0 <= i < |s.tmps| ==> NoFutures(s.tmps[i])
    ensures !M.EvalAtom(ops, s, e).AtomBlocked? && !M.EvalHead(ops, s, e).AtomBlocked?
  {
    match e
    case Sym(x) => UnblockedTemporary(s.tmps, x);
    case Unop(_, a) => UnblockedAtom(ops, s, a);
    case Binop(_, l, r) => UnblockedAtom(ops, s, l); UnblockedAtom(ops, s, r);
    case _ =>
  }

  lemma {:induction false} SettledTmps(c: Config, r: nat)
    requires Settled(c) && r < |c.frames|
    ensures forall i :: 0 <= i < |M.Tmps(c.frames, r)| ==> NoFutures(M.Tmps(c.frames, r)[i])
  {
    var f := c.frames[r];
    forall x | x in f.tmp ensures f.tmp[x].Val? {
      assert CellAt(c, M.InTmp(r, x)) == Some(f.tmp[x]);
      if f.tmp[x].Fut? { assert Held(c, f.tmp[x].n); }
    }
    if f.up.Some? && f.up.value < r { SettledTmps(c, f.up.value); }
  }

  lemma SettledView(ops: Ops, c: Config, r: nat, e: Expr)
    requires Settled(c) && r < |c.frames|
    ensures !M.EvalAtom(ops, M.View(c, r), e).AtomBlocked? && !M.EvalHead(ops, M.View(c, r), e).AtomBlocked?
  {
    SettledTmps(c, r);
    forall x | x in c.work ensures c.work[x].Val? {
      assert CellAt(c, M.InWork(x)) == Some(c.work[x]);
      if c.work[x].Fut? { assert Held(c, c.work[x].n); }
    }
    forall x | x in c.glob ensures c.glob[x].Val? {
      assert CellAt(c, M.InGlob(x)) == Some(c.glob[x]);
      if c.glob[x].Fut? { assert Held(c, c.glob[x].n); }
    }
    UnblockedAtom(ops, M.View(c, r), e);
  }

  /** A run waits only for responses that are outstanding: once all have arrived, it goes on. */
  lemma AnswersUnblock(ops: Ops, c: Config)
    requires SlotsOk(c)
    ensures !M.Step(ops, true, RespondAll(c, |c.answers|)).Blocked?
  {
    hide M.Step, SlotsOk, Held, RespondAll;
    var d := RespondAll(c, |c.answers|);
    forall n: nat ensures !Held(d, n) {
      if Held(d, n) {
        HeldAfterAll(c, |c.answers|, n);
        HeldSent(c, n);
      }
    }
    SettledStep(ops, d);
  }

  lemma HeldSent(c: Config, n: nat)
    requires SlotsOk(c) && Held(c, n)
    ensures n < |c.answers|
  {}

  lemma SettledStep(ops: Ops, c: Config)
    requires Settled(c)
    ensures !M.Step(ops, true, c).Blocked?
  {
    if c.k.K? && c.k.control != M.NoControl && c.k.r < |c.frames| {
      match c.k.control
      case Invoke(b) =>
        var f := c.frames[c.k.r];
        forall i | 0 <= i < |f.args| ensures f.args[i].Val? {
          assert CellAt(c, M.InArgs(c.k.r, i)) == Some(f.args[i]);
          if f.args[i].Fut? { assert Held(c, f.args[i].n); }
        }
      case Code(e) =>
        match e
        case Lit(_) | Sym(_) | Unop(_, _) | Binop(_, _, _) => SettledView(ops, c, c.k.r, e);
        case Request(con, _) => SettledView(ops, c, c.k.r, con);
        case IfElse(cond, _, _) => SettledView(ops, c, c.k.r, cond);
        case Call(h, _) => SettledView(ops, c, c.k.r, h);
        case _ =>
    }
  }
}
