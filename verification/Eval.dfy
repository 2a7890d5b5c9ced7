/** The plain evaluator: what a program means, evaluated left to right, with no continuations, no
    hoisting and no futures.  `fuel` bounds the number of times a loop body may be repeated. */
module Eval {
  import opened Wrappers
  import opened Ast

  datatype Res = Ok(v: Value, s: Store) | Err | Timeout
  datatype ArgsRes = ArgsOk(vs: seq<Value>, s: Store) | ArgsErr | ArgsTimeout

  function OfOption(r: Option<Value>, s: Store): Res {
    match r case None => Err case Some(v) => Ok(v, s)
  }

  function ReadVariable(s: Store, x: Name): Res {
    match Find(s, x)
    case Some(Val(v)) => Ok(v, s)
    case _ => Err
  }

  function Push(s: Store): Store {
    s.(tmps := [map[]] + s.tmps)
  }

  function Pop(s: Store): Store
    requires s.tmps != []
  {
    s.(tmps := s.tmps[1..])
  }

  function Ev(ops: Ops, fuel: nat, e: Expr, s: Store): (r: Res)
    requires s.tmps != []
    ensures r.Ok? ==> |r.s.tmps| == |s.tmps|
    decreases fuel, e, 1
  {
    match e
    case Lit(v) => Ok(v, s)
    case Sym(x) => ReadVariable(s, x)
    case Break | Next | Ellipsis => Err
    case Unop(op, a) =>
      var r := Ev(ops, fuel, a, s);
      if r.Ok? then OfOption(ops.unop(op, r.v), r.s) else r
    case Binop(op, left, right) =>
      var l := Ev(ops, fuel, left, s);
      if !l.Ok? then l else
      var r := Ev(ops, fuel, right, l.s);
      if r.Ok? then OfOption(ops.binop(op, l.v, r.v), r.s) else r
    case Block(es) => EvSeq(ops, fuel, es, s)
    case While(c, b) =>
      var r := Loop(ops, fuel, c, b, Push(s));
      if r.Ok? then Ok(VNull, Pop(r.s)) else r
    case IfElse(c, t, f) =>
      var r := Ev(ops, fuel, c, s);
      if !r.Ok? then r else
      (match ops.truth(r.v)
       case None => Err
       case Some(b) => if b then Ev(ops, fuel, t, r.s) else Ev(ops, fuel, f, r.s))
    case For(l) => Ev(ops, fuel, l, s)
    case Assign(x, a) =>
      var r := Ev(ops, fuel, a, s);
      if r.Ok? then Ok(r.v, Add(r.s, x, Val(r.v))) else r
    case Special(id, a) =>
      var r := Ev(ops, fuel, a, s);
      if r.Ok? then Ok(r.v, AddSpecial(r.s, User(id), Val(r.v))) else r
    case Request(c, a) =>
      var r := Ev(ops, fuel, c, s);
      if !r.Ok? then r else
      if r.v.VConn? then Ok(ops.remote(r.v.peer, a), r.s) else Err
    case Call(h, args) =>
      var hr := if Strip(h).Sym? then EvHead(s, Strip(h).x) else Ev(ops, fuel, Strip(h), s);
      if !hr.Ok? then hr else
      if !hr.v.VBuiltin? then Err else
      var ar := EvArgs(ops, fuel, args, hr.s);
      Invoke(ops, hr.v.name, ar)
  }

  /** The head of a call, when it is a name, is looked up among functions only. */
  function EvHead(s: Store, x: Name): Res {
    match FindFunction(s, x) case None => Err case Some(b) => Ok(VBuiltin(b), s)
  }

  /** Runs a builtin on its evaluated arguments; its name is looked up again at that moment. */
  function Invoke(ops: Ops, b: string, ar: ArgsRes): Res {
    match ar
    case ArgsErr => Err
    case ArgsTimeout => Timeout
    case ArgsOk(vs, s) =>
      match FindFunction(s, User(b))
      case None => Err
      case Some(f) => OfOption(ops.builtin(f, vs), s)
  }

  /** An expression list: its value is that of its last element. */
  function EvSeq(ops: Ops, fuel: nat, es: seq<Expr>, s: Store): (r: Res)
    requires s.tmps != []
    ensures r.Ok? ==> |r.s.tmps| == |s.tmps|
    decreases fuel, es, 0
  {
    if es == [] then Err else
    var r := Ev(ops, fuel, es[0], s);
    if !r.Ok? || |es| == 1 then r else EvSeq(ops, fuel, es[1..], r.s)
  }

  function EvArgs(ops: Ops, fuel: nat, args: seq<Arg>, s: Store): (r: ArgsRes)
    requires s.tmps != []
    ensures r.ArgsOk? ==> |r.s.tmps| == |s.tmps|
    decreases fuel, args, 0
  {
    if args == [] then ArgsOk([], s) else
    match Ev(ops, fuel, args[0].e, s)
    case Err => ArgsErr
    case Timeout => ArgsTimeout
    case Ok(v, s1) =>
      match EvArgs(ops, fuel, args[1..], s1)
      case ArgsOk(vs, s2) => ArgsOk([v] + vs, s2)
      case r => r
  }

  function Loop(ops: Ops, fuel: nat, c: Expr, b: Expr, s: Store): (r: Res)
    requires s.tmps != []
    ensures r.Ok? ==> |r.s.tmps| == |s.tmps|
    decreases fuel, While(c, b), 0
  {
    var r := Ev(ops, fuel, c, s);
    if !r.Ok? then r else
    match ops.truth(r.v)
    case None => Err
    case Some(false) => r
    case Some(true) =>
      var q := Ev(ops, fuel, b, r.s);
      if !q.Ok? then q else
      if fuel == 0 then Timeout else Loop(ops, fuel - 1, c, b, q.s)
  }

  // ----- Evaluation depends only on the names that are mentioned -----

  /** The two stores differ at most on the names in `d`, all of them temporaries. */
  ghost predicate Agree(s1: Store, s2: Store, d: iset<Name>) {
    && s1.work == s2.work && s1.glob == s2.glob
    && |s1.tmps| == |s2.tmps|
    && forall i, x :: 0 <= i < |s1.tmps| && x !in d ==> SameAt(s1.tmps[i], s2.tmps[i], x)
  }

  ghost predicate SameAt(m1: map<Name, Cell>, m2: map<Name, Cell>, x: Name) {
    (x in m1 <==> x in m2) && (x in m1 ==> m1[x] == m2[x])
  }

  ghost predicate AgreeRes(r1: Res, r2: Res, d: iset<Name>) {
    match r1
    case Ok(v, s) => r2.Ok? && r2.v == v && Agree(s, r2.s, d)
    case Err => r2.Err?
    case Timeout => r2.Timeout?
  }

  ghost predicate Apart(e: Expr, d: iset<Name>) {
    forall x :: x in Mentions(e) ==> x !in d
  }

  lemma {:induction false} FindAgree(s1: Store, s2: Store, d: iset<Name>, x: Name)
    requires Agree(s1, s2, d) && x !in d
    ensures Find(s1, x) == Find(s2, x) && FindFunction(s1, x) == FindFunction(s2, x)
  {
    TemporaryAgree(s1.tmps, s2.tmps, x);
  }

  lemma {:induction false} TemporaryAgree(t1: seq<map<Name, Cell>>, t2: seq<map<Name, Cell>>, x: Name)
    requires |t1| == |t2| && forall i :: 0 <= i < |t1| ==> SameAt(t1[i], t2[i], x)
    ensures FindTemporary(t1, x) == FindTemporary(t2, x)
    ensures FindFunctionTemporary(t1, x) == FindFunctionTemporary(t2, x)
  {
    if t1 != [] {
      assert SameAt(t1[0], t2[0], x);
      TemporaryAgree(t1[1..], t2[1..], x);
    }
  }

  lemma AddAgree(s1: Store, s2: Store, d: iset<Name>, x: Name, c: Cell)
    requires Agree(s1, s2, d) && s1.tmps != []
    ensures Agree(Add(s1, x, c), Add(s2, x, c), d)
  {
    var a1, a2 := Add(s1, x, c), Add(s2, x, c);
    forall i, y | 0 <= i < |a1.tmps| && y !in d ensures SameAt(a1.tmps[i], a2.tmps[i], y) {
      assert SameAt(s1.tmps[i], s2.tmps[i], y);
    }
  }

  /** Two stores that agree on everything that `e` mentions give the same value, and go on agreeing. */
  lemma {:induction false} EvAgree(ops: Ops, fuel: nat, e: Expr, s1: Store, s2: Store, d: iset<Name>)
    requires s1.tmps != [] && Agree(s1, s2, d) && Apart(e, d)
    ensures AgreeRes(Ev(ops, fuel, e, s1), Ev(ops, fuel, e, s2), d)
    decreases fuel, e, 1
  {
    match e
    case Lit(_) =>
    case Sym(x) => FindAgree(s1, s2, d, x);
    case Break =>
    case Next =>
    case Ellipsis =>
    case Unop(op, a) => EvAgree(ops, fuel, a, s1, s2, d);
    case Binop(op, left, right) =>
      EvAgree(ops, fuel, left, s1, s2, d);
      var l1, l2 := Ev(ops, fuel, left, s1), Ev(ops, fuel, left, s2);
      if l1.Ok? { EvAgree(ops, fuel, right, l1.s, l2.s, d); }
    case Block(es) => EvSeqAgree(ops, fuel, es, s1, s2, d);
    case While(c, b) =>
      assert Agree(Push(s1), Push(s2), d);
      LoopAgree(ops, fuel, c, b, Push(s1), Push(s2), d);
      var r1, r2 := Loop(ops, fuel, c, b, Push(s1)), Loop(ops, fuel, c, b, Push(s2));
      if r1.Ok? { assert Agree(Pop(r1.s), Pop(r2.s), d); }
    case IfElse(c, t, f) =>
      EvAgree(ops, fuel, c, s1, s2, d);
      var r1, r2 := Ev(ops, fuel, c, s1), Ev(ops, fuel, c, s2);
      if r1.Ok? {
        EvAgree(ops, fuel, t, r1.s, r2.s, d);
        EvAgree(ops, fuel, f, r1.s, r2.s, d);
      }
    case For(l) => EvAgree(ops, fuel, l, s1, s2, d);
    case Assign(x, a) =>
      EvAgree(ops, fuel, a, s1, s2, d);
      var r1, r2 := Ev(ops, fuel, a, s1), Ev(ops, fuel, a, s2);
      if r1.Ok? { AddAgree(r1.s, r2.s, d, x, Val(r1.v)); }
    case Special(x, a) => EvAgree(ops, fuel, a, s1, s2, d);
    case Request(c, a) => EvAgree(ops, fuel, c, s1, s2, d);
    case Call(h, args) => EvCallAgree(ops, fuel, h, args, s1, s2, d);
  }

  lemma {:induction false} EvCallAgree(ops: Ops, fuel: nat, h: Expr, args: seq<Arg>, s1: Store, s2: Store, d: iset<Name>)
    requires s1.tmps != [] && Agree(s1, s2, d) && Apart(Call(h, args), d)
    ensures AgreeRes(Ev(ops, fuel, Call(h, args), s1), Ev(ops, fuel, Call(h, args), s2), d)
    decreases fuel, Call(h, args), 0
  {
    StripMentions(h);
    if Strip(h).Sym? {
      FindAgree(s1, s2, d, Strip(h).x);
    } else {
      EvAgree(ops, fuel, Strip(h), s1, s2, d);
    }
    var h1 := if Strip(h).Sym? then EvHead(s1, Strip(h).x) else Ev(ops, fuel, Strip(h), s1);
    var h2 := if Strip(h).Sym? then EvHead(s2, Strip(h).x) else Ev(ops, fuel, Strip(h), s2);
    assert AgreeRes(h1, h2, d);
    if h1.Ok? && h1.v.VBuiltin? {
      EvArgsAgree(ops, fuel, args, h1.s, h2.s, d);
      var a1, a2 := EvArgs(ops, fuel, args, h1.s), EvArgs(ops, fuel, args, h2.s);
      InvokeAgree(ops, h1.v.name, a1, a2, d);
    }
  }

  lemma StripMentions(e: Expr)
    ensures Mentions(Strip(e)) == Mentions(e) && Writes(Strip(e)) == Writes(e)
  {
    if e.Block? && |e.es| == 1 {
      assert e.es[1..] == [];
      assert MentionsSeq(e.es) == Mentions(e.es[0]) + MentionsSeq([]);
      assert WritesSeq(e.es) == Writes(e.es[0]) + WritesSeq([]);
    }
  }

  ghost predicate AgreeArgs(r1: ArgsRes, r2: ArgsRes, d: iset<Name>) {
    match r1
    case ArgsOk(vs, s) => r2.ArgsOk? && r2.vs == vs && Agree(s, r2.s, d)
    case ArgsErr => r2.ArgsErr?
    case ArgsTimeout => r2.ArgsTimeout?
  }

  /** No set of ignored names holds a user name: those are in frames that have to be equal. */
  lemma UserAgree(s1: Store, s2: Store, d: iset<Name>, id: string)
    requires Agree(s1, s2, d)
    ensures Find(s1, User(id)) == Find(s2, User(id)) && FindFunction(s1, User(id)) == FindFunction(s2, User(id))
  {
  }

  lemma InvokeAgree(ops: Ops, b: string, a1: ArgsRes, a2: ArgsRes, d: iset<Name>)
    requires AgreeArgs(a1, a2, d)
    ensures AgreeRes(Invoke(ops, b, a1), Invoke(ops, b, a2), d)
  {
    if a1.ArgsOk? { UserAgree(a1.s, a2.s, d, b); }
  }

  lemma {:induction false} EvArgsAgree(ops: Ops, fuel: nat, args: seq<Arg>, s1: Store, s2: Store, d: iset<Name>)
    requires s1.tmps != [] && Agree(s1, s2, d) && forall x :: x in MentionsArgs(args) ==> x !in d
    ensures AgreeArgs(EvArgs(ops, fuel, args, s1), EvArgs(ops, fuel, args, s2), d)
    decreases fuel, args, 0
  {
    if args != [] {
      EvAgree(ops, fuel, args[0].e, s1, s2, d);
      var r1, r2 := Ev(ops, fuel, args[0].e, s1), Ev(ops, fuel, args[0].e, s2);
      if r1.Ok? { EvArgsAgree(ops, fuel, args[1..], r1.s, r2.s, d); }
    }
  }

  lemma {:induction false} EvSeqAgree(ops: Ops, fuel: nat, es: seq<Expr>, s1: Store, s2: Store, d: iset<Name>)
    requires s1.tmps != [] && Agree(s1, s2, d) && forall x :: x in MentionsSeq(es) ==> x !in d
    ensures AgreeRes(EvSeq(ops, fuel, es, s1), EvSeq(ops, fuel, es, s2), d)
    decreases fuel, es, 0
  {
    if es != [] {
      EvAgree(ops, fuel, es[0], s1, s2, d);
      var r1, r2 := Ev(ops, fuel, es[0], s1), Ev(ops, fuel, es[0], s2);
      if r1.Ok? && |es| > 1 { EvSeqAgree(ops, fuel, es[1..], r1.s, r2.s, d); }
    }
  }

  lemma {:induction false} LoopAgree(ops: Ops, fuel: nat, c: Expr, b: Expr, s1: Store, s2: Store, d: iset<Name>)
    requires s1.tmps != [] && Agree(s1, s2, d) && Apart(While(c, b), d)
    ensures AgreeRes(Loop(ops, fuel, c, b, s1), Loop(ops, fuel, c, b, s2), d)
    decreases fuel, While(c, b), 0
  {
    EvAgree(ops, fuel, c, s1, s2, d);
    var r1, r2 := Ev(ops, fuel, c, s1), Ev(ops, fuel, c, s2);
    if r1.Ok? && ops.truth(r1.v) == Some(true) {
      EvAgree(ops, fuel, b, r1.s, r2.s, d);
      var q1, q2 := Ev(ops, fuel, b, r1.s), Ev(ops, fuel, b, r2.s);
      if q1.Ok? && fuel > 0 { LoopAgree(ops, fuel - 1, c, b, q1.s, q2.s, d); }
    }
  }

  // ----- Names -----

  lemma {:induction false} WritesMentioned(e: Expr)
    ensures Writes(e) <= Mentions(e)
    decreases e, 1
  {
    match e
    case Lit(_) | Sym(_) | Break | Next | Ellipsis =>
    case Unop(_, a) => WritesMentioned(a);
    case Binop(_, l, r) => WritesMentioned(l); WritesMentioned(r);
    case Block(es) => WritesMentionedSeq(es);
    case While(c, b) => WritesMentioned(c); WritesMentioned(b);
    case IfElse(c, t, f) => WritesMentioned(c); WritesMentioned(t); WritesMentioned(f);
    case For(l) => WritesMentioned(l);
    case Assign(_, a) => WritesMentioned(a);
    case Special(_, a) => WritesMentioned(a);
    case Request(c, _) => WritesMentioned(c);
    case Call(h, args) => WritesMentioned(h); WritesMentionedArgs(args);
  }

  lemma {:induction false} WritesMentionedSeq(es: seq<Expr>)
    ensures WritesSeq(es) <= MentionsSeq(es)
    decreases es, 0
  {
    if es != [] { WritesMentioned(es[0]); WritesMentionedSeq(es[1..]); }
  }

  lemma {:induction false} WritesMentionedArgs(args: seq<Arg>)
    ensures WritesArgs(args) <= MentionsArgs(args)
    decreases args, 0
  {
    if args != [] { WritesMentioned(args[0].e); WritesMentionedArgs(args[1..]); }
  }

  // ----- Evaluation writes only what it may write, and only the innermost shadow frame -----

  ghost predicate Kept(s: Store, s': Store, w: set<Name>) {
    && |s'.tmps| == |s.tmps| > 0
    && s'.tmps[1..] == s.tmps[1..]
    && forall x :: x !in w ==>
         SameAt(s.work, s'.work, x) && SameAt(s.glob, s'.glob, x) && SameAt(s.tmps[0], s'.tmps[0], x)
  }

  lemma KeptTrans(s: Store, s1: Store, s2: Store, w1: set<Name>, w2: set<Name>, w: set<Name>)
    requires Kept(s, s1, w1) && Kept(s1, s2, w2) && w1 <= w && w2 <= w
    ensures Kept(s, s2, w)
  {
    forall x | x !in w
      ensures SameAt(s.work, s2.work, x) && SameAt(s.glob, s2.glob, x) && SameAt(s.tmps[0], s2.tmps[0], x)
    {
      assert SameAt(s.work, s1.work, x) && SameAt(s1.work, s2.work, x);
    }
  }

  lemma KeptFind(s: Store, s': Store, w: set<Name>, x: Name)
    requires Kept(s, s', w) && x !in w
    ensures Find(s', x) == Find(s, x) && FindFunction(s', x) == FindFunction(s, x)
  {
    assert SameAt(s.work, s'.work, x);
  }

  lemma KeptSame(s: Store, w: set<Name>)
    requires s.tmps != []
    ensures Kept(s, s, w)
  {}

  lemma KeptMore(s: Store, s': Store, w: set<Name>, w': set<Name>)
    requires Kept(s, s', w) && w <= w'
    ensures Kept(s, s', w')
  {}

  lemma KeptAdd(s: Store, x: Name, v: Cell)
    requires s.tmps != []
    ensures Kept(s, Add(s, x, v), {x})
  {}

  lemma KeptAddSpecial(s: Store, x: Name, v: Cell)
    requires s.tmps != []
    ensures Kept(s, AddSpecial(s, x, v), {x})
  {}

  lemma KeptPop(s: Store, s': Store, w: set<Name>)
    requires s.tmps != [] && s'.tmps != [] && Kept(Push(s), s', w)
    ensures Pop(s').tmps != [] && Kept(s, Pop(s'), w)
  {
    assert Push(s).tmps[1..] == s.tmps;
  }

  lemma {:induction false} EvKept(ops: Ops, fuel: nat, e: Expr, s: Store)
    requires s.tmps != []
    ensures Ev(ops, fuel, e, s).Ok? ==> Kept(s, Ev(ops, fuel, e, s).s, Writes(e))
    decreases fuel, e, 1
  {
    KeptSame(s, Writes(e));
    hide Kept, Find, FindFunction;
    match e
    case Lit(_) =>
    case Sym(_) =>
    case Break =>
    case Next =>
    case Ellipsis =>
    case Unop(_, a) => EvKept(ops, fuel, a, s);
    case Binop(_, left, right) =>
      EvKept(ops, fuel, left, s);
      var l := Ev(ops, fuel, left, s);
      if l.Ok? {
        EvKept(ops, fuel, right, l.s);
        var r := Ev(ops, fuel, right, l.s);
        if r.Ok? { KeptTrans(s, l.s, r.s, Writes(left), Writes(right), Writes(e)); }
      }
    case Block(es) => EvSeqKept(ops, fuel, es, s);
    case While(c, b) =>
      LoopKept(ops, fuel, c, b, Push(s));
      var r := Loop(ops, fuel, c, b, Push(s));
      if r.Ok? { KeptPop(s, r.s, Writes(e)); }
    case IfElse(c, t, f) =>
      EvKept(ops, fuel, c, s);
      var r := Ev(ops, fuel, c, s);
      if r.Ok? {
        EvKept(ops, fuel, t, r.s);
        EvKept(ops, fuel, f, r.s);
        var q := Ev(ops, fuel, e, s);
        if q.Ok? {
          if ops.truth(r.v).value { KeptTrans(s, r.s, q.s, Writes(c), Writes(t), Writes(e)); }
          else { KeptTrans(s, r.s, q.s, Writes(c), Writes(f), Writes(e)); }
        }
      }
    case For(l) => EvKept(ops, fuel, l, s);
    case Assign(x, a) =>
      EvKept(ops, fuel, a, s);
      var r := Ev(ops, fuel, a, s);
      if r.Ok? { KeptAdd(r.s, x, Val(r.v)); KeptTrans(s, r.s, Add(r.s, x, Val(r.v)), Writes(a), {x}, Writes(e)); }
    case Special(id, a) =>
      EvKept(ops, fuel, a, s);
      var r := Ev(ops, fuel, a, s);
      if r.Ok? { KeptAddSpecial(r.s, User(id), Val(r.v)); KeptTrans(s, r.s, AddSpecial(r.s, User(id), Val(r.v)), Writes(a), {User(id)}, Writes(e)); }
    case Request(c, _) => EvKept(ops, fuel, c, s);
    case Call(h, args) =>
      StripMentions(h);
      KeptSame(s, Writes(h));
      if !Strip(h).Sym? { EvKept(ops, fuel, Strip(h), s); }
      var hr := if Strip(h).Sym? then EvHead(s, Strip(h).x) else Ev(ops, fuel, Strip(h), s);
      if hr.Ok? {
        EvArgsKept(ops, fuel, args, hr.s);
        var ar := EvArgs(ops, fuel, args, hr.s);
        if ar.ArgsOk? { KeptTrans(s, hr.s, ar.s, Writes(h), WritesArgs(args), Writes(e)); }
      }
  }

  lemma {:induction false} EvArgsKept(ops: Ops, fuel: nat, args: seq<Arg>, s: Store)
    requires s.tmps != []
    ensures EvArgs(ops, fuel, args, s).ArgsOk? ==> Kept(s, EvArgs(ops, fuel, args, s).s, WritesArgs(args))
    decreases fuel, args, 0
  {
    if args != [] {
      EvKept(ops, fuel, args[0].e, s);
      var r := Ev(ops, fuel, args[0].e, s);
      if r.Ok? {
        EvArgsKept(ops, fuel, args[1..], r.s);
        var q := EvArgs(ops, fuel, args[1..], r.s);
        if q.ArgsOk? { KeptTrans(s, r.s, q.s, Writes(args[0].e), WritesArgs(args[1..]), WritesArgs(args)); }
      }
    }
  }

  lemma {:induction false} EvSeqKept(ops: Ops, fuel: nat, es: seq<Expr>, s: Store)
    requires s.tmps != []
    ensures EvSeq(ops, fuel, es, s).Ok? ==> Kept(s, EvSeq(ops, fuel, es, s).s, WritesSeq(es))
    decreases fuel, es, 0
  {
    if es != [] {
      EvKept(ops, fuel, es[0], s);
      var r := Ev(ops, fuel, es[0], s);
      if r.Ok? && |es| > 1 {
        EvSeqKept(ops, fuel, es[1..], r.s);
        var q := EvSeq(ops, fuel, es[1..], r.s);
        if q.Ok? { KeptTrans(s, r.s, q.s, Writes(es[0]), WritesSeq(es[1..]), WritesSeq(es)); }
      }
    }
  }

  lemma {:induction false} LoopKept(ops: Ops, fuel: nat, c: Expr, b: Expr, s: Store)
    requires s.tmps != []
    ensures Loop(ops, fuel, c, b, s).Ok? ==> Kept(s, Loop(ops, fuel, c, b, s).s, Writes(c) + Writes(b))
    decreases fuel, While(c, b), 0
  {
    hide Kept, Ev, Writes;
    EvKept(ops, fuel, c, s);
    var r := Ev(ops, fuel, c, s);
    var w := Writes(c) + Writes(b);
    if r.Ok? { KeptMore(s, r.s, Writes(c), w); }
    if r.Ok? && ops.truth(r.v) == Some(true) {
      EvKept(ops, fuel, b, r.s);
      var q := Ev(ops, fuel, b, r.s);
      if q.Ok? && fuel > 0 {
        LoopKept(ops, fuel - 1, c, b, q.s);
        var z := Loop(ops, fuel - 1, c, b, q.s);
        KeptTrans(s, r.s, q.s, Writes(c), Writes(b), w);
        if z.Ok? { KeptTrans(s, q.s, z.s, w, w, w); }
      }
    }
  }

  // ----- More fuel changes nothing once there is enough -----

  lemma {:induction false} EvFuel(ops: Ops, fuel: nat, more: nat, e: Expr, s: Store)
    requires s.tmps != [] && fuel <= more && !Ev(ops, fuel, e, s).Timeout?
    ensures Ev(ops, more, e, s) == Ev(ops, fuel, e, s)
    decreases fuel, e, 1
  {
    match e
    case Lit(_) | Sym(_) | Break | Next | Ellipsis =>
    case Unop(_, a) => EvFuel(ops, fuel, more, a, s);
    case Binop(_, left, right) =>
      EvFuel(ops, fuel, more, left, s);
      var l := Ev(ops, fuel, left, s);
      if l.Ok? { EvFuel(ops, fuel, more, right, l.s); }
    case Block(es) => EvSeqFuel(ops, fuel, more, es, s);
    case While(c, b) => LoopFuel(ops, fuel, more, c, b, Push(s));
    case IfElse(c, t, f) =>
      EvFuel(ops, fuel, more, c, s);
      var r := Ev(ops, fuel, c, s);
      if r.Ok? && ops.truth(r.v).Some? {
        if ops.truth(r.v).value { EvFuel(ops, fuel, more, t, r.s); } else { EvFuel(ops, fuel, more, f, r.s); }
      }
    case For(l) => EvFuel(ops, fuel, more, l, s);
    case Assign(_, a) => EvFuel(ops, fuel, more, a, s);
    case Special(_, a) => EvFuel(ops, fuel, more, a, s);
    case Request(c, _) => EvFuel(ops, fuel, more, c, s);
    case Call(h, args) =>
      if !Strip(h).Sym? { EvFuel(ops, fuel, more, Strip(h), s); }
      var hr := if Strip(h).Sym? then EvHead(s, Strip(h).x) else Ev(ops, fuel, Strip(h), s);
      if hr.Ok? && hr.v.VBuiltin? { EvArgsFuel(ops, fuel, more, args, hr.s); }
  }

  lemma {:induction false} EvSeqFuel(ops: Ops, fuel: nat, more: nat, es: seq<Expr>, s: Store)
    requires s.tmps != [] && fuel <= more && !EvSeq(ops, fuel, es, s).Timeout?
    ensures EvSeq(ops, more, es, s) == EvSeq(ops, fuel, es, s)
    decreases fuel, es, 0
  {
    if es != [] {
      EvFuel(ops, fuel, more, es[0], s);
      var r := Ev(ops, fuel, es[0], s);
      if r.Ok? && |es| > 1 { EvSeqFuel(ops, fuel, more, es[1..], r.s); }
    }
  }

  lemma {:induction false} EvArgsFuel(ops: Ops, fuel: nat, more: nat, args: seq<Arg>, s: Store)
    requires s.tmps != [] && fuel <= more && !EvArgs(ops, fuel, args, s).ArgsTimeout?
    ensures EvArgs(ops, more, args, s) == EvArgs(ops, fuel, args, s)
    decreases fuel, args, 0
  {
    if args != [] {
      EvFuel(ops, fuel, more, args[0].e, s);
      var r := Ev(ops, fuel, args[0].e, s);
      if r.Ok? { EvArgsFuel(ops, fuel, more, args[1..], r.s); }
    }
  }

  lemma {:induction false} LoopFuel(ops: Ops, fuel: nat, more: nat, c: Expr, b: Expr, s: Store)
    requires s.tmps != [] && fuel <= more && !Loop(ops, fuel, c, b, s).Timeout?
    ensures Loop(ops, more, c, b, s) == Loop(ops, fuel, c, b, s)
    decreases fuel, While(c, b), 0
  {
    EvFuel(ops, fuel, more, c, s);
    var r := Ev(ops, fuel, c, s);
    if r.Ok? && ops.truth(r.v) == Some(true) {
      EvFuel(ops, fuel, more, b, r.s);
      var q := Ev(ops, fuel, b, r.s);
      if q.Ok? { LoopFuel(ops, fuel - 1, more - 1, c, b, q.s); }
    }
  }
}
