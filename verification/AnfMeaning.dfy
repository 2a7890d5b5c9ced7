/** The conversion to A-normal form preserves meaning, provided that no operand assigns a variable
    that the residue of an earlier sibling operand still reads. */
module AnfMeaning {
  import opened Wrappers
  import opened Ast
  import opened Eval
  import A = Anf

  // ----- The condition -----

  /** The names that an operand still reads where it stood, once the rest of it has been hoisted. */
  function Residual(e: Expr): set<Name> {
    var s := Strip(e);
    if s.Special? then {User(s.id)}
    else if s.Sym? then {s.x}
    else if s.Binop? then Residual(s.left) + Residual(s.right)
    else {}
  }

  predicate Independent(e: Expr)
    decreases e, 0
  {
    match e
    case Call(h, args) => IndependentName(h) && IndependentArgs(args)
    case Assign(_, a) => if a.Call? then Independent(a) else IndependentName(a)
    case Special(_, a) => if a.Call? then Independent(a) else IndependentName(a)
    case Unop(_, a) => IndependentName(a)
    case Binop(_, l, r) => IndependentName(l) && IndependentName(r) && Residual(l) !! Writes(r)
    case Block(es) => IndependentSeq(es)
    case IfElse(c, t, f) => IndependentName(c) && Independent(t) && Independent(f)
    case While(c, b) => Independent(c) && Independent(b)
    case For(l) => Independent(l)
    case Request(c, _) => IndependentName(c)
    case _ => true
  }

  /** A `<<-` operand is hoisted as it is, so that nothing is asked of its inside. */
  predicate IndependentName(e: Expr)
    decreases e, 1
  {
    Strip(e).Special? || Independent(Strip(e))
  }

  predicate IndependentSeq(es: seq<Expr>)
    decreases es, 0
  {
    es == [] || (Independent(es[0]) && IndependentSeq(es[1..]))
  }

  predicate IndependentArgs(args: seq<Arg>)
    decreases args, 0
  {
    args == [] || (Independent(args[0].e) && IndependentArgs(args[1..]))
  }

  /** Every call in `e` has a name as its head. */
  predicate NamedHeads(e: Expr)
    decreases e, 0
  {
    match e
    case Call(h, args) => Strip(h).Sym? && NamedHeadsArgs(args)
    case Assign(_, a) => NamedHeads(a)
    case Special(_, a) => NamedHeads(a)
    case Unop(_, a) => NamedHeads(a)
    case Binop(_, l, r) => NamedHeads(l) && NamedHeads(r)
    case Block(es) => NamedHeadsSeq(es)
    case IfElse(c, t, f) => NamedHeads(c) && NamedHeads(t) && NamedHeads(f)
    case While(c, b) => NamedHeads(c) && NamedHeads(b)
    case For(l) => NamedHeads(l)
    case Request(c, _) => NamedHeads(c)
    case _ => true
  }

  predicate NamedHeadsSeq(es: seq<Expr>)
    decreases es, 0
  {
    es == [] || (NamedHeads(es[0]) && NamedHeadsSeq(es[1..]))
  }

  predicate NamedHeadsArgs(args: seq<Arg>)
    decreases args, 0
  {
    args == [] || (NamedHeads(args[0].e) && NamedHeadsArgs(args[1..]))
  }

  /** What holds of a source program that is given to the conversion.  When `strict`, its failures
      are preserved too. */
  predicate Source(e: Expr, strict: bool) {
    NoAnf(Mentions(e)) && Independent(e) && (strict ==> NamedHeads(e))
  }

  predicate SourceSeq(es: seq<Expr>, strict: bool) {
    NoAnf(MentionsSeq(es)) && IndependentSeq(es) && (strict ==> NamedHeadsSeq(es))
  }

  predicate NoAnf(names: set<Name>) {
    forall x :: x in names ==> !x.Anf?
  }

  /** A peer gives the same answer to a request and to its normal form. */
  ghost predicate RemoteNormal(ops: Ops) {
    forall k: nat, a, g: nat :: ops.remote(k, A.NormTerm(a, g).0) == ops.remote(k, a)
  }

  // ----- Following -----

  ghost const ANF: iset<Name> := iset x: Name | x.Anf?

  /** The converted side does as the source side does; if the source fails, it does not succeed. */
  ghost predicate Follows(r: Res, r2: Res, strict: bool) {
    match r
    case Ok(v, s) => r2.Ok? && r2.v == v && Agree(s, r2.s, ANF)
    case Err => strict ==> !r2.Ok?
    case Timeout => r2.Timeout?
  }

  datatype Run = Done(s: Store) | RunErr | RunTimeout

  /** Runs hoisted assignments for their effect. */
  function RunSeq(ops: Ops, fuel: nat, es: seq<Expr>, s: Store): (r: Run)
    requires s.tmps != []
    ensures r.Done? ==> |r.s.tmps| == |s.tmps|
  {
    if es == [] then Done(s) else
    match Ev(ops, fuel, es[0], s)
    case Ok(_, s1) => RunSeq(ops, fuel, es[1..], s1)
    case Err => RunErr
    case Timeout => RunTimeout
  }

  function Then(ops: Ops, fuel: nat, r: Run, e: Expr): Res
    requires r.Done? ==> r.s.tmps != []
  {
    match r
    case Done(s) => Ev(ops, fuel, e, s)
    case RunErr => Err
    case RunTimeout => Timeout
  }

  lemma {:induction false} RunConcat(ops: Ops, fuel: nat, a: seq<Expr>, b: seq<Expr>, s: Store)
    requires s.tmps != []
    ensures var r := RunSeq(ops, fuel, a, s);
      RunSeq(ops, fuel, a + b, s) == if r.Done? then RunSeq(ops, fuel, b, r.s) else r
  {
    if a == [] {
      assert a + b == b;
    } else {
      assert (a + b)[1..] == a[1..] + b;
      var r := Ev(ops, fuel, a[0], s);
      if r.Ok? { RunConcat(ops, fuel, a[1..], b, r.s); }
    }
  }

  lemma RunOne(ops: Ops, fuel: nat, e: Expr, s: Store)
    requires s.tmps != []
    ensures var r := Ev(ops, fuel, e, s);
      RunSeq(ops, fuel, [e], s) == (match r case Ok(_, s1) => Done(s1) case Err => RunErr case Timeout => RunTimeout)
  {
    assert [e][1..] == [];
  }

  lemma {:induction false} RunThenSeq(ops: Ops, fuel: nat, pre: seq<Expr>, e: Expr, rest: seq<Expr>, s: Store)
    requires s.tmps != []
    ensures var r := Then(ops, fuel, RunSeq(ops, fuel, pre, s), e);
      EvSeq(ops, fuel, pre + [e] + rest, s) == if r.Ok? && rest != [] then EvSeq(ops, fuel, rest, r.s) else r
  {
    if pre == [] {
      assert (pre + [e] + rest)[1..] == rest;
    } else {
      assert (pre + [e] + rest)[1..] == pre[1..] + [e] + rest;
      var r := Ev(ops, fuel, pre[0], s);
      if r.Ok? { RunThenSeq(ops, fuel, pre[1..], e, rest, r.s); }
    }
  }

  lemma EvStrip(ops: Ops, fuel: nat, e: Expr, s: Store)
    requires s.tmps != []
    ensures Ev(ops, fuel, Strip(e), s) == Ev(ops, fuel, e, s)
  {
  }

  lemma {:induction false} RunKept(ops: Ops, fuel: nat, es: seq<Expr>, s: Store)
    requires s.tmps != []
    ensures RunSeq(ops, fuel, es, s).Done? ==> Kept(s, RunSeq(ops, fuel, es, s).s, WritesSeq(es))
  {
    if es != [] {
      EvKept(ops, fuel, es[0], s);
      var r := Ev(ops, fuel, es[0], s);
      if r.Ok? {
        RunKept(ops, fuel, es[1..], r.s);
        var q := RunSeq(ops, fuel, es[1..], r.s);
        if q.Done? { KeptTrans(s, r.s, q.s, Writes(es[0]), WritesSeq(es[1..]), WritesSeq(es)); }
      }
    }
  }

  // ----- Residues are pure, and stable -----

  /** What an operand turns into: it reads variables and applies operators, and assigns nothing. */
  predicate Pure(e: Expr) {
    e.Lit? || e.Sym? || e.Break? || e.Next? || e.Ellipsis? || (e.Binop? && Pure(e.left) && Pure(e.right))
  }

  lemma {:induction false} PureEv(ops: Ops, fuel: nat, e: Expr, s: Store)
    requires s.tmps != [] && Pure(e)
    ensures var r := Ev(ops, fuel, e, s); !r.Timeout? && (r.Ok? ==> r.s == s)
  {
    if e.Binop? {
      PureEv(ops, fuel, e.left, s);
      PureEv(ops, fuel, e.right, s);
    }
  }

  lemma {:induction false} PureStable(ops: Ops, fuel: nat, e: Expr, s: Store, s': Store, w: set<Name>)
    requires s.tmps != [] && s'.tmps != [] && Pure(e) && Kept(s, s', w) && Mentions(e) !! w
    ensures var r := Ev(ops, fuel, e, s);
      Ev(ops, fuel, e, s') == if r.Ok? then Ok(r.v, s') else Err
  {
    PureEv(ops, fuel, e, s);
    match e
    case Sym(x) => KeptFind(s, s', w, x);
    case Binop(_, l, r) =>
      PureEv(ops, fuel, l, s);
      PureEv(ops, fuel, r, s);
      PureStable(ops, fuel, l, s, s', w);
      PureStable(ops, fuel, r, s, s', w);
    case _ =>
  }

  // ----- Names of the normal form -----

  ghost predicate Within(names: set<Name>, base: set<Name>, g: nat, g': nat) {
    forall x :: x in names ==> x in base || (x.Anf? && g <= x.n < g')
  }

  lemma WritesConcat(a: seq<Expr>, b: seq<Expr>)
    ensures WritesSeq(a + b) == WritesSeq(a) + WritesSeq(b)
  {
    if a == [] {
      assert a + b == b;
    } else {
      assert (a + b)[1..] == a[1..] + b;
      WritesConcat(a[1..], b);
    }
  }

  lemma WritesOne(e: Expr)
    ensures WritesSeq([e]) == Writes(e)
  {
    assert [e][1..] == [];
  }

  lemma {:induction false} NormWrites(e: Expr, g: nat)
    ensures var n := A.Norm(e, g); Within(WritesSeq(n.pre) + Writes(n.e), Writes(e), g, n.g)
    decreases e, 0
  {
    match e
    case Call(h, args) =>
      NameWrites(h, g);
      ArgsWrites(args, A.NormName(h, g).g);
    case Assign(x, a) => if a.Call? { NormWrites(a, g); } else { NameWrites(a, g); }
    case Special(x, a) => if a.Call? { NormWrites(a, g); } else { NameWrites(a, g); }
    case Unop(_, a) => NameWrites(a, g);
    case Binop(_, _, _) => BinopWrites(e, g);
    case Block(es) => TermsWrites(es, g);
    case IfElse(_, _, _) => IfWrites(e, g);
    case While(c, b) =>
      TermWrites(c, g);
      TermWrites(b, A.NormTerm(c, g).1);
    case For(l) => TermWrites(l, g);
    case Request(c, a) => NameWrites(c, g);
    case _ =>
  }

  lemma {:induction false} BinopWrites(e: Expr, g: nat)
    requires e.Binop?
    ensures var n := A.Norm(e, g); Within(WritesSeq(n.pre) + Writes(n.e), Writes(e), g, n.g)
    decreases e, 0, 0
  {
    var n := A.NormName(e.left, g);
    NameWrites(e.left, g);
    NameWrites(e.right, n.g);
    WritesConcat(n.pre, A.NormName(e.right, n.g).pre);
  }

  lemma {:induction false} IfWrites(e: Expr, g: nat)
    requires e.IfElse?
    ensures var n := A.Norm(e, g); Within(WritesSeq(n.pre) + Writes(n.e), Writes(e), g, n.g)
    decreases e, 0, 0
  {
    NameWrites(e.cond, g);
    var g1 := A.NormName(e.cond, g).g;
    TermWrites(e.thn, g1);
    TermWrites(e.els, A.NormTerm(e.thn, g1).1);
  }

  lemma {:induction false} NameWrites(e: Expr, g: nat)
    ensures var n := A.NormName(e, g);
      && Within(WritesSeq(n.pre) + Writes(n.e), Writes(e), g, n.g)
      && Pure(n.e) && Within(Mentions(n.e), Residual(e), g, n.g)
    decreases e, 1
  {
    StripMentions(e);
    var s := Strip(e);
    if s.Assign? {
      SavedWrites(s, g, A.Norm(s, g).g, Sym(s.x));
    } else if s.Special? {
      WritesOne(s);
    } else if !A.IsAtomic(s) {
      HoistWrites(s, g);
    } else {
      NormWrites(s, g);
      if s.Binop? {
        NameWrites(s.left, g);
        NameWrites(s.right, A.NormName(s.left, g).g);
      }
    }
  }

  lemma {:induction false} SavedWrites(s: Expr, g: nat, k: nat, a: Expr)
    requires k == A.Norm(s, g).g && a.Sym?
    ensures var n := A.Norm(s, g);
      Within(WritesSeq(n.pre + [n.e, Assign(Name.Anf(k), a)]), Writes(s), g, k + 1)
    decreases s, 1, 0
  {
    NormWrites(s, g);
    var n := A.Norm(s, g);
    var save := Assign(Name.Anf(k), a);
    WritesConcat(n.pre, [n.e, save]);
    WritesConcat([n.e], [save]);
    assert [n.e] + [save] == [n.e, save];
    WritesOne(n.e);
    WritesOne(save);
  }

  lemma {:induction false} HoistWrites(s: Expr, g: nat)
    ensures var n := A.Norm(s, g + 1);
      Within(WritesSeq(n.pre + [Assign(Name.Anf(g), n.e)]), Writes(s), g, n.g)
    decreases s, 1, 0
  {
    NormWrites(s, g + 1);
    var n := A.Norm(s, g + 1);
    WritesConcat(n.pre, [Assign(Name.Anf(g), n.e)]);
    WritesOne(Assign(Name.Anf(g), n.e));
  }

  lemma {:induction false} TermWrites(e: Expr, g: nat)
    ensures Within(Writes(A.NormTerm(e, g).0), Writes(e), g, A.NormTerm(e, g).1)
    decreases e, 2
  {
    if e.Block? {
      ListWrites(e.es, g);
      StripMentions(Block(A.NormList(e.es, g).0));
    } else {
      var n := A.Norm(e, g);
      NormWrites(e, g);
      WritesConcat(n.pre, [n.e]);
      WritesOne(n.e);
      StripMentions(Block(n.pre + [n.e]));
    }
  }

  lemma {:induction false} ListWrites(es: seq<Expr>, g: nat)
    ensures Within(WritesSeq(A.NormList(es, g).0), WritesSeq(es), g, A.NormList(es, g).1)
    decreases es, 0
  {
    if es != [] {
      var n := A.Norm(es[0], g);
      NormWrites(es[0], g);
      ListWrites(es[1..], n.g);
      WritesConcat(n.pre + [n.e], A.NormList(es[1..], n.g).0);
      WritesConcat(n.pre, [n.e]);
      WritesOne(n.e);
    }
  }

  lemma {:induction false} TermsWrites(es: seq<Expr>, g: nat)
    ensures Within(WritesSeq(A.NormTerms(es, g).0), WritesSeq(es), g, A.NormTerms(es, g).1)
    decreases es, 0
  {
    if es != [] {
      TermWrites(es[0], g);
      var (e', g1) := A.NormTerm(es[0], g);
      TermsWrites(es[1..], g1);
      assert ([e'] + A.NormTerms(es[1..], g1).0)[1..] == A.NormTerms(es[1..], g1).0;
    }
  }

  lemma {:induction false} ArgsWrites(args: seq<Arg>, g: nat)
    ensures Within(WritesArgs(A.NormArgs(args, g).0), WritesArgs(args), g, A.NormArgs(args, g).1)
    decreases args, 0
  {
    if args != [] {
      TermWrites(args[0].e, g);
      var (e', g1) := A.NormTerm(args[0].e, g);
      ArgsWrites(args[1..], g1);
      assert ([Arg(args[0].formal, e')] + A.NormArgs(args[1..], g1).0)[1..] == A.NormArgs(args[1..], g1).0;
    }
  }

  // ----- Small facts -----

  lemma {:induction false} ResidualMentioned(e: Expr)
    ensures Residual(e) <= Mentions(e)
  {
    StripMentions(e);
    var s := Strip(e);
    if s.Binop? { ResidualMentioned(s.left); ResidualMentioned(s.right); }
  }

  lemma StripNamed(e: Expr)
    ensures NamedHeads(Strip(e)) == NamedHeads(e) && Independent(Strip(e)) == Independent(e)
  {
    if e.Block? && |e.es| == 1 {
      assert e.es[1..] == [];
      assert NamedHeadsSeq(e.es) == (NamedHeads(e.es[0]) && NamedHeadsSeq([]));
      assert IndependentSeq(e.es) == (Independent(e.es[0]) && IndependentSeq([]));
    }
  }

  lemma AddAnf(s1: Store, s2: Store, x: Name, c: Cell)
    requires s1.tmps != [] && Agree(s1, s2, ANF) && x.Anf?
    ensures Agree(s1, Add(s2, x, c), ANF)
  {
    var a := Add(s2, x, c);
    forall i, y | 0 <= i < |s1.tmps| && y !in ANF ensures SameAt(s1.tmps[i], a.tmps[i], y) {
      assert SameAt(s1.tmps[i], s2.tmps[i], y);
    }
  }

  lemma {:induction false} FoundFunction(s: Store, x: Name, b: string)
    requires Find(s, x) == Some(Val(VBuiltin(b)))
    ensures FindFunction(s, x) == Some(b)
  {
    if IsTemporary(x) { FoundFunctionTemporary(s.tmps, x, b); }
  }

  lemma {:induction false} FoundFunctionTemporary(tmps: seq<map<Name, Cell>>, x: Name, b: string)
    requires FindTemporary(tmps, x) == Some(Val(VBuiltin(b)))
    ensures FindFunctionTemporary(tmps, x) == Some(b)
  {
    if x !in tmps[0] { FoundFunctionTemporary(tmps[1..], x, b); }
  }

  // ----- Preservation -----

  lemma {:induction false} NormSound(ops: Ops, fuel: nat, e: Expr, g: nat, s1: Store, s2: Store, strict: bool)
    requires s1.tmps != [] && Agree(s1, s2, ANF) && Source(e, strict) && RemoteNormal(ops)
    ensures var n := A.Norm(e, g);
      Follows(Ev(ops, fuel, e, s1), Then(ops, fuel, RunSeq(ops, fuel, n.pre, s2), n.e), strict)
    decreases fuel, e, 1
  {
    match e
    case Lit(_) =>
    case Sym(x) => FindAgree(s1, s2, ANF, x);
    case Break =>
    case Next =>
    case Ellipsis =>
    case Unop(_, a) => NameSound(ops, fuel, a, g, s1, s2, strict);
    case Binop(_, _, _) => BinopSound(ops, fuel, e, g, s1, s2, strict);
    case Block(es) => TermsSound(ops, fuel, es, g, s1, s2, strict);
    case While(_, _) => WhileSound(ops, fuel, e, g, s1, s2, strict);
    case IfElse(c, t, f) => IfSound(ops, fuel, e, g, s1, s2, strict);
    case For(l) => TermSound(ops, fuel, l, g, s1, s2, strict);
    case Assign(_, a) => AssignSound(ops, fuel, e, a, g, s1, s2, strict);
    case Special(_, a) => AssignSound(ops, fuel, e, a, g, s1, s2, strict);
    case Request(c, a) => NameSound(ops, fuel, c, g, s1, s2, strict);
    case Call(h, args) => CallSound(ops, fuel, e, g, s1, s2, strict);
  }

  /** An operand: after its hoisted part has run, its residue gives its value and changes nothing. */
  ghost predicate NameFollows(ops: Ops, fuel: nat, r: Res, p: Run, a: Expr, strict: bool)
    requires p.Done? ==> p.s.tmps != []
  {
    match r
    case Ok(v, s) => p.Done? && Agree(s, p.s, ANF) && Ev(ops, fuel, a, p.s) == Ok(v, p.s)
    case Err => strict ==> (!p.Done? || Ev(ops, fuel, a, p.s).Err?)
    case Timeout => p.RunTimeout?
  }

  lemma {:induction false} NameSound(ops: Ops, fuel: nat, e: Expr, g: nat, s1: Store, s2: Store, strict: bool)
    requires s1.tmps != [] && Agree(s1, s2, ANF) && RemoteNormal(ops)
    requires NoAnf(Mentions(e)) && IndependentName(e) && (strict ==> NamedHeads(e))
    ensures var n := A.NormName(e, g);
      NameFollows(ops, fuel, Ev(ops, fuel, e, s1), RunSeq(ops, fuel, n.pre, s2), n.e, strict)
    decreases fuel, e, 2
  {
    StripMentions(e);
    EvStrip(ops, fuel, e, s1);
    StripNamed(e);
    var s := Strip(e);
    if s.Special? {
      SpecialOperand(ops, fuel, s, s1, s2, strict);
    } else if s.Assign? {
      AssignOperand(ops, fuel, s, g, s1, s2, strict);
    } else if !A.IsAtomic(s) {
      HoistedOperand(ops, fuel, s, g, s1, s2, strict);
    } else {
      NormSound(ops, fuel, s, g, s1, s2, strict);
      NameWrites(e, g);
      var n := A.Norm(s, g);
      var p := RunSeq(ops, fuel, n.pre, s2);
      if p.Done? { PureEv(ops, fuel, n.e, p.s); }
    }
  }

  /** A `<<-` operand runs as it is, and its residue reads what was just assigned. */
  lemma {:induction false} SpecialOperand(ops: Ops, fuel: nat, s: Expr, s1: Store, s2: Store, strict: bool)
    requires s1.tmps != [] && Agree(s1, s2, ANF) && NoAnf(Mentions(s)) && s.Special?
    ensures NameFollows(ops, fuel, Ev(ops, fuel, s, s1), RunSeq(ops, fuel, [s], s2), Sym(User(s.id)), strict)
  {
    EvAgree(ops, fuel, s, s1, s2, ANF);
    RunOne(ops, fuel, s, s2);
  }

  lemma {:induction false} AssignOperand(ops: Ops, fuel: nat, s: Expr, g: nat, s1: Store, s2: Store, strict: bool)
    requires s1.tmps != [] && Agree(s1, s2, ANF) && RemoteNormal(ops) && Source(s, strict) && s.Assign?
    ensures var n := A.Norm(s, g);
      NameFollows(ops, fuel, Ev(ops, fuel, s, s1),
                  RunSeq(ops, fuel, n.pre + [n.e, Assign(Name.Anf(n.g), Sym(s.x))], s2), Sym(Name.Anf(n.g)), strict)
    decreases fuel, s, 2, 0
  {
    NormSound(ops, fuel, s, g, s1, s2, strict);
    var n := A.Norm(s, g);
    var save := Assign(Name.Anf(n.g), Sym(s.x));
    RunConcat(ops, fuel, n.pre, [n.e, save], s2);
    var p := RunSeq(ops, fuel, n.pre, s2);
    if p.Done? {
      assert [n.e, save][1..] == [save];
      var q := Ev(ops, fuel, n.e, p.s);
      if q.Ok? {
        RunOne(ops, fuel, save, q.s);
        assert Find(q.s, s.x) == Some(Val(q.v));
        AddedIsRead(ops, fuel, q.s, Name.Anf(n.g), q.v);
        var r := Ev(ops, fuel, s, s1);
        if r.Ok? { AddAnf(r.s, q.s, Name.Anf(n.g), Val(r.v)); }
      }
    }
  }

  lemma AddedIsRead(ops: Ops, fuel: nat, s: Store, x: Name, v: Value)
    requires s.tmps != []
    ensures Ev(ops, fuel, Sym(x), Add(s, x, Val(v))) == Ok(v, Add(s, x, Val(v)))
  {
  }

  lemma {:induction false} HoistedOperand(ops: Ops, fuel: nat, s: Expr, g: nat, s1: Store, s2: Store, strict: bool)
    requires s1.tmps != [] && Agree(s1, s2, ANF) && RemoteNormal(ops) && Source(s, strict)
    ensures var n := A.Norm(s, g + 1);
      NameFollows(ops, fuel, Ev(ops, fuel, s, s1),
                  RunSeq(ops, fuel, n.pre + [Assign(Name.Anf(g), n.e)], s2), Sym(Name.Anf(g)), strict)
    decreases fuel, s, 2, 0
  {
    NormSound(ops, fuel, s, g + 1, s1, s2, strict);
    var n := A.Norm(s, g + 1);
    var save := Assign(Name.Anf(g), n.e);
    RunConcat(ops, fuel, n.pre, [save], s2);
    var p := RunSeq(ops, fuel, n.pre, s2);
    if p.Done? {
      RunOne(ops, fuel, save, p.s);
      var q := Ev(ops, fuel, n.e, p.s);
      if q.Ok? {
        AddedIsRead(ops, fuel, q.s, Name.Anf(g), q.v);
        var r := Ev(ops, fuel, s, s1);
        if r.Ok? { AddAnf(r.s, q.s, Name.Anf(g), Val(r.v)); }
      }
    }
  }

  lemma {:induction false} BinopSound(ops: Ops, fuel: nat, e: Expr, g: nat, s1: Store, s2: Store, strict: bool)
    requires s1.tmps != [] && Agree(s1, s2, ANF) && Source(e, strict) && RemoteNormal(ops) && e.Binop?
    ensures var n := A.Norm(e, g);
      Follows(Ev(ops, fuel, e, s1), Then(ops, fuel, RunSeq(ops, fuel, n.pre, s2), n.e), strict)
    decreases fuel, e, 0
  {
    var n := A.NormName(e.left, g);
    var m := A.NormName(e.right, n.g);
    NameSound(ops, fuel, e.left, g, s1, s2, strict);
    RunConcat(ops, fuel, n.pre, m.pre, s2);
    var l := Ev(ops, fuel, e.left, s1);
    var p := RunSeq(ops, fuel, n.pre, s2);
    if p.Done? {
      var q := RunSeq(ops, fuel, m.pre, p.s);
      if q.Done? {
        ResidueSurvives(e.left, e.right, g);
        RunKept(ops, fuel, m.pre, p.s);
        NameWrites(e.left, g);
        PureStable(ops, fuel, n.e, p.s, q.s, WritesSeq(m.pre));
      }
      if l.Ok? { NameSound(ops, fuel, e.right, n.g, l.s, p.s, strict); }
    }
  }

  /** What the right operand hoists assigns nothing that the residue of the left operand reads. */
  lemma ResidueSurvives(l: Expr, r: Expr, g: nat)
    requires NoAnf(Mentions(l)) && NoAnf(Mentions(r)) && Residual(l) !! Writes(r)
    ensures var n := A.NormName(l, g); Mentions(n.e) !! WritesSeq(A.NormName(r, n.g).pre)
  {
    NameWrites(l, g);
    NameWrites(r, A.NormName(l, g).g);
    ResidualMentioned(l);
    WritesMentioned(r);
  }

  lemma {:induction false} AssignSound(ops: Ops, fuel: nat, e: Expr, a: Expr, g: nat, s1: Store, s2: Store, strict: bool)
    requires s1.tmps != [] && Agree(s1, s2, ANF) && Source(e, strict) && RemoteNormal(ops)
    requires (e.Assign? || e.Special?) && e.e == a
    ensures var n := A.Norm(e, g);
      Follows(Ev(ops, fuel, e, s1), Then(ops, fuel, RunSeq(ops, fuel, n.pre, s2), n.e), strict)
    decreases fuel, e, 0
  {
    var n := if a.Call? then A.Norm(a, g) else A.NormName(a, g);
    if a.Call? {
      NormSound(ops, fuel, a, g, s1, s2, strict);
    } else {
      NameSound(ops, fuel, a, g, s1, s2, strict);
    }
    var r1 := Ev(ops, fuel, a, s1);
    var p := RunSeq(ops, fuel, n.pre, s2);
    if r1.Ok? && e.Assign? {
      AddAgree(r1.s, Ev(ops, fuel, n.e, p.s).s, ANF, e.x, Val(r1.v));
    }
  }

  lemma {:induction false} IfSound(ops: Ops, fuel: nat, e: Expr, g: nat, s1: Store, s2: Store, strict: bool)
    requires s1.tmps != [] && Agree(s1, s2, ANF) && Source(e, strict) && RemoteNormal(ops) && e.IfElse?
    ensures var n := A.Norm(e, g);
      Follows(Ev(ops, fuel, e, s1), Then(ops, fuel, RunSeq(ops, fuel, n.pre, s2), n.e), strict)
    decreases fuel, e, 0
  {
    var n := A.NormName(e.cond, g);
    NameSound(ops, fuel, e.cond, g, s1, s2, strict);
    var r := Ev(ops, fuel, e.cond, s1);
    var p := RunSeq(ops, fuel, n.pre, s2);
    if r.Ok? {
      TermSound(ops, fuel, e.thn, n.g, r.s, p.s, strict);
      TermSound(ops, fuel, e.els, A.NormTerm(e.thn, n.g).1, r.s, p.s, strict);
    }
  }

  lemma {:induction false} CallSound(ops: Ops, fuel: nat, e: Expr, g: nat, s1: Store, s2: Store, strict: bool)
    requires s1.tmps != [] && Agree(s1, s2, ANF) && Source(e, strict) && RemoteNormal(ops) && e.Call?
    ensures var n := A.Norm(e, g);
      Follows(Ev(ops, fuel, e, s1), Then(ops, fuel, RunSeq(ops, fuel, n.pre, s2), n.e), strict)
    decreases fuel, e, 0
  {
    var h, n := Strip(e.head), A.NormName(e.head, g);
    StripMentions(e.head);
    EvStrip(ops, fuel, e.head, s1);
    NameWrites(e.head, g);
    if h.Sym? {
      FindAgree(s1, s2, ANF, h.x);
      if FindFunction(s1, h.x).Some? { CallTail(ops, fuel, e, n.g, s1, s2, FindFunction(s1, h.x).value, strict); }
    } else {
      NameSound(ops, fuel, e.head, g, s1, s2, strict);
      var r := Ev(ops, fuel, h, s1);
      var p := RunSeq(ops, fuel, n.pre, s2);
      if r.Ok? && r.v.VBuiltin? {
        if n.e.Sym? { FoundFunction(p.s, n.e.x, r.v.name); }
        CallTail(ops, fuel, e, n.g, r.s, p.s, r.v.name, strict);
      }
    }
  }

  lemma {:induction false} CallTail(ops: Ops, fuel: nat, e: Expr, g: nat, s1: Store, s2: Store, b: string, strict: bool)
    requires s1.tmps != [] && Agree(s1, s2, ANF) && Source(e, strict) && RemoteNormal(ops) && e.Call?
    ensures Follows(Invoke(ops, b, EvArgs(ops, fuel, e.args, s1)),
                    Invoke(ops, b, EvArgs(ops, fuel, A.NormArgs(e.args, g).0, s2)), strict)
    decreases fuel, e, 0, 0
  {
    ArgsSound(ops, fuel, e.args, g, s1, s2, strict);
    var a1, a2 := EvArgs(ops, fuel, e.args, s1), EvArgs(ops, fuel, A.NormArgs(e.args, g).0, s2);
    if a1.ArgsOk? { UserAgree(a1.s, a2.s, ANF, b); }
  }

  ghost predicate FollowsArgs(r: ArgsRes, r2: ArgsRes, strict: bool) {
    match r
    case ArgsOk(vs, s) => r2.ArgsOk? && r2.vs == vs && Agree(s, r2.s, ANF)
    case ArgsErr => strict ==> !r2.ArgsOk?
    case ArgsTimeout => r2.ArgsTimeout?
  }

  lemma {:induction false} ArgsSound(ops: Ops, fuel: nat, args: seq<Arg>, g: nat, s1: Store, s2: Store, strict: bool)
    requires s1.tmps != [] && Agree(s1, s2, ANF) && RemoteNormal(ops)
    requires NoAnf(MentionsArgs(args)) && IndependentArgs(args) && (strict ==> NamedHeadsArgs(args))
    ensures FollowsArgs(EvArgs(ops, fuel, args, s1), EvArgs(ops, fuel, A.NormArgs(args, g).0, s2), strict)
    decreases fuel, args, 0
  {
    if args != [] {
      var (e', g1) := A.NormTerm(args[0].e, g);
      var rest := A.NormArgs(args[1..], g1).0;
      assert ([Arg(args[0].formal, e')] + rest)[1..] == rest;
      TermSound(ops, fuel, args[0].e, g, s1, s2, strict);
      var r1, r2 := Ev(ops, fuel, args[0].e, s1), Ev(ops, fuel, e', s2);
      if r1.Ok? { ArgsSound(ops, fuel, args[1..], g1, r1.s, r2.s, strict); }
    }
  }

  /** An expression and the list that it is turned into have the same meaning. */
  lemma {:induction false} TermSound(ops: Ops, fuel: nat, e: Expr, g: nat, s1: Store, s2: Store, strict: bool)
    requires s1.tmps != [] && Agree(s1, s2, ANF) && Source(e, strict) && RemoteNormal(ops)
    ensures Follows(Ev(ops, fuel, e, s1), Ev(ops, fuel, A.NormTerm(e, g).0, s2), strict)
    decreases fuel, e, 3
  {
    if e.Block? {
      ListSound(ops, fuel, e.es, g, s1, s2, strict);
      EvStrip(ops, fuel, Block(A.NormList(e.es, g).0), s2);
    } else {
      var n := A.Norm(e, g);
      NormSound(ops, fuel, e, g, s1, s2, strict);
      RunThenSeq(ops, fuel, n.pre, n.e, [], s2);
      assert n.pre + [n.e] + [] == n.pre + [n.e];
      EvStrip(ops, fuel, Block(n.pre + [n.e]), s2);
    }
  }

  /** The conversion of an expression list preserves its value and every name that is not `?anf`. */
  lemma {:induction false} ListSound(ops: Ops, fuel: nat, es: seq<Expr>, g: nat, s1: Store, s2: Store, strict: bool)
    requires s1.tmps != [] && Agree(s1, s2, ANF) && SourceSeq(es, strict) && RemoteNormal(ops)
    ensures Follows(EvSeq(ops, fuel, es, s1), EvSeq(ops, fuel, A.NormList(es, g).0, s2), strict)
    decreases fuel, es, 0
  {
    if es != [] {
      var n := A.Norm(es[0], g);
      var rest := A.NormList(es[1..], n.g).0;
      NormSound(ops, fuel, es[0], g, s1, s2, strict);
      RunThenSeq(ops, fuel, n.pre, n.e, rest, s2);
      ListSoundRest(es, n.g);
      var r1, r2 := Ev(ops, fuel, es[0], s1), Then(ops, fuel, RunSeq(ops, fuel, n.pre, s2), n.e);
      if r1.Ok? && |es| > 1 { ListSound(ops, fuel, es[1..], n.g, r1.s, r2.s, strict); }
    }
  }

  lemma ListSoundRest(es: seq<Expr>, g: nat)
    requires es != []
    ensures A.NormList(es[1..], g).0 == [] <==> |es| == 1
  {
  }

  lemma {:induction false} TermsSound(ops: Ops, fuel: nat, es: seq<Expr>, g: nat, s1: Store, s2: Store, strict: bool)
    requires s1.tmps != [] && Agree(s1, s2, ANF) && SourceSeq(es, strict) && RemoteNormal(ops)
    ensures Follows(EvSeq(ops, fuel, es, s1), EvSeq(ops, fuel, A.NormTerms(es, g).0, s2), strict)
    decreases fuel, es, 0
  {
    if es != [] {
      var (e', g1) := A.NormTerm(es[0], g);
      var rest := A.NormTerms(es[1..], g1).0;
      assert ([e'] + rest)[1..] == rest;
      assert rest == [] <==> |es| == 1;
      TermSound(ops, fuel, es[0], g, s1, s2, strict);
      var r1, r2 := Ev(ops, fuel, es[0], s1), Ev(ops, fuel, e', s2);
      if r1.Ok? && |es| > 1 { TermsSound(ops, fuel, es[1..], g1, r1.s, r2.s, strict); }
    }
  }

  lemma {:induction false} WhileSound(ops: Ops, fuel: nat, e: Expr, g: nat, s1: Store, s2: Store, strict: bool)
    requires s1.tmps != [] && Agree(s1, s2, ANF) && Source(e, strict) && RemoteNormal(ops) && e.While?
    ensures Follows(Ev(ops, fuel, e, s1), Ev(ops, fuel, A.Norm(e, g).e, s2), strict)
    decreases fuel, e, 0, 1
  {
    var g1 := A.NormTerm(e.cond, g).1;
    assert Agree(Push(s1), Push(s2), ANF);
    LoopSound(ops, fuel, e.cond, e.body, g, g1, Push(s1), Push(s2), strict);
    var r1 := Loop(ops, fuel, e.cond, e.body, Push(s1));
    var r2 := Loop(ops, fuel, A.NormTerm(e.cond, g).0, A.NormTerm(e.body, g1).0, Push(s2));
    if r1.Ok? { assert Agree(Pop(r1.s), Pop(r2.s), ANF); }
  }

  lemma {:induction false} LoopSound(ops: Ops, fuel: nat, c: Expr, b: Expr, g: nat, g1: nat, s1: Store, s2: Store, strict: bool)
    requires s1.tmps != [] && Agree(s1, s2, ANF) && Source(While(c, b), strict) && RemoteNormal(ops)
    ensures Follows(Loop(ops, fuel, c, b, s1), Loop(ops, fuel, A.NormTerm(c, g).0, A.NormTerm(b, g1).0, s2), strict)
    decreases fuel, While(c, b), 0, 0
  {
    assert Source(c, strict) && Source(b, strict);
    hide Source, A.NormTerm, Agree, RemoteNormal;
    TermSound(ops, fuel, c, g, s1, s2, strict);
    var r1, r2 := Ev(ops, fuel, c, s1), Ev(ops, fuel, A.NormTerm(c, g).0, s2);
    if r1.Ok? && ops.truth(r1.v) == Some(true) {
      TermSound(ops, fuel, b, g1, r1.s, r2.s, strict);
      var q1, q2 := Ev(ops, fuel, b, r1.s), Ev(ops, fuel, A.NormTerm(b, g1).0, r2.s);
      if q1.Ok? && fuel > 0 { LoopSound(ops, fuel - 1, c, b, g, g1, q1.s, q2.s, strict); }
    }
  }

  // ----- The theorem, and how sharp its condition is -----

  /** Converting a program changes neither its value nor any variable of the user: it succeeds on
      exactly the stores on which the source succeeds, and diverges when the source does. */
  lemma ConversionPreservesMeaning(ops: Ops, fuel: nat, es: seq<Expr>, g: nat, s: Store)
    requires s.tmps != [] && RemoteNormal(ops)
    requires NoAnf(MentionsSeq(es)) && IndependentSeq(es)
    ensures var r, r' := EvSeq(ops, fuel, es, s), EvSeq(ops, fuel, A.NormList(es, g).0, s);
      && (r.Ok? ==> r'.Ok? && r'.v == r.v && r'.s.work == r.s.work && r'.s.glob == r.s.glob)
      && (r.Timeout? ==> r'.Timeout?)
      && (NamedHeadsSeq(es) ==> (r.Ok? <==> r'.Ok?))
  {
    ListSound(ops, fuel, es, g, s, s, false);
    if NamedHeadsSeq(es) { ListSound(ops, fuel, es, g, s, s, true); }
  }

  /** Operators that build terms: they tell any two different operands apart. */
  const FREE: Ops := Ops(
    (op, a) => Some(VSeq([a])),
    (op, a, b) => Some(VSeq([a, b])),
    (b, vs) => None,
    v => None,
    (k, e) => VNull)

  predicate Readable(e: Expr) {
    e.Lit? || (e.Sym? && e.x.User?) || (e.Binop? && Readable(e.left) && Readable(e.right))
  }

  function ConstantStore(names: set<Name>, w: Value): Store {
    Store(map x | x in names :: Val(w), map[], [map[]])
  }

  /** In the term algebra a readable expression has a value, which shows every variable it reads. */
  lemma {:induction false} FreeTerm(l: Expr, names: set<Name>, x: Name, w: Value, v: Value)
    requires Readable(l) && Mentions(l) <= names && x.User? && v != w
    ensures var s := ConstantStore(names, w);
      var r, r' := Ev(FREE, 0, l, s), Ev(FREE, 0, l, Add(s, x, Val(v)));
      r.Ok? && r.s == s && r'.Ok? && r'.s == Add(s, x, Val(v)) && (r'.v == r.v <==> x !in Mentions(l))
  {
    if l.Binop? {
      FreeTerm(l.left, names, x, w, v);
      FreeTerm(l.right, names, x, w, v);
      var s := ConstantStore(names, w);
      var l1, l2 := Ev(FREE, 0, l.left, s), Ev(FREE, 0, l.left, Add(s, x, Val(v)));
      var r1, r2 := Ev(FREE, 0, l.right, s), Ev(FREE, 0, l.right, Add(s, x, Val(v)));
      assert [l1.v, r1.v][0] == l1.v && [l1.v, r1.v][1] == r1.v;
      assert [l2.v, r2.v][0] == l2.v && [l2.v, r2.v][1] == r2.v;
    }
  }

  ghost predicate PreservedEverywhere(e: Expr, g: nat) {
    forall ops: Ops, fuel: nat, s: Store :: RemoteNormal(ops) && s.tmps != [] ==>
      Follows(Ev(ops, fuel, e, s), EvSeq(ops, fuel, A.NormList([e], g).0, s), false)
  }

  /** `l op (x <- v)` keeps its meaning under every operator and in every store exactly when `l`
      does not read `x`: otherwise `l` is read after the assignment. */
  lemma ConditionIsExact(op: nat, l: Expr, x: string, v: Value, g: nat)
    requires Readable(l)
    ensures PreservedEverywhere(Binop(op, l, Assign(User(x), Lit(v))), g) <==> User(x) !in Residual(l)
  {
    var e := Binop(op, l, Assign(User(x), Lit(v)));
    ReadableIsSource(l);
    assert [e][1..] == [];
    if User(x) !in Residual(l) {
      forall ops: Ops, fuel: nat, s: Store | RemoteNormal(ops) && s.tmps != []
        ensures Follows(Ev(ops, fuel, e, s), EvSeq(ops, fuel, A.NormList([e], g).0, s), false)
      {
        EarlyReadIsSource(op, l, x, v);
        ListSound(ops, fuel, [e], g, s, s, false);
      }
    } else {
      LateRead(op, l, x, v, g, if v == VNull then VBool(true) else VNull);
    }
  }

  lemma EarlyReadIsSource(op: nat, l: Expr, x: string, v: Value)
    requires Readable(l) && User(x) !in Residual(l)
    ensures SourceSeq([Binop(op, l, Assign(User(x), Lit(v)))], false)
  {
    var a := Assign(User(x), Lit(v));
    var e := Binop(op, l, a);
    ReadableIsSource(l);
    assert Independent(Lit(v)) && IndependentName(Lit(v)) && Independent(a);
    assert Mentions(Lit(v)) == {} && Writes(Lit(v)) == {} && Mentions(a) == {User(x)} && Writes(a) == {User(x)};
    assert Strip(l) == l && Strip(a) == a && Residual(l) !! Writes(a);
    assert [e][1..] == [];
    assert MentionsSeq([e]) == Mentions(e) + MentionsSeq([]);
    assert IndependentSeq([e]) == (Independent(e) && IndependentSeq([]));
  }

  lemma LateReadOut(op: nat, l: Expr, x: string, v: Value, g: nat)
    requires Readable(l)
    ensures A.NormList([Binop(op, l, Assign(User(x), Lit(v)))], g).0 ==
      [Assign(User(x), Lit(v)), Assign(Name.Anf(g), Sym(User(x))), Binop(op, l, Sym(Name.Anf(g)))]
  {
    var a := Assign(User(x), Lit(v));
    var e := Binop(op, l, a);
    ReadableIsNormal(l, g);
    ReadableIsNormal(Lit(v), g);
    assert A.Norm(a, g) == A.Normal([], a, g);
    assert A.NormName(a, g).pre == [] + [a, Assign(Name.Anf(g), Sym(User(x)))];
    assert [e][1..] == [];
    var n := A.Norm(e, g);
    assert n.pre == [a, Assign(Name.Anf(g), Sym(User(x)))];
    assert A.NormList([e], g).0 == n.pre + [n.e] + [];
  }

  lemma FreeBinop(op: nat, l: Expr, r: Expr, s: Store)
    requires s.tmps != [] && Ev(FREE, 0, l, s).Ok? && Ev(FREE, 0, r, Ev(FREE, 0, l, s).s).Ok?
    ensures var a := Ev(FREE, 0, l, s);
      var b := Ev(FREE, 0, r, a.s);
      Ev(FREE, 0, Binop(op, l, r), s) == Ok(VSeq([a.v, b.v]), b.s)
  {
  }

  lemma ThreeSteps(ops: Ops, e0: Expr, e1: Expr, e2: Expr, s: Store)
    requires s.tmps != [] && Ev(ops, 0, e0, s).Ok? && Ev(ops, 0, e1, Ev(ops, 0, e0, s).s).Ok?
    ensures EvSeq(ops, 0, [e0, e1, e2], s) == Ev(ops, 0, e2, Ev(ops, 0, e1, Ev(ops, 0, e0, s).s).s)
  {
    var s1 := Ev(ops, 0, e0, s).s;
    assert [e0, e1, e2][1..] == [e1, e2] && [e1, e2][1..] == [e2];
    assert EvSeq(ops, 0, [e1, e2], s1) == EvSeq(ops, 0, [e2], Ev(ops, 0, e1, s1).s);
  }

  /** The failing family: the variable that the left operand reads is assigned by the right one. */
  lemma LateRead(op: nat, l: Expr, x: string, v: Value, g: nat, w: Value)
    requires Readable(l) && User(x) in Mentions(l) && w != v
    ensures !PreservedEverywhere(Binop(op, l, Assign(User(x), Lit(v))), g)
  {
    var e := Binop(op, l, Assign(User(x), Lit(v)));
    var s := ConstantStore(Mentions(l), w);
    LateReadValues(op, l, x, v, g, w);
    Differ(e, A.NormList([e], g).0, s, Ev(FREE, 0, l, s).v, Ev(FREE, 0, l, Add(s, User(x), Val(v))).v, v);
    assert RemoteNormal(FREE);
  }

  lemma LateReadValues(op: nat, l: Expr, x: string, v: Value, g: nat, w: Value)
    requires Readable(l) && User(x) in Mentions(l) && w != v
    ensures var e, s := Binop(op, l, Assign(User(x), Lit(v))), ConstantStore(Mentions(l), w);
      var c, d := Ev(FREE, 0, l, s), Ev(FREE, 0, l, Add(s, User(x), Val(v)));
      && c.Ok? && d.Ok? && c.v != d.v
      && Ev(FREE, 0, e, s).Ok? && Ev(FREE, 0, e, s).v == VSeq([c.v, v])
      && EvSeq(FREE, 0, A.NormList([e], g).0, s).Ok? && EvSeq(FREE, 0, A.NormList([e], g).0, s).v == VSeq([d.v, v])
  {
    var s := ConstantStore(Mentions(l), w);
    FreeTerm(l, Mentions(l), User(x), w, v);
    AssignStep(s, User(x), v);
    FreeBinop(op, l, Assign(User(x), Lit(v)), s);
    ConvertedValue(op, l, x, v, g, s);
  }

  lemma AssignStep(s: Store, x: Name, v: Value)
    requires s.tmps != []
    ensures Ev(FREE, 0, Assign(x, Lit(v)), s) == Ok(v, Add(s, x, Val(v)))
  {
  }

  lemma SaveStep(s: Store, x: Name, t: Name, v: Value)
    requires s.tmps != [] && Find(s, x) == Some(Val(v))
    ensures Ev(FREE, 0, Assign(t, Sym(x)), s) == Ok(v, Add(s, t, Val(v)))
  {
    var r := ReadVariable(s, x);
    assert r == Ok(v, s);
    assert Ev(FREE, 0, Sym(x), s) == r;
  }

  lemma ConvertedValue(op: nat, l: Expr, x: string, v: Value, g: nat, s: Store)
    requires s.tmps != [] && Readable(l)
    requires Ev(FREE, 0, l, Add(s, User(x), Val(v))).Ok?
    ensures var out := A.NormList([Binop(op, l, Assign(User(x), Lit(v)))], g).0;
      var r := EvSeq(FREE, 0, out, s);
      r.Ok? && r.v == VSeq([Ev(FREE, 0, l, Add(s, User(x), Val(v))).v, v])
  {
    var t := Name.Anf(g);
    var s1 := Add(s, User(x), Val(v));
    var s2 := Add(s1, t, Val(v));
    LateReadOut(op, l, x, v, g);
    AssignStep(s, User(x), v);
    SaveStep(s1, User(x), t, v);
    AddedIsRead(FREE, 0, s1, t, v);
    ReadableIsSource(l);
    assert Kept(s1, s2, {t});
    PureStable(FREE, 0, l, s1, s2, {t});
    FreeBinop(op, l, Sym(t), s2);
    ThreeSteps(FREE, Assign(User(x), Lit(v)), Assign(t, Sym(User(x))), Binop(op, l, Sym(t)), s);
  }

  lemma Differ(e: Expr, out: seq<Expr>, s: Store, c: Value, d: Value, v: Value)
    requires s.tmps != [] && c != d
    requires Ev(FREE, 0, e, s).Ok? && Ev(FREE, 0, e, s).v == VSeq([c, v])
    requires EvSeq(FREE, 0, out, s).Ok? && EvSeq(FREE, 0, out, s).v == VSeq([d, v])
    ensures !Follows(Ev(FREE, 0, e, s), EvSeq(FREE, 0, out, s), false)
  {
    assert [c, v][0] != [d, v][0];
  }

  lemma {:induction false} ReadableIsSource(l: Expr)
    requires Readable(l)
    ensures Pure(l) && NoAnf(Mentions(l)) && Independent(l) && Residual(l) == Mentions(l) && Writes(l) == {}
  {
    if l.Binop? {
      ReadableIsSource(l.left);
      ReadableIsSource(l.right);
    }
  }

  lemma {:induction false} ReadableIsNormal(l: Expr, g: nat)
    requires Readable(l)
    ensures A.NormName(l, g) == A.Norm(l, g) == A.Normal([], l, g)
  {
    if l.Binop? {
      ReadableIsNormal(l.left, g);
      ReadableIsNormal(l.right, g);
    }
  }
}
