/** The conversion to A-normal form never gets the machine stuck, except on the programs that are
    described here exactly; and the two together run a source program as the evaluator does. */
module AnfRunnable {
  import opened Wrappers
  import opened Ast
  import opened Eval
  import A = Anf
  import W = AnfMeaning
  import R = MachineRefines
  import M = Machine

  // ----- Programs as the parser makes them -----

  predicate WellFormed(e: Expr)
    decreases e, 0
  {
    match e
    case Unop(_, a) => WellFormed(a)
    case Binop(_, l, r) => WellFormed(l) && WellFormed(r)
    case Block(es) => es != [] && WellFormedSeq(es)
    case While(c, b) => WellFormed(c) && WellFormed(b)
    case IfElse(c, t, f) => WellFormed(c) && WellFormed(t) && WellFormed(f)
    case For(l) => l.Block? && |l.es| > 1 && WellFormed(l)
    case Assign(_, a) => WellFormed(a)
    case Special(_, a) => WellFormed(a)
    case Request(c, _) => WellFormed(c)
    case Call(h, args) => WellFormed(h) && WellFormedArgs(args)
    case _ => true
  }

  predicate WellFormedSeq(es: seq<Expr>)
    decreases es, 0
  {
    es == [] || (WellFormed(es[0]) && WellFormedSeq(es[1..]))
  }

  predicate WellFormedArgs(args: seq<Arg>)
    decreases args, 0
  {
    args == [] || (WellFormed(args[0].e) && WellFormedArgs(args[1..]))
  }

  // ----- Programs that convert to something the machine can run -----

  /** No operand is a `break`, a `next` or a `...`, an operand `x <<- e` can be run as it stands, and
      no argument ends in a loop. */
  predicate Convertible(e: Expr)
    decreases e, 0
  {
    match e
    case Unop(_, a) => ConvertibleName(a)
    case Binop(_, l, r) => ConvertibleName(l) && ConvertibleName(r)
    case Block(es) => ConvertibleSeq(es)
    case While(c, b) => Convertible(c) && Convertible(b)
    case IfElse(c, t, f) => ConvertibleName(c) && Convertible(t) && Convertible(f)
    case For(l) => Convertible(l)
    case Assign(_, a) => if a.Call? then Convertible(a) else ConvertibleValue(a)
    case Special(_, a) => if a.Call? then Convertible(a) else ConvertibleValue(a)
    case Request(c, _) => ConvertibleName(c)
    case Call(h, args) => ConvertibleName(h) && ConvertibleArgs(args)
    case _ => true
  }

  predicate ConvertibleName(e: Expr)
    decreases e, 2
  {
    !IsJump(Strip(e)) && ConvertibleValue(e)
  }

  /** The right-hand side of an assignment. */
  predicate ConvertibleValue(e: Expr)
    decreases e, 1
  {
    if Strip(e).Special? then R.Runnable(Strip(e)) else Convertible(Strip(e))
  }

  predicate ConvertibleSeq(es: seq<Expr>)
    decreases es, 0
  {
    es == [] || (Convertible(es[0]) && ConvertibleSeq(es[1..]))
  }

  predicate ConvertibleArgs(args: seq<Arg>)
    decreases args, 0
  {
    args == [] || (Convertible(args[0].e) && !R.TailLoops(args[0].e) && ConvertibleArgs(args[1..]))
  }

  predicate IsJump(e: Expr) {
    e.Break? || e.Next? || e.Ellipsis?
  }

  // ----- Fresh names are fresh -----

  lemma MentionsConcat(a: seq<Expr>, b: seq<Expr>)
    ensures MentionsSeq(a + b) == MentionsSeq(a) + MentionsSeq(b)
  {
    if a == [] {
      assert a + b == b;
    } else {
      assert (a + b)[1..] == a[1..] + b;
      MentionsConcat(a[1..], b);
    }
  }

  lemma MentionsOne(e: Expr)
    ensures MentionsSeq([e]) == Mentions(e)
  {
    assert [e][1..] == [];
  }

  lemma {:induction false} NormMentions(e: Expr, g: nat)
    ensures var n := A.Norm(e, g); W.Within(MentionsSeq(n.pre) + Mentions(n.e), Mentions(e), g, n.g)
    decreases e, 0
  {
    match e
    case Call(h, args) =>
      NameMentions(h, g);
      ArgsMentions(args, A.NormName(h, g).g);
    case Assign(x, a) => if a.Call? { NormMentions(a, g); } else { NameMentions(a, g); }
    case Special(x, a) => if a.Call? { NormMentions(a, g); } else { NameMentions(a, g); }
    case Unop(_, a) => NameMentions(a, g);
    case Binop(_, _, _) => BinopMentions(e, g);
    case Block(es) => TermsMentions(es, g);
    case IfElse(_, _, _) => IfMentions(e, g);
    case While(c, b) =>
      TermMentions(c, g);
      TermMentions(b, A.NormTerm(c, g).1);
    case For(l) => TermMentions(l, g);
    case Request(c, a) => NameMentions(c, g);
    case _ =>
  }

  lemma {:induction false} BinopMentions(e: Expr, g: nat)
    requires e.Binop?
    ensures var n := A.Norm(e, g); W.Within(MentionsSeq(n.pre) + Mentions(n.e), Mentions(e), g, n.g)
    decreases e, 0, 0
  {
    var n := A.NormName(e.left, g);
    NameMentions(e.left, g);
    NameMentions(e.right, n.g);
    MentionsConcat(n.pre, A.NormName(e.right, n.g).pre);
  }

  lemma {:induction false} IfMentions(e: Expr, g: nat)
    requires e.IfElse?
    ensures var n := A.Norm(e, g); W.Within(MentionsSeq(n.pre) + Mentions(n.e), Mentions(e), g, n.g)
    decreases e, 0, 0
  {
    NameMentions(e.cond, g);
    var g1 := A.NormName(e.cond, g).g;
    TermMentions(e.thn, g1);
    TermMentions(e.els, A.NormTerm(e.thn, g1).1);
  }

  lemma {:induction false} NameMentions(e: Expr, g: nat)
    ensures var n := A.NormName(e, g); W.Within(MentionsSeq(n.pre) + Mentions(n.e), Mentions(e), g, n.g)
    decreases e, 1
  {
    StripMentions(e);
    var s := Strip(e);
    if s.Assign? {
      NormMentions(s, g);
      SavedMentions(s, g);
    } else if s.Special? {
      MentionsOne(s);
    } else if !A.IsAtomic(s) {
      NormMentions(s, g + 1);
      HoistMentions(s, g);
    } else {
      NormMentions(s, g);
    }
  }

  lemma SavedMentions(s: Expr, g: nat)
    requires s.Assign?
    ensures var n := A.Norm(s, g);
      var save := Assign(Name.Anf(n.g), Sym(s.x));
      MentionsSeq(n.pre + [n.e, save]) == MentionsSeq(n.pre) + Mentions(n.e) + {Name.Anf(n.g), s.x}
  {
    var n := A.Norm(s, g);
    hide A.Norm;
    var save := Assign(Name.Anf(n.g), Sym(s.x));
    MentionsConcat(n.pre, [n.e, save]);
    MentionsConcat([n.e], [save]);
    assert [n.e] + [save] == [n.e, save];
    MentionsOne(n.e);
    MentionsOne(save);
  }

  lemma HoistMentions(s: Expr, g: nat)
    ensures var n := A.Norm(s, g + 1);
      MentionsSeq(n.pre + [Assign(Name.Anf(g), n.e)]) == MentionsSeq(n.pre) + Mentions(n.e) + {Name.Anf(g)}
  {
    var n := A.Norm(s, g + 1);
    hide A.Norm;
    MentionsConcat(n.pre, [Assign(Name.Anf(g), n.e)]);
    MentionsOne(Assign(Name.Anf(g), n.e));
  }

  lemma {:induction false} TermMentions(e: Expr, g: nat)
    ensures W.Within(Mentions(A.NormTerm(e, g).0), Mentions(e), g, A.NormTerm(e, g).1)
    decreases e, 2
  {
    if e.Block? {
      ListMentions(e.es, g);
      StripMentions(Block(A.NormList(e.es, g).0));
    } else {
      var n := A.Norm(e, g);
      NormMentions(e, g);
      MentionsConcat(n.pre, [n.e]);
      MentionsOne(n.e);
      StripMentions(Block(n.pre + [n.e]));
    }
  }

  lemma {:induction false} ListMentions(es: seq<Expr>, g: nat)
    ensures W.Within(MentionsSeq(A.NormList(es, g).0), MentionsSeq(es), g, A.NormList(es, g).1)
    decreases es, 0
  {
    if es != [] {
      var n := A.Norm(es[0], g);
      NormMentions(es[0], g);
      ListMentions(es[1..], n.g);
      MentionsConcat(n.pre + [n.e], A.NormList(es[1..], n.g).0);
      MentionsConcat(n.pre, [n.e]);
      MentionsOne(n.e);
    }
  }

  lemma {:induction false} TermsMentions(es: seq<Expr>, g: nat)
    ensures W.Within(MentionsSeq(A.NormTerms(es, g).0), MentionsSeq(es), g, A.NormTerms(es, g).1)
    decreases es, 0
  {
    if es != [] {
      TermMentions(es[0], g);
      var (e', g1) := A.NormTerm(es[0], g);
      TermsMentions(es[1..], g1);
      assert ([e'] + A.NormTerms(es[1..], g1).0)[1..] == A.NormTerms(es[1..], g1).0;
    }
  }

  lemma {:induction false} ArgsMentions(args: seq<Arg>, g: nat)
    ensures W.Within(MentionsArgs(A.NormArgs(args, g).0), MentionsArgs(args), g, A.NormArgs(args, g).1)
    decreases args, 0
  {
    if args != [] {
      TermMentions(args[0].e, g);
      var (e', g1) := A.NormTerm(args[0].e, g);
      ArgsMentions(args[1..], g1);
      assert ([Arg(args[0].formal, e')] + A.NormArgs(args[1..], g1).0)[1..] == A.NormArgs(args[1..], g1).0;
    }
  }

  // ----- Tails -----

  lemma {:induction false} NormTail(e: Expr, g: nat)
    ensures R.TailLoops(A.Norm(e, g).e) == R.TailLoops(e)
    decreases e, 0
  {
    match e
    case Block(es) => TermsTail(es, g);
    case IfElse(c, t, f) =>
      var g1 := A.NormName(c, g).g;
      TermTail(t, g1);
      TermTail(f, A.NormTerm(t, g1).1);
    case For(l) => TermTail(l, g);
    case _ =>
  }

  lemma StripTail(e: Expr)
    ensures R.TailLoops(Strip(e)) == R.TailLoops(e)
  {
  }

  lemma {:induction false} TermTail(e: Expr, g: nat)
    ensures R.TailLoops(A.NormTerm(e, g).0) == R.TailLoops(e)
    decreases e, 2
  {
    if e.Block? {
      ListTail(e.es, g);
      StripTail(Block(A.NormList(e.es, g).0));
    } else {
      var n := A.Norm(e, g);
      NormTail(e, g);
      StripTail(Block(n.pre + [n.e]));
    }
  }

  lemma {:induction false} ListTail(es: seq<Expr>, g: nat)
    ensures R.TailLoops(Block(A.NormList(es, g).0)) == R.TailLoops(Block(es))
    ensures |A.NormList(es, g).0| >= |es|
    decreases es, 0
  {
    if es != [] {
      var n := A.Norm(es[0], g);
      var rest := A.NormList(es[1..], n.g).0;
      if |es| == 1 {
        assert n.pre + [n.e] + [] == n.pre + [n.e];
        NormTail(es[0], g);
      } else {
        ListTail(es[1..], n.g);
        assert (n.pre + [n.e] + rest)[|n.pre| + |rest|] == rest[|rest| - 1];
      }
    }
  }

  lemma {:induction false} TermsTail(es: seq<Expr>, g: nat)
    ensures R.TailLoops(Block(A.NormTerms(es, g).0)) == R.TailLoops(Block(es))
    ensures |A.NormTerms(es, g).0| == |es|
    decreases es, 0
  {
    if es != [] {
      var (e', g1) := A.NormTerm(es[0], g);
      var rest := A.NormTerms(es[1..], g1).0;
      TermsTail(es[1..], g1);
      if |es| == 1 { TermTail(es[0], g); }
    }
  }

  // ----- Braces -----

  /** An operand in braces is converted as the operand itself, and a statement that hoists nothing stays without braces. */
  lemma BracesGo(e: Expr, g: nat)
    requires !(e.Block? && |e.es| == 1)
    ensures A.NormName(Block([e]), g) == A.NormName(e, g)
    ensures !e.Block? && A.Norm(e, g).pre == [] ==> A.NormTerm(e, g).0 == A.Norm(e, g).e
    ensures !e.Block? && A.Norm(e, g).pre == [] ==> A.NormTerm(Block([e]), g).0 == A.Norm(e, g).e
  {
    var n := A.Norm(e, g);
    assert [e][1..] == [] && [] + [n.e] == [n.e] && [n.e] + [] == [n.e];
    assert A.NormList([], n.g) == ([], n.g);
    assert A.NormList([e], g) == (n.pre + [n.e] + [], n.g);
  }

  // ----- The normal form can be run -----

  lemma RunnableConcat(a: seq<Expr>, b: seq<Expr>)
    ensures R.RunnableSeq(a + b) == (R.RunnableSeq(a) && R.RunnableSeq(b))
  {
    if a == [] {
      assert a + b == b;
    } else {
      assert (a + b)[1..] == a[1..] + b;
      RunnableConcat(a[1..], b);
    }
  }

  lemma RunnableOne(e: Expr)
    ensures R.RunnableSeq([e]) == R.Runnable(e)
  {
    assert [e][1..] == [];
    assert R.RunnableSeq([]);
  }

  /** An atom of the interpreter is a residue without jumps. */
  lemma {:induction false} NormRunnable(e: Expr, g: nat)
    requires WellFormed(e) && W.NoAnf(Mentions(e))
    ensures var n := A.Norm(e, g); R.RunnableSeq(n.pre) && R.Runnable(n.e) <==> Convertible(e)
    decreases e, 0
  {
    match e
    case Call(h, args) =>
      NameRunnable(h, g);
      ArgsRunnable(args, A.NormName(h, g).g);
    case Assign(x, a) => AssignRunnable(e, a, g);
    case Special(x, a) => AssignRunnable(e, a, g);
    case Unop(_, a) => NameRunnable(a, g);
    case Binop(_, l, r) =>
      var n := A.NormName(l, g);
      NameRunnable(l, g);
      NameRunnable(r, n.g);
      RunnableConcat(n.pre, A.NormName(r, n.g).pre);
    case Block(es) =>
      TermsRunnable(es, g);
      TermsTail(es, g);
    case IfElse(c, t, f) =>
      var g1 := A.NormName(c, g).g;
      NameRunnable(c, g);
      TermRunnable(t, g1);
      TermRunnable(f, A.NormTerm(t, g1).1);
    case While(c, b) =>
      TermRunnable(c, g);
      TermRunnable(b, A.NormTerm(c, g).1);
    case For(l) =>
      TermRunnable(l, g);
      ListTail(l.es, g);
    case Request(c, a) => NameRunnable(c, g);
    case _ =>
  }

  lemma {:induction false} AssignRunnable(e: Expr, a: Expr, g: nat)
    requires WellFormed(e) && W.NoAnf(Mentions(e)) && (e.Assign? || e.Special?) && e.e == a
    ensures var n := A.Norm(e, g); R.RunnableSeq(n.pre) && R.Runnable(n.e) <==> Convertible(e)
    decreases e, 0, 0
  {
    if a.Call? {
      NormRunnable(a, g);
      NormTail(a, g);
    } else {
      NameRunnable(a, g);
      W.NameWrites(a, g);
    }
  }

  /** An operand leaves an atom behind unless it is a jump, and then too the rest can be run. */
  lemma {:induction false} NameRunnable(e: Expr, g: nat)
    requires WellFormed(e) && W.NoAnf(Mentions(e))
    ensures var n := A.NormName(e, g);
      && (R.RunnableSeq(n.pre) && M.AtomOk(n.e) <==> ConvertibleName(e))
      && (R.RunnableSeq(n.pre) && R.Runnable(n.e) <==> ConvertibleValue(e))
    decreases e, 1
  {
    StripMentions(e);
    StripWellFormed(e);
    W.NameWrites(e, g);
    var s := Strip(e);
    if s.Assign? {
      NormRunnable(s, g);
      SavedRunnable(s, g);
    } else if s.Special? {
      RunnableOne(s);
    } else if !A.IsAtomic(s) {
      HoistRunnable(s, g);
    } else {
      NormRunnable(s, g);
    }
  }

  lemma SavedRunnable(s: Expr, g: nat)
    requires s.Assign?
    ensures var n := A.Norm(s, g);
      R.RunnableSeq(n.pre + [n.e, Assign(Name.Anf(n.g), Sym(s.x))]) <==> R.RunnableSeq(n.pre) && R.Runnable(n.e)
  {
    var n := A.Norm(s, g);
    hide A.Norm;
    var save := Assign(Name.Anf(n.g), Sym(s.x));
    RunnableConcat(n.pre, [n.e, save]);
    RunnableConcat([n.e], [save]);
    assert [n.e] + [save] == [n.e, save];
    RunnableOne(n.e);
    RunnableOne(save);
  }

  lemma {:induction false} HoistRunnable(s: Expr, g: nat)
    requires WellFormed(s) && W.NoAnf(Mentions(s))
    ensures R.RunnableSeq(A.Norm(s, g + 1).pre + [Assign(Name.Anf(g), A.Norm(s, g + 1).e)]) <==> Convertible(s)
    decreases s, 1, 0
  {
    NormRunnable(s, g + 1);
    NormMentions(s, g + 1);
    var n := A.Norm(s, g + 1);
    RunnableConcat(n.pre, [Assign(Name.Anf(g), n.e)]);
    RunnableOne(Assign(Name.Anf(g), n.e));
  }

  lemma StripWellFormed(e: Expr)
    requires WellFormed(e)
    ensures WellFormed(Strip(e))
  {
  }

  lemma StripRunnable(es: seq<Expr>)
    requires es != []
    ensures R.Runnable(Strip(Block(es))) == R.RunnableSeq(es)
  {
    if |es| == 1 {
      assert es == [es[0]];
      RunnableOne(es[0]);
    }
  }

  lemma {:induction false} TermRunnable(e: Expr, g: nat)
    requires WellFormed(e) && W.NoAnf(Mentions(e))
    ensures R.Runnable(A.NormTerm(e, g).0) <==> Convertible(e)
    decreases e, 2
  {
    if e.Block? {
      ListRunnable(e.es, g);
      ListTail(e.es, g);
      StripRunnable(A.NormList(e.es, g).0);
    } else {
      var n := A.Norm(e, g);
      NormRunnable(e, g);
      RunnableConcat(n.pre, [n.e]);
      RunnableOne(n.e);
      StripRunnable(n.pre + [n.e]);
    }
  }

  lemma {:induction false} ListRunnable(es: seq<Expr>, g: nat)
    requires WellFormedSeq(es) && W.NoAnf(MentionsSeq(es))
    ensures R.RunnableSeq(A.NormList(es, g).0) <==> ConvertibleSeq(es)
    decreases es, 0
  {
    if es != [] {
      var n := A.Norm(es[0], g);
      NormRunnable(es[0], g);
      ListRunnable(es[1..], n.g);
      RunnableConcat(n.pre + [n.e], A.NormList(es[1..], n.g).0);
      RunnableConcat(n.pre, [n.e]);
      RunnableOne(n.e);
    }
  }

  lemma {:induction false} TermsRunnable(es: seq<Expr>, g: nat)
    requires WellFormedSeq(es) && W.NoAnf(MentionsSeq(es))
    ensures R.RunnableSeq(A.NormTerms(es, g).0) <==> ConvertibleSeq(es)
    decreases es, 0
  {
    if es != [] {
      TermRunnable(es[0], g);
      var (e', g1) := A.NormTerm(es[0], g);
      var rest := A.NormTerms(es[1..], g1).0;
      TermsRunnable(es[1..], g1);
      assert ([e'] + rest)[1..] == rest;
    }
  }

  lemma {:induction false} ArgsRunnable(args: seq<Arg>, g: nat)
    requires WellFormedArgs(args) && W.NoAnf(MentionsArgs(args))
    ensures R.RunnableArgs(A.NormArgs(args, g).0) <==> ConvertibleArgs(args)
    decreases args, 0
  {
    if args != [] {
      TermRunnable(args[0].e, g);
      TermTail(args[0].e, g);
      var (e', g1) := A.NormTerm(args[0].e, g);
      var rest := A.NormArgs(args[1..], g1).0;
      ArgsRunnable(args[1..], g1);
      assert ([Arg(args[0].formal, e')] + rest)[1..] == rest;
    }
  }

  // ----- A program that gets stuck, and the whole pipeline -----

  function StuckCall(): Expr {
    Call(Sym(User("f")), [Arg("x", Lit(VNum(2)))])
  }

  function StuckSum(): Expr {
    Binop(0, StuckCall(), Lit(VNum(1)))
  }

  /** `1 + (x <<- f(2) + 1)`. */
  function StuckProgram(): Expr {
    Binop(0, Lit(VNum(1)), Special("x", StuckSum()))
  }

  lemma StuckProgramIsSource()
    ensures WellFormed(StuckProgram()) && W.NoAnf(Mentions(StuckProgram())) && W.Independent(StuckProgram())
  {
    var call, sum, e := StuckCall(), StuckSum(), StuckProgram();
    assert [Arg("x", Lit(VNum(2)))][1..] == [];
    assert WellFormedArgs(call.args) && WellFormed(sum) && WellFormed(e);
    assert MentionsArgs(call.args) == {} && Mentions(e) == {User("f"), User("x")};
    assert W.Residual(Lit(VNum(1))) == {};
  }

  lemma StuckProgramIsNotConvertible()
    ensures !ConvertibleSeq([StuckProgram()])
  {
    var sum := StuckSum();
    assert !M.AtomOk(StuckCall()) && !M.AtomOk(sum) && !R.Runnable(sum) && !R.Runnable(Special("x", sum));
    assert !ConvertibleValue(Special("x", sum)) && !Convertible(StuckProgram());
  }

  /** `v op (x <<- a)`, converted: the operand is hoisted as it stands. */
  function SpecialOperand(op: nat, v: Value, x: string, a: Expr): Expr {
    Binop(op, Lit(v), Special(x, a))
  }

  lemma SpecialOperandForm(op: nat, v: Value, x: string, a: Expr, g: nat)
    ensures A.NormList([SpecialOperand(op, v, x, a)], g).0 == [Special(x, a), Binop(op, Lit(v), Sym(User(x)))]
  {
    var e := SpecialOperand(op, v, x, a);
    assert A.NormName(Lit(v), g) == A.Normal([], Lit(v), g);
    assert A.NormName(Special(x, a), g) == A.Normal([Special(x, a)], Sym(User(x)), g);
    assert A.Norm(e, g) == A.Normal([] + [Special(x, a)], Binop(op, Lit(v), Sym(User(x))), g);
    assert [e][1..] == [];
  }

  lemma {:induction false} OnlyAtomsEvaluate(ops: Ops, s: Store, a: Expr)
    requires M.EvalAtom(ops, s, a).AtomVal?
    ensures M.AtomOk(a)
  {
    match a
    case Unop(_, b) => OnlyAtomsEvaluate(ops, s, b);
    case Binop(_, l, r) => OnlyAtomsEvaluate(ops, s, l); OnlyAtomsEvaluate(ops, s, r);
    case _ =>
  }

  /** Operators that always have a value. */
  const TOTAL: Ops := Ops((op, a) => Some(VNull), (op, a, b) => Some(VNull), (b, vs) => Some(VNull), v => Some(true), (k, e) => VNull)

  lemma {:induction false} AtomsHaveValues(s: Store, a: Expr)
    requires s.tmps != [] && M.AtomOk(a) && forall x :: x in Mentions(a) ==> x.User? && x in s.work && s.work[x].Val?
    ensures M.EvalAtom(TOTAL, s, a).AtomVal?
  {
    match a
    case Unop(_, b) => AtomsHaveValues(s, b);
    case Binop(_, l, r) => AtomsHaveValues(s, l); AtomsHaveValues(s, r);
    case _ =>
  }

  ghost predicate CanHalt(e: Expr) {
    exists ops: Ops, s: Store, v: Value, work: map<Name, Cell>, glob: map<Name, Cell> ::
      s.tmps == [map[]] && R.Halts(ops, e, s, v, work, glob)
  }

  /** An operator that is not an atom stops the machine at the second step, whatever the operators and the store. */
  lemma SpecialOperandStops(ops: Ops, op: nat, v: Value, x: string, a: Expr, g: nat, s: Store)
    requires (a.Unop? || a.Binop?) && !M.AtomOk(a)
    ensures var c := M.Start(Block(A.NormList([SpecialOperand(op, v, x, a)], g).0), s.work, s.glob);
      M.Run(ops, false, 1, c).Go? && R.Stuck(M.Run(ops, false, 2, c))
  {
    SpecialOperandForm(op, v, x, a, g);
    var es := [Special(x, a), Binop(op, Lit(v), Sym(User(x)))];
    var c := M.Start(Block(es), s.work, s.glob);
    hide A.NormList;
    M.RunOne(ops, false, c);
    var c1 := c.(k := M.Chain(es, 0, M.HALT));
    assert M.Step(ops, false, c) == M.Go(c1);
    M.RunStep(ops, false, 1, c, c1);
    assert c1.k.control == M.Code(a);
    if M.EvalAtom(ops, M.View(c1, 0), a).AtomVal? {
      OnlyAtomsEvaluate(ops, M.View(c1, 0), a);
    }
  }

  lemma StuckNeverHalts(ops: Ops, e: Expr, s: Store, n: nat, v: Value, work: map<Name, Cell>, glob: map<Name, Cell>)
    requires n > 0 && M.Run(ops, false, n - 1, M.Start(e, s.work, s.glob)).Go?
    requires R.Stuck(M.Run(ops, false, n, M.Start(e, s.work, s.glob)))
    ensures !R.Halts(ops, e, s, v, work, glob)
  {
    if R.Halts(ops, e, s, v, work, glob) {
      var m: nat, c :| R.HaltsAt(ops, e, s, m, c);
      if m >= n {
        R.StuckStays(ops, M.Start(e, s.work, s.glob), n, m);
      } else {
        R.HaltIsIdle(ops, e, s, m, c, n);
      }
    }
  }

  lemma SpecialOperandHalts(op: nat, v: Value, x: string, a: Expr, g: nat)
    requires M.AtomOk(a) && forall y :: y in Mentions(a) ==> y.User?
    ensures CanHalt(Block(A.NormList([SpecialOperand(op, v, x, a)], g).0))
  {
    SpecialOperandForm(op, v, x, a, g);
    var es := [Special(x, a), Binop(op, Lit(v), Sym(User(x)))];
    var e := Block(es);
    var s := Store(map y | y in Mentions(a) + {User(x)} :: Val(VNull), map[], [map[]]);
    hide A.NormList;
    AtomsHaveValues(s, a);
    R.AtomEv(TOTAL, 0, a, s);
    var w := M.EvalAtom(TOTAL, s, a).v;
    var s1 := AddSpecial(s, User(x), Val(w));
    assert Ev(TOTAL, 0, es[0], s) == Ok(w, s1);
    assert es[1..] == [Binop(op, Lit(v), Sym(User(x)))] && es[1..][1..] == [];
    assert Ev(TOTAL, 0, es[1], s1) == Ok(VNull, s1);
    assert EvSeq(TOTAL, 0, es, s) == EvSeq(TOTAL, 0, es[1..], s1) == Ok(VNull, s1);
    BothRun(op, v, x, a);
    assert R.Runnable(e);
    R.EvaluatedHalts(TOTAL, 0, e, s, VNull, s1);
  }

  lemma BothRun(op: nat, v: Value, x: string, a: Expr)
    requires M.AtomOk(a)
    ensures R.RunnableSeq([Special(x, a), Binop(op, Lit(v), Sym(User(x)))])
  {
    var b := Binop(op, Lit(v), Sym(User(x)));
    assert M.AtomOk(Lit(v)) && M.AtomOk(Sym(User(x)));
    assert M.AtomOk(b) && R.Runnable(b);
    assert R.Runnable(a) && !R.TailLoops(a);
    RunnableOne(b);
    assert [Special(x, a), b][1..] == [b];
  }

  /** An operand `x <<- a` with an operator: the machine can run what it is converted to exactly when `a` is an atom. */
  lemma SpecialOperandIsStuck(op: nat, v: Value, x: string, a: Expr, g: nat)
    requires (a.Unop? || a.Binop?) && forall y :: y in Mentions(a) ==> y.User?
    ensures CanHalt(Block(A.NormList([SpecialOperand(op, v, x, a)], g).0)) <==> M.AtomOk(a)
  {
    var e := Block(A.NormList([SpecialOperand(op, v, x, a)], g).0);
    if M.AtomOk(a) {
      SpecialOperandHalts(op, v, x, a, g);
    } else {
      forall ops: Ops, s: Store, w: Value, work: map<Name, Cell>, glob: map<Name, Cell> | s.tmps == [map[]]
        ensures !R.Halts(ops, e, s, w, work, glob)
      {
        SpecialOperandStops(ops, op, v, x, a, g, s);
        StuckNeverHalts(ops, e, s, 2, w, work, glob);
      }
    }
  }

  /** `1 + (x <<- f(2) + 1)` has a value, and what it is converted to stops the machine. */
  lemma StuckWhereSourceRuns(g: nat)
    ensures WellFormed(StuckProgram()) && W.NoAnf(Mentions(StuckProgram())) && W.Independent(StuckProgram())
    ensures !ConvertibleSeq([StuckProgram()])
    ensures var s := Store(map[], map[User("f") := Val(VBuiltin("f"))], [map[]]);
      && Ev(TOTAL, 0, StuckProgram(), s).Ok?
      && R.Stuck(M.Run(TOTAL, false, 2, M.Start(Block(A.NormList([StuckProgram()], g).0), s.work, s.glob)))
  {
    StuckProgramIsSource();
    StuckProgramIsNotConvertible();
    var s := Store(map[], map[User("f") := Val(VBuiltin("f"))], [map[]]);
    assert StuckProgram() == SpecialOperand(0, VNum(1), "x", StuckSum());
    SpecialOperandStops(TOTAL, 0, VNum(1), "x", StuckSum(), g, s);
    StuckCallValue(s);
  }

  lemma StuckCallValue(s: Store)
    requires s == Store(map[], map[User("f") := Val(VBuiltin("f"))], [map[]])
    ensures Ev(TOTAL, 0, StuckProgram(), s).Ok?
  {
    var args := [Arg("x", Lit(VNum(2)))];
    assert args[1..] == [];
    assert EvArgs(TOTAL, 0, args, s) == ArgsOk([VNum(2)] + [], s);
    assert Ev(TOTAL, 0, StuckCall(), s) == Ok(VNull, s);
    assert Ev(TOTAL, 0, StuckSum(), s) == Ok(VNull, s);
  }

  /** Converting a program and running the machine on the result gives exactly what the evaluator
      gives on the source program. */
  lemma ProgramRunsAsWritten(ops: Ops, es: seq<Expr>, g: nat, s: Store, v: Value, work: map<Name, Cell>, glob: map<Name, Cell>)
    requires s.tmps == [map[]] && es != [] && W.RemoteNormal(ops)
    requires W.SourceSeq(es, true) && WellFormedSeq(es) && ConvertibleSeq(es)
    ensures R.Evaluates(ops, Block(es), s, v, work, glob) <==>
      R.Halts(ops, Block(A.NormList(es, g).0), s, v, work, glob)
  {
    var out := A.NormList(es, g).0;
    ListRunnable(es, g);
    ListTail(es, g);
    R.MachineRefinesEvaluator(ops, Block(out), s, v, work, glob);
    SameEvaluation(ops, es, g, s, v, work, glob);
  }

  lemma BlockFollows(ops: Ops, fuel: nat, es: seq<Expr>, g: nat, s: Store)
    requires s.tmps == [map[]] && W.RemoteNormal(ops) && W.SourceSeq(es, true)
    ensures W.Follows(Ev(ops, fuel, Block(es), s), Ev(ops, fuel, Block(A.NormList(es, g).0), s), true)
  {
    W.ListSound(ops, fuel, es, g, s, s, true);
  }

  lemma SameEvaluation(ops: Ops, es: seq<Expr>, g: nat, s: Store, v: Value, work: map<Name, Cell>, glob: map<Name, Cell>)
    requires s.tmps == [map[]] && es != [] && W.RemoteNormal(ops) && W.SourceSeq(es, true)
    ensures R.Evaluates(ops, Block(es), s, v, work, glob) <==>
      R.Evaluates(ops, Block(A.NormList(es, g).0), s, v, work, glob)
  {
    hide Ev, W.SourceSeq, W.RemoteNormal;
    var out := A.NormList(es, g).0;
    if R.Evaluates(ops, Block(es), s, v, work, glob) {
      var fuel: nat, s' :| Ev(ops, fuel, Block(es), s) == Ok(v, s') && s'.work[M.LAST := Val(v)] == work && s'.glob == glob;
      BlockFollows(ops, fuel, es, g, s);
      assert Ev(ops, fuel, Block(out), s).Ok?;
    }
    if R.Evaluates(ops, Block(out), s, v, work, glob) {
      var fuel: nat, s' :| Ev(ops, fuel, Block(out), s) == Ok(v, s') && s'.work[M.LAST := Val(v)] == work && s'.glob == glob;
      BlockFollows(ops, fuel, es, g, s);
      assert Ev(ops, fuel, Block(es), s).Ok?;
    }
  }
}
