/** A `for` statement, converted and run on the machine. */
module ForConverted {
  import opened Wrappers
  import opened Ast
  import opened Eval
  import opened AnfRunnable
  import A = Anf
  import F = ForLoop
  import M = Machine
  import R = MachineRefines
  import W = AnfMeaning

  /** The program made of the statement is one whose conversion can be run. */
  predicate Fits(e: Expr) {
    W.SourceSeq([e], true) && WellFormedSeq([e]) && ConvertibleSeq([e])
  }

  /** With some fuel the body can be run for each element in turn, and leaves these variables. */
  ghost predicate RunsEach(ops: Ops, x: string, body: Expr, xs: seq<Value>, s: Store,
                           work: map<Name, Cell>, glob: map<Name, Cell>)
    requires s.tmps != []
  {
    exists fuel: nat, v: Value, s1: Store ::
      F.ForEach(ops, fuel, x, body, xs, s) == Ok(v, s1) && s1.work[M.LAST := Val(VNull)] == work && s1.glob == glob
  }

  lemma {:induction false} ForEachFuel(ops: Ops, fuel: nat, more: nat, x: string, body: Expr, xs: seq<Value>, s: Store)
    requires s.tmps != [] && fuel <= more && !F.ForEach(ops, fuel, x, body, xs, s).Timeout?
    ensures F.ForEach(ops, more, x, body, xs, s) == F.ForEach(ops, fuel, x, body, xs, s)
    decreases |xs|
  {
    if xs != [] {
      var s1 := Add(s, User(x), Val(xs[0]));
      EvFuel(ops, fuel, more, body, s1);
      var r := Ev(ops, fuel, body, s1);
      if r.Ok? { ForEachFuel(ops, fuel - 1, more - 1, x, body, xs[1..], r.s); }
    }
  }

  lemma BlockOfOne(ops: Ops, fuel: nat, e: Expr, s: Store)
    requires s.tmps != []
    ensures Ev(ops, fuel, Block([e]), s) == Ev(ops, fuel, e, s)
  {}

  /** When the sequence has no value the statement has none. */
  lemma SequenceFirst(ops: Ops, fuel: nat, x: string, inexpr: Expr, body: Expr, k: nat, s: Store)
    requires s.tmps != [] && !Ev(ops, fuel, inexpr, s).Ok?
    ensures !Ev(ops, fuel, F.Desugar(x, inexpr, body, k), s).Ok?
  {
    var es := F.Desugar(x, inexpr, body, k).loop.es;
    assert Ev(ops, fuel, es[0], s) == Ev(ops, fuel, inexpr, s);
    hide F.Body, F.Condition;
    assert !EvSeq(ops, fuel, es, s).Ok?;
    F.ForIsBlock(ops, fuel, es, s);
  }

  /** What the evaluator makes of the statement, by the runs of its body. */
  lemma ForEvaluates(ops: Ops, fuel: nat, x: string, inexpr: Expr, body: Expr, k: nat, s: Store, xs: seq<Value>, s0: Store,
                     work: map<Name, Cell>, glob: map<Name, Cell>)
    requires s.tmps == [map[]] && F.Arithmetic(ops) && F.BodyOk(x, body, k)
    requires s0.tmps != [] && Ev(ops, fuel, inexpr, s) == Ok(VSeq(xs), s0) && F.InScope(s0)
    requires RunsEach(ops, x, body, xs, Push(s0), work, glob)
    ensures R.Evaluates(ops, Block([F.Desugar(x, inexpr, body, k)]), s, VNull, work, glob)
  {
    var e := F.Desugar(x, inexpr, body, k);
    hide F.Desugar, F.ForEach, F.Arithmetic, F.BodyOk, F.InScope, Ev;
    var g: nat, v, s1 :|
      F.ForEach(ops, g, x, body, xs, Push(s0)) == Ok(v, s1) && s1.work[M.LAST := Val(VNull)] == work && s1.glob == glob;
    var f := if fuel < g then g else fuel;
    EvFuel(ops, fuel, f, inexpr, s);
    ForEachFuel(ops, g, f, x, body, xs, Push(s0));
    F.ForRunsOncePerElement(ops, f, x, inexpr, body, k, s, xs, s0);
    var r := Ev(ops, f, e, s);
    assert r.Ok? && r.v == VNull && r.s.work == s1.work && r.s.glob == s1.glob;
    BlockOfOne(ops, f, e, s);
  }

  lemma ForEvaluated(ops: Ops, fuel: nat, x: string, inexpr: Expr, body: Expr, k: nat, s: Store, xs: seq<Value>, s0: Store,
                     v: Value, work: map<Name, Cell>, glob: map<Name, Cell>)
    requires s.tmps == [map[]] && F.Arithmetic(ops) && F.BodyOk(x, body, k)
    requires s0.tmps != [] && Ev(ops, fuel, inexpr, s) == Ok(VSeq(xs), s0) && F.InScope(s0)
    requires R.Evaluates(ops, Block([F.Desugar(x, inexpr, body, k)]), s, v, work, glob)
    ensures v == VNull && RunsEach(ops, x, body, xs, Push(s0), work, glob)
  {
    var e := F.Desugar(x, inexpr, body, k);
    hide F.Desugar, F.ForEach, F.Arithmetic, F.BodyOk, F.InScope, Ev;
    var f: nat, s2: Store :|
      Ev(ops, f, Block([e]), s) == Ok(v, s2) && s2.work[M.LAST := Val(v)] == work && s2.glob == glob;
    BlockOfOne(ops, f, e, s);
    var r := Ev(ops, f, inexpr, s);
    if !r.Ok? { SequenceFirst(ops, f, x, inexpr, body, k, s); }
    if f < fuel { EvFuel(ops, f, fuel, inexpr, s); } else { EvFuel(ops, fuel, f, inexpr, s); }
    F.ForRunsOncePerElement(ops, f, x, inexpr, body, k, s, xs, s0);
    var t := F.ForEach(ops, f, x, body, xs, Push(s0));
    assert t.Ok? && v == VNull && s2.work == t.s.work && s2.glob == t.s.glob;
    assert F.ForEach(ops, f, x, body, xs, Push(s0)) == Ok(t.v, t.s);
  }

  /**
   * When the sequence has a value, the machine halts on the converted statement with these variables if and only if the
   * body can be run for each element in turn and leaves them.
   */
  lemma ForRunsOnTheMachine(ops: Ops, fuel: nat, x: string, inexpr: Expr, body: Expr, k: nat, g: nat, s: Store,
                            xs: seq<Value>, s0: Store, v: Value, work: map<Name, Cell>, glob: map<Name, Cell>)
    requires s.tmps == [map[]] && W.RemoteNormal(ops) && F.Arithmetic(ops) && F.BodyOk(x, body, k)
    requires Fits(F.Desugar(x, inexpr, body, k))
    requires s0.tmps != [] && Ev(ops, fuel, inexpr, s) == Ok(VSeq(xs), s0) && F.InScope(s0)
    ensures R.Halts(ops, Block(A.NormList([F.Desugar(x, inexpr, body, k)], g).0), s, v, work, glob) <==>
            v == VNull && RunsEach(ops, x, body, xs, Push(s0), work, glob)
  {
    var e := F.Desugar(x, inexpr, body, k);
    hide Ev, F.Desugar, F.Arithmetic, F.BodyOk, F.InScope, RunsEach;
    hide R.Evaluates, R.Halts, A.NormList, W.SourceSeq, WellFormedSeq, ConvertibleSeq, W.RemoteNormal;
    ProgramRunsAsWritten(ops, [e], g, s, v, work, glob);
    if R.Evaluates(ops, Block([e]), s, v, work, glob) {
      ForEvaluated(ops, fuel, x, inexpr, body, k, s, xs, s0, v, work, glob);
    }
    if v == VNull && RunsEach(ops, x, body, xs, Push(s0), work, glob) {
      ForEvaluates(ops, fuel, x, inexpr, body, k, s, xs, s0, work, glob);
    }
  }

  /** It does not halt when the body fails for an element. */
  lemma ForFailsOnTheMachine(ops: Ops, fuel: nat, x: string, inexpr: Expr, body: Expr, k: nat, g: nat, s: Store,
                             xs: seq<Value>, s0: Store, v: Value, work: map<Name, Cell>, glob: map<Name, Cell>)
    requires s.tmps == [map[]] && W.RemoteNormal(ops) && F.Arithmetic(ops) && F.BodyOk(x, body, k)
    requires Fits(F.Desugar(x, inexpr, body, k))
    requires s0.tmps != [] && Ev(ops, fuel, inexpr, s) == Ok(VSeq(xs), s0) && F.InScope(s0)
    requires F.ForEach(ops, fuel, x, body, xs, Push(s0)).Err?
    ensures !R.Halts(ops, Block(A.NormList([F.Desugar(x, inexpr, body, k)], g).0), s, v, work, glob)
  {
    hide Ev, F.Desugar, F.ForEach, F.Arithmetic, F.BodyOk, F.InScope, Fits, R.Halts, A.NormList, W.RemoteNormal;
    ForRunsOnTheMachine(ops, fuel, x, inexpr, body, k, g, s, xs, s0, v, work, glob);
    if RunsEach(ops, x, body, xs, Push(s0), work, glob) {
      var f: nat, u, s1 :| F.ForEach(ops, f, x, body, xs, Push(s0)) == Ok(u, s1);
      if f < fuel {
        ForEachFuel(ops, f, fuel, x, body, xs, Push(s0));
      } else {
        ForEachFuel(ops, fuel, f, x, body, xs, Push(s0));
      }
      assert false;
    }
  }
}
