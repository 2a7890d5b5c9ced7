/** The desugaring of `for` (src/ast.cpp): a while loop over a hidden counter, which runs the body once
    for each element. */
module ForLoop {
  import opened Wrappers
  import opened Ast
  import opened Eval

  const LE: nat := 1
  const PLUS: nat := 2
  const LENGTH := User("length")
  const DBLSUBSET := User("dblsubset")

  function LengthOf(k: nat): Expr {
    Call(Sym(LENGTH), [Arg("x", Sym(InExpr(k + 1)))])
  }

  function ElementAt(k: nat): Expr {
    Call(Sym(DBLSUBSET), [Arg("x", Sym(InExpr(k + 1))), Arg("i", Sym(ForIdx(k)))])
  }

  function Condition(k: nat): Expr {
    Binop(LE, Sym(ForIdx(k)), LengthOf(k))
  }

  function Increment(k: nat): Expr {
    Assign(ForIdx(k), Binop(PLUS, Sym(ForIdx(k)), Lit(VNum(1))))
  }

  function Body(x: string, body: Expr, k: nat): Expr {
    Block([Assign(User(x), ElementAt(k)), body, Increment(k)])
  }

  /** What the parser makes of `for (x in inexpr) body`, with generated names from `k` on. */
  function Desugar(x: string, inexpr: Expr, body: Expr, k: nat): Expr {
    For(Block([Assign(InExpr(k + 1), inexpr),
               Assign(ForIdx(k), Lit(VNum(1))),
               While(Condition(k), Body(x, body, k))]))
  }

  /** The constructor of the node: the loop first, the two assignments in front of it afterwards. */
  method BuildFor(x: string, inexpr: Expr, body: Expr, k: nat) returns (e: Expr)
    ensures e == Desugar(x, inexpr, body, k)
  {
    var index, hidden := ForIdx(k), InExpr(k + 1);
    var indexAssign := Assign(index, Lit(VNum(1)));
    var inexprAssign := Assign(hidden, inexpr);
    var whileCond := Binop(LE, Sym(index), Call(Sym(LENGTH), [Arg("x", Sym(hidden))]));
    var sublist := [Arg("x", Sym(hidden))];
    sublist := sublist + [Arg("i", Sym(index))];
    assert sublist == ElementAt(k).args;
    var whileBody := [Assign(User(x), Call(Sym(DBLSUBSET), sublist))];
    whileBody := whileBody + [body];
    whileBody := whileBody + [Assign(index, Binop(PLUS, Sym(index), Lit(VNum(1))))];
    assert whileBody == Body(x, body, k).es;
    var fl := [While(whileCond, Block(whileBody))];
    fl := [indexAssign] + fl;
    fl := [inexprAssign] + fl;
    assert fl == Desugar(x, inexpr, body, k).loop.es;
    e := For(Block(fl));
  }

  // ----- The meaning of a for loop -----

  /** Runs the body for each element in turn, the variable bound to it. */
  function ForEach(ops: Ops, fuel: nat, x: string, body: Expr, xs: seq<Value>, s: Store): (r: Res)
    requires s.tmps != []
    ensures r.Ok? ==> |r.s.tmps| == |s.tmps|
    decreases |xs|
  {
    if xs == [] then Ok(VNull, s) else
    var r := Ev(ops, fuel, body, Add(s, User(x), Val(xs[0])));
    if !r.Ok? then r
    else if fuel == 0 then Timeout
    else ForEach(ops, fuel - 1, x, body, xs[1..], r.s)
  }

  ghost predicate Truthful(ops: Ops) {
    forall b :: ops.truth(VBool(b)) == Some(b)
  }

  /** The operators and builtins that the desugaring relies on. */
  ghost predicate Arithmetic(ops: Ops) {
    && (forall a, b :: ops.binop(LE, VNum(a), VNum(b)) == Some(VBool(a <= b)))
    && (forall a, b :: ops.binop(PLUS, VNum(a), VNum(b)) == Some(VNum(a + b)))
    && Truthful(ops)
    && (forall xs :: ops.builtin("length", [VSeq(xs)]) == Some(VNum(|xs|)))
    && (forall xs, i :: 1 <= i <= |xs| ==> ops.builtin("dblsubset", [VSeq(xs), VNum(i)]) == Some(xs[i - 1]))
  }

  /** The two builtins are in scope under their own names. */
  predicate InScope(s: Store) {
    FindFunction(s, LENGTH) == Some("length") && FindFunction(s, DBLSUBSET) == Some("dblsubset")
  }

  ghost function Hidden(k: nat): iset<Name> {
    iset{ForIdx(k), InExpr(k + 1)}
  }

  /** `body` may stand in the loop: it neither knows the hidden names nor rebinds the builtins. */
  ghost predicate BodyOk(x: string, body: Expr, k: nat) {
    Apart(body, Hidden(k)) && LENGTH !in Writes(body) + {User(x)} && DBLSUBSET !in Writes(body) + {User(x)}
  }

  // ----- One iteration -----

  /** The loop stands before element `i` (from 0) of `xs`. */
  ghost predicate Before(s: Store, k: nat, xs: seq<Value>, i: nat) {
    && s.tmps != [] && i <= |xs| && InScope(s)
    && Find(s, ForIdx(k)) == Some(Val(VNum(i + 1))) && Find(s, InExpr(k + 1)) == Some(Val(VSeq(xs)))
  }

  // The following say how each form evaluates, one form at a time.

  lemma ReadName(ops: Ops, fuel: nat, s: Store, x: Name, v: Value)
    requires s.tmps != [] && Find(s, x) == Some(Val(v))
    ensures Ev(ops, fuel, Sym(x), s) == Ok(v, s)
  {
    assert ReadVariable(s, x) == Ok(v, s);
  }

  lemma BinopOf(ops: Ops, fuel: nat, s: Store, op: nat, l: Expr, r: Expr, a: Value, b: Value, v: Value)
    requires s.tmps != [] && Ev(ops, fuel, l, s) == Ok(a, s) && Ev(ops, fuel, r, s) == Ok(b, s)
    requires ops.binop(op, a, b) == Some(v)
    ensures Ev(ops, fuel, Binop(op, l, r), s) == Ok(v, s)
  {
  }

  lemma AssignOf(ops: Ops, fuel: nat, s: Store, x: Name, a: Expr, v: Value)
    requires s.tmps != [] && Ev(ops, fuel, a, s) == Ok(v, s)
    ensures Ev(ops, fuel, Assign(x, a), s) == Ok(v, Add(s, x, Val(v)))
  {
  }

  lemma OneArg(ops: Ops, fuel: nat, s: Store, a: Arg, v: Value)
    requires s.tmps != [] && Ev(ops, fuel, a.e, s) == Ok(v, s)
    ensures EvArgs(ops, fuel, [a], s) == ArgsOk([v], s)
  {
    assert [a][1..] == [] && EvArgs(ops, fuel, [], s) == ArgsOk([], s);
    assert [v] + [] == [v];
  }

  lemma TwoArgs(ops: Ops, fuel: nat, s: Store, a: Arg, b: Arg, v: Value, w: Value)
    requires s.tmps != [] && Ev(ops, fuel, a.e, s) == Ok(v, s) && Ev(ops, fuel, b.e, s) == Ok(w, s)
    ensures EvArgs(ops, fuel, [a, b], s) == ArgsOk([v, w], s)
  {
    OneArg(ops, fuel, s, b, w);
    assert [a, b][1..] == [b];
    assert [v] + [w] == [v, w];
  }

  lemma CallOf(ops: Ops, fuel: nat, s: Store, b: string, args: seq<Arg>, vs: seq<Value>, v: Value)
    requires s.tmps != [] && FindFunction(s, User(b)) == Some(b)
    requires EvArgs(ops, fuel, args, s) == ArgsOk(vs, s) && ops.builtin(b, vs) == Some(v)
    ensures Ev(ops, fuel, Call(Sym(User(b)), args), s) == Ok(v, s)
  {
    assert Strip(Sym(User(b))) == Sym(User(b));
    assert EvHead(s, User(b)) == Ok(VBuiltin(b), s);
    assert Invoke(ops, b, ArgsOk(vs, s)) == Ok(v, s);
  }

  lemma BlockOf(ops: Ops, fuel: nat, e: Expr, rest: seq<Expr>, s: Store)
    requires s.tmps != []
    ensures var r := Ev(ops, fuel, e, s);
      EvSeq(ops, fuel, [e] + rest, s) == if r.Ok? && rest != [] then EvSeq(ops, fuel, rest, r.s) else r
  {
    assert ([e] + rest)[1..] == rest;
  }

  lemma TwoInOrder(ops: Ops, fuel: nat, e1: Expr, e2: Expr, s: Store)
    requires s.tmps != []
    ensures var r := Ev(ops, fuel, e1, s);
      EvSeq(ops, fuel, [e1, e2], s) == if r.Ok? then Ev(ops, fuel, e2, r.s) else r
  {
    BlockOf(ops, fuel, e1, [e2], s);
    assert [e1] + [e2] == [e1, e2];
    var r := Ev(ops, fuel, e1, s);
    if r.Ok? {
      BlockOf(ops, fuel, e2, [], r.s);
      assert [e2] + [] == [e2];
    }
  }

  lemma ThreeInOrder(ops: Ops, fuel: nat, es: seq<Expr>, s: Store)
    requires s.tmps != [] && |es| == 3
    ensures var r0 := Ev(ops, fuel, es[0], s);
      Ev(ops, fuel, Block(es), s) == if !r0.Ok? then r0 else
        var r1 := Ev(ops, fuel, es[1], r0.s);
        if r1.Ok? then Ev(ops, fuel, es[2], r1.s) else r1
  {
    BlockOf(ops, fuel, es[0], [es[1], es[2]], s);
    assert [es[0]] + [es[1], es[2]] == es;
    var r0 := Ev(ops, fuel, es[0], s);
    if r0.Ok? { TwoInOrder(ops, fuel, es[1], es[2], r0.s); }
  }

  lemma Three(ops: Ops, fuel: nat, e0: Expr, e1: Expr, e2: Expr, s: Store, v0: Value, s1: Store)
    requires s.tmps != [] && s1.tmps != [] && Ev(ops, fuel, e0, s) == Ok(v0, s1)
    ensures var r := Ev(ops, fuel, e1, s1);
      Ev(ops, fuel, Block([e0, e1, e2]), s) == if r.Ok? then Ev(ops, fuel, e2, r.s) else r
  {
    ThreeInOrder(ops, fuel, [e0, e1, e2], s);
  }

  lemma ConditionValue(ops: Ops, fuel: nat, s: Store, k: nat, xs: seq<Value>, i: nat)
    requires Arithmetic(ops) && Before(s, k, xs, i)
    ensures Ev(ops, fuel, Condition(k), s) == Ok(VBool(i < |xs|), s)
  {
    ReadName(ops, fuel, s, ForIdx(k), VNum(i + 1));
    ReadName(ops, fuel, s, InExpr(k + 1), VSeq(xs));
    var arg := Arg("x", Sym(InExpr(k + 1)));
    OneArg(ops, fuel, s, arg, VSeq(xs));
    CallOf(ops, fuel, s, "length", [arg], [VSeq(xs)], VNum(|xs|));
    BinopOf(ops, fuel, s, LE, Sym(ForIdx(k)), LengthOf(k), VNum(i + 1), VNum(|xs|), VBool(i < |xs|));
  }

  lemma ElementValue(ops: Ops, fuel: nat, s: Store, k: nat, xs: seq<Value>, i: nat)
    requires Arithmetic(ops) && Before(s, k, xs, i) && i < |xs|
    ensures Ev(ops, fuel, ElementAt(k), s) == Ok(xs[i], s)
  {
    ReadName(ops, fuel, s, ForIdx(k), VNum(i + 1));
    ReadName(ops, fuel, s, InExpr(k + 1), VSeq(xs));
    var a, b := Arg("x", Sym(InExpr(k + 1))), Arg("i", Sym(ForIdx(k)));
    TwoArgs(ops, fuel, s, a, b, VSeq(xs), VNum(i + 1));
    CallOf(ops, fuel, s, "dblsubset", [a, b], [VSeq(xs), VNum(i + 1)], xs[i]);
  }

  lemma LiteralOf(ops: Ops, fuel: nat, s: Store, v: Value)
    requires s.tmps != []
    ensures Ev(ops, fuel, Lit(v), s) == Ok(v, s)
  {
  }

  lemma IncrementValue(ops: Ops, fuel: nat, s: Store, k: nat, i: nat)
    requires Arithmetic(ops) && s.tmps != [] && Find(s, ForIdx(k)) == Some(Val(VNum(i + 1)))
    ensures Ev(ops, fuel, Increment(k), s) == Ok(VNum(i + 2), Add(s, ForIdx(k), Val(VNum(i + 2))))
  {
    ReadName(ops, fuel, s, ForIdx(k), VNum(i + 1));
    LiteralOf(ops, fuel, s, VNum(1));
    BinopOf(ops, fuel, s, PLUS, Sym(ForIdx(k)), Lit(VNum(1)), VNum(i + 1), VNum(1), VNum(i + 2));
    AssignOf(ops, fuel, s, ForIdx(k), Binop(PLUS, Sym(ForIdx(k)), Lit(VNum(1))), VNum(i + 2));
  }

  /** The body of the loop binds the variable, runs the body of the program, and counts. */
  lemma BodyValue(ops: Ops, fuel: nat, s: Store, x: string, body: Expr, k: nat, xs: seq<Value>, i: nat)
    requires Arithmetic(ops) && Before(s, k, xs, i) && i < |xs| && BodyOk(x, body, k)
    ensures var r := Ev(ops, fuel, body, Add(s, User(x), Val(xs[i])));
      && Ev(ops, fuel, Body(x, body, k), s) ==
           (if r.Ok? then Ok(VNum(i + 2), Add(r.s, ForIdx(k), Val(VNum(i + 2)))) else r)
      && (r.Ok? ==> Before(Add(r.s, ForIdx(k), Val(VNum(i + 2))), k, xs, i + 1))
  {
    var s1 := Add(s, User(x), Val(xs[i]));
    ElementValue(ops, fuel, s, k, xs, i);
    AssignOf(ops, fuel, s, User(x), ElementAt(k), xs[i]);
    Three(ops, fuel, Assign(User(x), ElementAt(k)), body, Increment(k), s, xs[i], s1);
    var r := Ev(ops, fuel, body, s1);
    if r.Ok? {
      BodyKeeps(ops, fuel, s, x, body, k, xs[i]);
      IncrementValue(ops, fuel, r.s, k, i);
      NextBefore(r.s, k, xs, i);
    }
  }

  lemma BodyKeeps(ops: Ops, fuel: nat, s: Store, x: string, body: Expr, k: nat, v: Value)
    requires s.tmps != [] && BodyOk(x, body, k)
    ensures var r := Ev(ops, fuel, body, Add(s, User(x), Val(v)));
      r.Ok? ==>
        && Find(r.s, ForIdx(k)) == Find(s, ForIdx(k)) && Find(r.s, InExpr(k + 1)) == Find(s, InExpr(k + 1))
        && (InScope(s) ==> InScope(r.s))
  {
    var s1 := Add(s, User(x), Val(v));
    var r := Ev(ops, fuel, body, s1);
    if r.Ok? {
      EvKept(ops, fuel, body, s1);
      WritesMentioned(body);
      assert Kept(s, s1, {User(x)});
      KeptAll(s, s1, r.s, x, body, k);
    }
  }

  lemma NextBefore(s: Store, k: nat, xs: seq<Value>, i: nat)
    requires s.tmps != [] && i < |xs| && InScope(s) && Find(s, InExpr(k + 1)) == Some(Val(VSeq(xs)))
    ensures Before(Add(s, ForIdx(k), Val(VNum(i + 2))), k, xs, i + 1)
  {
    var t := Add(s, ForIdx(k), Val(VNum(i + 2)));
    assert Kept(s, t, {ForIdx(k)});
    KeptFind(s, t, {ForIdx(k)}, InExpr(k + 1));
  }

  lemma KeptAll(s: Store, s1: Store, s2: Store, x: string, body: Expr, k: nat)
    requires Kept(s, s1, {User(x)}) && Kept(s1, s2, Writes(body)) && BodyOk(x, body, k)
    requires forall y :: y in Writes(body) ==> y !in Hidden(k)
    ensures Find(s2, ForIdx(k)) == Find(s, ForIdx(k)) && Find(s2, InExpr(k + 1)) == Find(s, InExpr(k + 1))
    ensures InScope(s) ==> InScope(s2)
  {
    forall y | y in [ForIdx(k), InExpr(k + 1), LENGTH, DBLSUBSET]
      ensures Find(s2, y) == Find(s, y) && FindFunction(s2, y) == FindFunction(s, y)
    {
      KeptFind(s, s1, {User(x)}, y);
      KeptFind(s1, s2, Writes(body), y);
    }
    assert ForIdx(k) in [ForIdx(k), InExpr(k + 1), LENGTH, DBLSUBSET];
    assert InExpr(k + 1) in [ForIdx(k), InExpr(k + 1), LENGTH, DBLSUBSET];
    assert LENGTH in [ForIdx(k), InExpr(k + 1), LENGTH, DBLSUBSET];
    assert DBLSUBSET in [ForIdx(k), InExpr(k + 1), LENGTH, DBLSUBSET];
  }

  // ----- The whole loop -----

  ghost predicate SameStores(r: Res, t: Res, d: iset<Name>) {
    match r
    case Ok(_, s) => t.Ok? && Agree(t.s, s, d)
    case Err => t.Err?
    case Timeout => t.Timeout?
  }

  /** What is known of a condition `c` and a body `b` that step through `xs`. */
  ghost predicate Steps(ops: Ops, c: Expr, b: Expr, x: string, body: Expr, k: nat, xs: seq<Value>) {
    && (forall fuel: nat, s: Store, i: nat :: Before(s, k, xs, i) ==> Ev(ops, fuel, c, s) == Ok(VBool(i < |xs|), s))
    && (forall fuel: nat, s: Store, i: nat :: Before(s, k, xs, i) && i < |xs| ==>
          BodyStep(Ev(ops, fuel, body, Add(s, User(x), Val(xs[i]))), Ev(ops, fuel, b, s), k, xs, i))
  }

  ghost predicate BodyStep(r: Res, q: Res, k: nat, xs: seq<Value>, i: nat)
    requires r.Ok? ==> r.s.tmps != []
  {
    if r.Ok? then
      var s := Add(r.s, ForIdx(k), Val(VNum(i + 2))); q == Ok(VNum(i + 2), s) && Before(s, k, xs, i + 1)
    else q == r
  }

  /** The loop over the elements from `i` on does what the body does for each of them in turn; `t` is
      its store without the hidden names. */
  lemma {:induction false} LoopIsForEach(ops: Ops, fuel: nat, c: Expr, b: Expr, s: Store, t: Store, x: string, body: Expr, k: nat, xs: seq<Value>, i: nat)
    requires Truthful(ops) && Steps(ops, c, b, x, body, k, xs)
    requires Before(s, k, xs, i) && Apart(body, Hidden(k)) && Agree(t, s, Hidden(k))
    ensures SameStores(Loop(ops, fuel, c, b, s), ForEach(ops, fuel, x, body, xs[i..], t), Hidden(k))
    decreases |xs| - i
  {
    assert Ev(ops, fuel, c, s) == Ok(VBool(i < |xs|), s);
    if i < |xs| {
      var s1, t1 := Add(s, User(x), Val(xs[i])), Add(t, User(x), Val(xs[i]));
      AddAgree(t, s, Hidden(k), User(x), Val(xs[i]));
      EvAgree(ops, fuel, body, t1, s1, Hidden(k));
      var q, r := Ev(ops, fuel, body, t1), Ev(ops, fuel, body, s1);
      assert BodyStep(r, Ev(ops, fuel, b, s), k, xs, i);
      assert xs[i..][0] == xs[i] && xs[i..][1..] == xs[i + 1..];
      if r.Ok? && fuel > 0 {
        var s2 := Add(r.s, ForIdx(k), Val(VNum(i + 2)));
        AddHidden(q.s, r.s, k, Val(VNum(i + 2)));
        LoopIsForEach(ops, fuel - 1, c, b, s2, q.s, x, body, k, xs, i + 1);
      }
    }
  }

  lemma LoopSteps(ops: Ops, x: string, body: Expr, k: nat, xs: seq<Value>)
    requires Arithmetic(ops) && BodyOk(x, body, k)
    ensures Steps(ops, Condition(k), Body(x, body, k), x, body, k, xs)
  {
    forall fuel: nat, s: Store, i: nat | Before(s, k, xs, i)
      ensures Ev(ops, fuel, Condition(k), s) == Ok(VBool(i < |xs|), s)
    {
      ConditionValue(ops, fuel, s, k, xs, i);
    }
    forall fuel: nat, s: Store, i: nat | Before(s, k, xs, i) && i < |xs|
      ensures BodyStep(Ev(ops, fuel, body, Add(s, User(x), Val(xs[i]))), Ev(ops, fuel, Body(x, body, k), s), k, xs, i)
    {
      BodyValue(ops, fuel, s, x, body, k, xs, i);
    }
  }

  lemma AddHidden(t: Store, s: Store, k: nat, v: Cell)
    requires s.tmps != [] && Agree(t, s, Hidden(k))
    ensures Agree(t, Add(s, ForIdx(k), v), Hidden(k))
  {
    var a := Add(s, ForIdx(k), v);
    forall i, y | 0 <= i < |t.tmps| && y !in Hidden(k) ensures SameAt(t.tmps[i], a.tmps[i], y) {
      assert SameAt(t.tmps[i], s.tmps[i], y);
    }
  }

  /** The whole statement: the sequence is evaluated once, the body runs once for each element, in
      order, with the variable bound to it; and the counter that the program started stands where it
      was set, since the loop counts in a frame of its own. */
  lemma ForRunsOncePerElement(ops: Ops, fuel: nat, x: string, inexpr: Expr, body: Expr, k: nat, s: Store, xs: seq<Value>, s0: Store)
    requires s.tmps != [] && Arithmetic(ops) && BodyOk(x, body, k)
    requires s0.tmps != [] && Ev(ops, fuel, inexpr, s) == Ok(VSeq(xs), s0) && InScope(s0)
    ensures Runs(Ev(ops, fuel, Desugar(x, inexpr, body, k), s), ForEach(ops, fuel, x, body, xs, Push(s0)), k)
  {
    LoopSteps(ops, x, body, k, xs);
    ForSteps(ops, fuel, x, inexpr, body, k, s, xs, s0, Condition(k), Body(x, body, k));
  }

  ghost predicate Runs(r: Res, t: Res, k: nat)
    requires t.Ok? ==> t.s.tmps != []
    requires r.Ok? ==> r.s.tmps != []
  {
    match t
    case Ok(_, s1) => r.Ok? && r.v == VNull && Agree(Pop(s1), r.s, Hidden(k))
      && ForIdx(k) in r.s.tmps[0] && r.s.tmps[0][ForIdx(k)] == Val(VNum(1))
    case Err => r.Err?
    case Timeout => r.Timeout?
  }

  lemma ForSteps(ops: Ops, fuel: nat, x: string, inexpr: Expr, body: Expr, k: nat, s: Store, xs: seq<Value>, s0: Store, c: Expr, b: Expr)
    requires s.tmps != [] && s0.tmps != [] && Truthful(ops) && Steps(ops, c, b, x, body, k, xs) && Apart(body, Hidden(k))
    requires Ev(ops, fuel, inexpr, s) == Ok(VSeq(xs), s0) && InScope(s0)
    ensures var e := For(Block([Assign(InExpr(k + 1), inexpr), Assign(ForIdx(k), Lit(VNum(1))), While(c, b)]));
      Runs(Ev(ops, fuel, e, s), ForEach(ops, fuel, x, body, xs, Push(s0)), k)
  {
    ForOf(ops, fuel, inexpr, c, b, k, s, xs, s0);
    LoopRuns(ops, fuel, c, b, x, body, k, s0, xs);
  }

  /** The two hidden assignments, and then the loop. */
  lemma ForOf(ops: Ops, fuel: nat, inexpr: Expr, c: Expr, b: Expr, k: nat, s: Store, xs: seq<Value>, s0: Store)
    requires s.tmps != [] && s0.tmps != [] && Ev(ops, fuel, inexpr, s) == Ok(VSeq(xs), s0)
    ensures var s2 := Add(Add(s0, InExpr(k + 1), Val(VSeq(xs))), ForIdx(k), Val(VNum(1)));
      Ev(ops, fuel, For(Block([Assign(InExpr(k + 1), inexpr), Assign(ForIdx(k), Lit(VNum(1))), While(c, b)])), s) ==
        Ev(ops, fuel, While(c, b), s2)
  {
    var s1 := Add(s0, InExpr(k + 1), Val(VSeq(xs)));
    var e0, e1 := Assign(InExpr(k + 1), inexpr), Assign(ForIdx(k), Lit(VNum(1)));
    AssignsValue(ops, fuel, s, InExpr(k + 1), inexpr, VSeq(xs), s0);
    LiteralOf(ops, fuel, s1, VNum(1));
    AssignOf(ops, fuel, s1, ForIdx(k), Lit(VNum(1)), VNum(1));
    Three(ops, fuel, e0, e1, While(c, b), s, VSeq(xs), s1);
    ForIsBlock(ops, fuel, [e0, e1, While(c, b)], s);
  }

  lemma LoopRuns(ops: Ops, fuel: nat, c: Expr, b: Expr, x: string, body: Expr, k: nat, s0: Store, xs: seq<Value>)
    requires Truthful(ops) && Steps(ops, c, b, x, body, k, xs) && Apart(body, Hidden(k))
    requires s0.tmps != [] && InScope(s0)
    ensures var s2 := Add(Add(s0, InExpr(k + 1), Val(VSeq(xs))), ForIdx(k), Val(VNum(1)));
      Runs(Ev(ops, fuel, While(c, b), s2), ForEach(ops, fuel, x, body, xs, Push(s0)), k)
  {
    var s1 := Add(s0, InExpr(k + 1), Val(VSeq(xs)));
    var s2 := Add(s1, ForIdx(k), Val(VNum(1)));
    BeforeFirst(s0, s1, s2, k, xs);
    HiddenPushed(s0, s1, s2, k, xs);
    LoopIsForEach(ops, fuel, c, b, Push(s2), Push(s0), x, body, k, xs, 0);
    assert xs[0..] == xs;
    WhileOf(ops, fuel, s2, c, b);
    LoopKept(ops, fuel, c, b, Push(s2));
    var l := Loop(ops, fuel, c, b, Push(s2));
    if l.Ok? { PoppedAgree(ForEach(ops, fuel, x, body, xs, Push(s0)).s, l.s, Hidden(k)); }
  }

  lemma AssignsValue(ops: Ops, fuel: nat, s: Store, x: Name, a: Expr, v: Value, s0: Store)
    requires s.tmps != [] && Ev(ops, fuel, a, s) == Ok(v, s0)
    ensures Ev(ops, fuel, Assign(x, a), s) == Ok(v, Add(s0, x, Val(v)))
  {
  }

  lemma ForIsBlock(ops: Ops, fuel: nat, es: seq<Expr>, s: Store)
    requires s.tmps != []
    ensures Ev(ops, fuel, For(Block(es)), s) == Ev(ops, fuel, Block(es), s)
  {
  }

  lemma WhileOf(ops: Ops, fuel: nat, s: Store, c: Expr, b: Expr)
    requires s.tmps != []
    ensures var l := Loop(ops, fuel, c, b, Push(s));
      Ev(ops, fuel, While(c, b), s) == if l.Ok? then Ok(VNull, Pop(l.s)) else l
  {
  }

  lemma BeforeFirst(s0: Store, s1: Store, s2: Store, k: nat, xs: seq<Value>)
    requires s0.tmps != [] && InScope(s0)
    requires s1 == Add(s0, InExpr(k + 1), Val(VSeq(xs))) && s2 == Add(s1, ForIdx(k), Val(VNum(1)))
    ensures Before(Push(s2), k, xs, 0)
  {
    var p := Push(s2);
    assert p.tmps[1..] == s2.tmps;
    assert Find(s2, ForIdx(k)) == Some(Val(VNum(1))) && Find(s2, InExpr(k + 1)) == Some(Val(VSeq(xs)));
    PushFind(s2, ForIdx(k));
    PushFind(s2, InExpr(k + 1));
  }

  lemma PushFind(s: Store, x: Name)
    ensures Find(Push(s), x) == Find(s, x)
  {
    assert Push(s).tmps[1..] == s.tmps;
  }

  lemma HiddenPushed(s0: Store, s1: Store, s2: Store, k: nat, xs: seq<Value>)
    requires s0.tmps != []
    requires s1 == Add(s0, InExpr(k + 1), Val(VSeq(xs))) && s2 == Add(s1, ForIdx(k), Val(VNum(1)))
    ensures Agree(Push(s0), Push(s2), Hidden(k))
  {
  }

  lemma PoppedAgree(t: Store, s: Store, d: iset<Name>)
    requires t.tmps != [] && Agree(t, s, d)
    ensures Agree(Pop(t), Pop(s), d)
  {
    forall i, y | 0 <= i < |Pop(t).tmps| && y !in d ensures SameAt(Pop(t).tmps[i], Pop(s).tmps[i], y) {
      assert SameAt(t.tmps[i + 1], s.tmps[i + 1], y);
    }
  }

  /** The loop ends when the body does: with enough fuel for the elements, the only way to run out of
      it is inside the body. */
  lemma {:induction false} ForEndsWithItsBody(ops: Ops, fuel: nat, x: string, body: Expr, xs: seq<Value>, s: Store)
    requires s.tmps != [] && fuel >= |xs|
    requires forall f: nat, t: Store :: t.tmps != [] && fuel - |xs| < f <= fuel ==> !Ev(ops, f, body, t).Timeout?
    ensures !ForEach(ops, fuel, x, body, xs, s).Timeout?
  {
    if xs != [] {
      var r := Ev(ops, fuel, body, Add(s, User(x), Val(xs[0])));
      if r.Ok? { ForEndsWithItsBody(ops, fuel - 1, x, body, xs[1..], r.s); }
    }
  }
}
