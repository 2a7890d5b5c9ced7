/** When the machine waits: only to read a future that has no answer yet, and never to send a request. */
module Waiting {
  import opened Wrappers
  import opened Ast
  import M = Machine

  type Config = M.Config

  // ----- Where a future is read -----

  /** The innermost frame in scope that has the temporary has a future there. */
  predicate TemporaryFuture(frames: seq<M.Frame>, r: nat, x: Name)
    requires r < |frames|
  {
    var f := frames[r];
    if x in f.tmp then f.tmp[x].Fut?
    else f.up.Some? && f.up.value < r && TemporaryFuture(frames, f.up.value, x)
  }

  /** The variable, looked up from frame `r`, holds a future: the user's frame goes before the global one. */
  predicate FutureAt(c: Config, r: nat, x: Name)
    requires r < |c.frames|
  {
    if x.User? then (if x in c.work then c.work[x].Fut? else x in c.glob && c.glob[x].Fut?)
    else TemporaryFuture(c.frames, r, x)
  }

  lemma {:induction false} TemporaryFound(frames: seq<M.Frame>, r: nat, x: Name)
    requires r < |frames|
    ensures var t := FindTemporary(M.Tmps(frames, r), x); (t.Some? && t.value.Fut?) <==> TemporaryFuture(frames, r, x)
  {
    var f := frames[r];
    var rest := if f.up.Some? && f.up.value < r then M.Tmps(frames, f.up.value) else [];
    assert M.Tmps(frames, r)[1..] == rest;
    if x !in f.tmp && f.up.Some? && f.up.value < r {
      TemporaryFound(frames, f.up.value, x);
    }
  }

  lemma FutureFound(c: Config, r: nat, x: Name)
    requires r < |c.frames|
    ensures var t := Find(M.View(c, r), x); (t.Some? && t.value.Fut?) <==> FutureAt(c, r, x)
  {
    if !x.User? { TemporaryFound(c.frames, r, x); }
  }

  /** The names whose values the next step needs. */
  function Needed(k: M.Control): set<Name> {
    match k
    case Code(Lit(_)) | Code(Sym(_)) | Code(Unop(_, _)) | Code(Binop(_, _, _)) => Mentions(k.e)
    case Code(IfElse(c, _, _)) => Mentions(c)
    case Code(Request(c, _)) => Mentions(c)
    case Code(Call(h, _)) => Mentions(h)
    case _ => {}
  }

  // ----- Waiting is for a future -----

  lemma {:induction false} AtomWaits(ops: Ops, c: Config, r: nat, e: Expr) returns (x: Name)
    requires r < |c.frames| && M.EvalAtom(ops, M.View(c, r), e).AtomBlocked?
    ensures x in Mentions(e) && FutureAt(c, r, x)
  {
    match e
    case Sym(y) =>
      FutureFound(c, r, y);
      x := y;
    case Unop(_, a) => x := AtomWaits(ops, c, r, a);
    case Binop(_, left, right) =>
      if M.EvalAtom(ops, M.View(c, r), left).AtomBlocked? {
        x := AtomWaits(ops, c, r, left);
      } else {
        x := AtomWaits(ops, c, r, right);
      }
  }

  lemma HeadWaits(ops: Ops, c: Config, r: nat, e: Expr) returns (x: Name)
    requires r < |c.frames| && M.EvalHead(ops, M.View(c, r), e).AtomBlocked?
    ensures x in Mentions(e) && FutureAt(c, r, x)
  {
    x := AtomWaits(ops, c, r, e);
  }

  lemma DeliveryGoesOn(ops: Ops, c: Config, k: M.Kont, v: Cell)
    ensures !M.Deliver(ops, c, k, v).Blocked?
  {}

  /** Some name that the next step needs holds a future, or some argument of the builtin about to be called is one. */
  ghost predicate ReadsFuture(c: Config) {
    && c.k.K? && c.k.r < |c.frames|
    && ((exists x :: x in Needed(c.k.control) && FutureAt(c, c.k.r, x)) ||
        (c.k.control.Invoke? && exists i :: 0 <= i < |c.frames[c.k.r].args| && c.frames[c.k.r].args[i].Fut?))
  }

  /** A step that waits is about to read a future. */
  lemma WaitsForFuture(ops: Ops, async: bool, c: Config)
    requires M.Step(ops, async, c).Blocked?
    ensures ReadsFuture(c)
  {
    var r := c.k.r;
    match c.k.control
    case Invoke(b) =>
      var f := c.frames[r];
      if !M.HasFuture(f.args) {
        var g := FindFunction(M.View(c, f.up.value), User(b)).value;
        DeliveryGoesOn(ops, c, c.k.next, Val(ops.builtin(g, M.Values(f.args)).value));
      }
    case Code(e) => CodeWaits(ops, async, c, e);
  }

  lemma CodeWaits(ops: Ops, async: bool, c: Config, e: Expr)
    requires c.k.K? && c.k.control == M.Code(e) && M.Step(ops, async, c).Blocked?
    ensures ReadsFuture(c)
  {
    var r := c.k.r;
    match e
    case Lit(_) | Sym(_) | Unop(_, _) | Binop(_, _, _) =>
      var a := M.EvalAtom(ops, M.View(c, r), e);
      if a.AtomVal? { DeliveryGoesOn(ops, c, c.k.next, Val(a.v)); }
      var x := AtomWaits(ops, c, r, e);
    case IfElse(cond, _, _) => var x := AtomWaits(ops, c, r, cond);
    case Request(con, q) => RequestWaits(ops, async, c, con, q);
    case Call(h, _) => var x := HeadWaits(ops, c, r, h);
  }

  lemma RequestWaits(ops: Ops, async: bool, c: Config, con: Expr, q: Expr)
    requires c.k.K? && c.k.r < |c.frames| && c.k.control == M.Code(Request(con, q))
    requires M.StepRequest(ops, async, c, con, q).Blocked?
    ensures ReadsFuture(c)
  {
    var a := M.EvalAtom(ops, M.View(c, c.k.r), con);
    if a.AtomVal? && a.v.VConn? {
      var w := ops.remote(a.v.peer, q);
      DeliveryGoesOn(ops, c, c.k.next, Val(w));
      DeliveryGoesOn(ops, c.(answers := c.answers + [w], slots := c.slots + [M.Nowhere]), c.k.next, Fut(|c.answers|));
    }
    var x := AtomWaits(ops, c, c.k.r, con);
  }

  /** A request whose connection is there never waits, whatever other futures are outstanding. */
  lemma AvailablePeerNeverWaits(ops: Ops, async: bool, c: Config, con: Expr, q: Expr)
    requires c.k.K? && c.k.r < |c.frames| && c.k.control == M.Code(Request(con, q))
    requires forall x :: x in Mentions(con) ==> !FutureAt(c, c.k.r, x)
    ensures !M.Step(ops, async, c).Blocked?
  {
    if M.Step(ops, async, c).Blocked? { WaitsForFuture(ops, async, c); }
  }

  // ----- And a future that is read makes it wait -----

  ghost predicate Total(ops: Ops) {
    && (forall op, a :: ops.unop(op, a).Some?)
    && (forall op, a, b :: ops.binop(op, a, b).Some?)
  }

  lemma {:induction false} AtomBlocked(ops: Ops, c: Config, r: nat, e: Expr)
    requires r < |c.frames| && M.AtomOk(e) && Total(ops)
    requires forall x :: x in Mentions(e) ==> Find(M.View(c, r), x).Some?
    ensures M.EvalAtom(ops, M.View(c, r), e).AtomBlocked? <==> exists x :: x in Mentions(e) && FutureAt(c, r, x)
    ensures !M.EvalAtom(ops, M.View(c, r), e).AtomErr?
  {
    match e
    case Lit(_) =>
    case Sym(x) =>
      FutureFound(c, r, x);
      assert x in Mentions(e);
    case Unop(_, a) => AtomBlocked(ops, c, r, a);
    case Binop(_, left, right) =>
      AtomBlocked(ops, c, r, left);
      AtomBlocked(ops, c, r, right);
      assert Mentions(e) == Mentions(left) + Mentions(right);
  }

  /** With operators that are always defined and variables that are bound, an atom waits exactly for the futures it names. */
  lemma AtomWaitsExactly(ops: Ops, async: bool, c: Config, e: Expr)
    requires c.k.K? && c.k.r < |c.frames| && c.k.control == M.Code(e) && M.AtomOk(e) && Total(ops)
    requires forall x :: x in Mentions(e) ==> Find(M.View(c, c.k.r), x).Some?
    ensures M.Step(ops, async, c).Blocked? <==> exists x :: x in Mentions(e) && FutureAt(c, c.k.r, x)
  {
    AtomBlocked(ops, c, c.k.r, e);
    var a := M.EvalAtom(ops, M.View(c, c.k.r), e);
    if a.AtomVal? { DeliveryGoesOn(ops, c, c.k.next, Val(a.v)); }
  }

  // ----- Requests go out one after the other -----

  /** A request to a peer, its answer to be assigned to a variable. */
  datatype Ask = Ask(x: string, peer: nat, q: Expr)

  function Statement(a: Ask): Expr {
    Assign(User(a.x), Request(Lit(VConn(a.peer)), a.q))
  }

  function Statements(asks: seq<Ask>): (es: seq<Expr>)
    ensures |es| == |asks|
  {
    seq(|asks|, i requires 0 <= i < |asks| => Statement(asks[i]))
  }

  /** The answers that the peers will give. */
  function Replies(ops: Ops, asks: seq<Ask>): (vs: seq<Value>)
    ensures |vs| == |asks|
  {
    seq(|asks|, i requires 0 <= i < |asks| => ops.remote(asks[i].peer, asks[i].q))
  }

  /** The machine stands at the first of these statements. */
  ghost predicate AtStatements(c: Config, asks: seq<Ask>) {
    && asks != [] && c.k.K? && c.k.r < |c.frames|
    && var l := M.Chain(Statements(asks), c.k.r, M.HALT); c.k.control == l.control && c.k.next == l.next
  }

  lemma OneSent(ops: Ops, c: Config, asks: seq<Ask>) returns (c1: Config)
    requires AtStatements(c, asks)
    ensures M.Step(ops, true, c) == M.Go(c1)
    ensures c1.answers == c.answers + [ops.remote(asks[0].peer, asks[0].q)]
    ensures c1.work == c.work[User(asks[0].x) := Fut(|c.answers|)]
    ensures |asks| > 1 ==> AtStatements(c1, asks[1..])
  {
    var a := asks[0];
    var es := Statements(asks);
    var q := Request(Lit(VConn(a.peer)), a.q);
    assert es[0] == Statement(a) && es[1..] == Statements(asks[1..]);
    assert c.k.control == M.Code(q);
    var w := ops.remote(a.peer, a.q);
    assert M.EvalAtom(ops, M.View(c, c.k.r), Lit(VConn(a.peer))) == M.AtomVal(VConn(a.peer));
    var c' := c.(answers := c.answers + [w], slots := c.slots + [M.Nowhere]);
    c1 := M.Deliver(ops, c', c.k.next, Fut(|c.answers|)).c;
  }

  /** Any number of requests in a row go out in as many steps, before a single answer has come. */
  lemma {:induction false} Pipelined(ops: Ops, c: Config, asks: seq<Ask>) returns (c2: Config)
    requires AtStatements(c, asks)
    ensures M.Run(ops, true, |asks|, c) == M.Go(c2) && c2.answers == c.answers + Replies(ops, asks)
    decreases |asks|
  {
    var c1 := OneSent(ops, c, asks);
    M.RunOne(ops, true, c);
    var vs := Replies(ops, asks);
    assert vs == [vs[0]] + Replies(ops, asks[1..]);
    c2 := c1;
    if |asks| > 1 {
      c2 := Pipelined(ops, c1, asks[1..]);
      M.RunAdd(ops, true, 1, |asks| - 1, c);
    } else {
      assert Replies(ops, asks[1..]) == [];
    }
  }

  /** As a program: after one step for the list and one for each request, all of them have gone out. */
  lemma AllRequestsGoOut(ops: Ops, asks: seq<Ask>, work: map<Name, Cell>, glob: map<Name, Cell>)
    requires asks != []
    ensures var r := M.Run(ops, true, 1 + |asks|, M.Start(Block(Statements(asks)), work, glob));
            r.Go? && r.c.answers == Replies(ops, asks)
  {
    var c := M.Start(Block(Statements(asks)), work, glob);
    M.RunOne(ops, true, c);
    var c1 := c.(k := M.Chain(Statements(asks), 0, M.HALT));
    assert M.Step(ops, true, c) == M.Go(c1);
    var c2 := Pipelined(ops, c1, asks);
    M.RunAdd(ops, true, 1, |asks|, c);
    assert [] + Replies(ops, asks) == Replies(ops, asks);
  }
}
