/** Loops whose condition is a request: where a run that waits for its answers differs from one that has them. */
module Conditions {
  import opened Wrappers
  import opened Ast
  import opened Eval
  import opened Futures
  import R = MachineRefines
  import M = Machine

  // ----- Conditions that come to a request -----

  /** Evaluated in `s`, the condition comes to a request whose answer is its value. */
  predicate Asks(ops: Ops, c: Expr, s: Store)
    requires s.tmps != []
    decreases c, 1
  {
    match c
    case Request(con, _) => var a := M.EvalAtom(ops, s, con); a.AtomVal? && a.v.VConn?
    case IfElse(cond, t, f) =>
      var a := M.EvalAtom(ops, s, cond);
      a.AtomVal? && ops.truth(a.v).Some? && if ops.truth(a.v).value then Asks(ops, t, s) else Asks(ops, f, s)
    case Block(es) => AsksSeq(ops, es, s)
    case For(l) => l.Block? && AsksSeq(ops, l.es, s)
    case _ => false
  }

  predicate AsksSeq(ops: Ops, es: seq<Expr>, s: Store)
    requires s.tmps != []
    decreases es, 0
  {
    es != [] &&
    if |es| == 1 then Asks(ops, es[0], s)
    else if es[0].Assign? then
      var a := M.EvalAtom(ops, s, es[0].e);
      M.AtomicControl(es[0].e) && a.AtomVal? && AsksSeq(ops, es[1..], Add(s, es[0].x, Val(a.v)))
    else
      M.AtomicControl(es[0]) && M.EvalAtom(ops, s, es[0]).AtomVal? && AsksSeq(ops, es[1..], s)
  }

  /** Every answer can be read as a truth value. */
  ghost predicate Answers(ops: Ops) {
    forall k: nat, q :: ops.truth(ops.remote(k, q)).Some?
  }

  /** The continuation that reads the value of a condition. */
  predicate ReadsCondition(kn: R.Kont, c: M.Config) {
    kn.K? && kn.target == None && kn.fl == M.NORMAL.(cond := true) && kn.next.K? && kn.r < |c.frames|
  }

  /** The run that waits fails where the run that has its answers goes on, `n` steps on. */
  ghost predicate Parts(ops: Ops, n: nat, c: M.Config) {
    M.Run(ops, true, n, c) == M.Fail && M.Run(ops, false, n, c).Go?
  }

  lemma PartsLater(ops: Ops, n: nat, c: M.Config, c1: M.Config)
    requires (forall async :: M.Step(ops, async, c) == M.Go(c1)) && Parts(ops, n, c1)
    ensures Parts(ops, n + 1, c)
  {
    forall async ensures M.Run(ops, async, n + 1, c) == M.Run(ops, async, n, c1) {
      M.RunOne(ops, async, c);
      M.RunAdd(ops, async, 1, n, c);
    }
  }

  lemma RequestParts(ops: Ops, c: M.Config, con: Expr, q: Expr, kn: R.Kont)
    requires R.At(c, Request(con, q), kn) && ReadsCondition(kn, c) && Answers(ops)
    requires Asks(ops, Request(con, q), M.View(c, c.k.r))
    ensures Parts(ops, 1, c)
  {
    forall async ensures M.Run(ops, async, 1, c) == M.StepRequest(ops, async, c, con, q) {
      M.RunOne(ops, async, c);
    }
    assert M.SkipEnd(kn) == kn;
  }

  lemma {:induction false} ExprParts(ops: Ops, e: Expr, c: M.Config, kn: R.Kont) returns (n: nat)
    requires R.At(c, e, kn) && ReadsCondition(kn, c) && Answers(ops) && Asks(ops, e, M.View(c, c.k.r))
    ensures Parts(ops, n, c)
    decreases e, 1
  {
    match e
    case Request(con, q) =>
      RequestParts(ops, c, con, q, kn);
      n := 1;
    case IfElse(cond, t, f) =>
      var a := M.EvalAtom(ops, M.View(c, c.k.r), cond);
      var b := if ops.truth(a.v).value then t else f;
      var c1 := c.(k := M.K(None, M.Code(b), c.k.r, M.NORMAL, kn));
      assert forall async :: M.Step(ops, async, c) == M.Go(c1);
      n := ExprParts(ops, b, c1, kn);
      PartsLater(ops, n, c, c1);
      n := n + 1;
    case Block(es) => n := ListParts(ops, e, es, c, kn);
    case For(l) => n := ListParts(ops, e, l.es, c, kn);
  }

  lemma {:induction false} ListParts(ops: Ops, e: Expr, es: seq<Expr>, c: M.Config, kn: R.Kont) returns (n: nat)
    requires R.At(c, e, kn) && (e == Block(es) || e == For(Block(es)))
    requires ReadsCondition(kn, c) && Answers(ops) && AsksSeq(ops, es, M.View(c, c.k.r))
    ensures Parts(ops, n, c)
    decreases es, 2
  {
    var c1 := c.(k := M.Chain(es, c.k.r, kn));
    assert forall async :: M.Step(ops, async, c) == M.Go(c1);
    assert M.View(c1, c.k.r) == M.View(c, c.k.r);
    n := SeqParts(ops, es, c1, kn);
    PartsLater(ops, n, c, c1);
    n := n + 1;
  }

  lemma {:induction false} SeqParts(ops: Ops, es: seq<Expr>, c: M.Config, kn: R.Kont) returns (n: nat)
    requires ReadsCondition(kn, c) && Answers(ops) && es != []
    requires c.k.K? && c.k.r < |c.frames| && R.SameBody(c.k, M.Chain(es, c.k.r, kn))
    requires AsksSeq(ops, es, M.View(c, c.k.r))
    ensures Parts(ops, n, c)
    decreases es, 1
  {
    var r := c.k.r;
    if |es| == 1 {
      assert R.At(c, es[0], kn);
      n := ExprParts(ops, es[0], c, kn);
    } else {
      var c1 := FirstDone(ops, es, c, kn);
      n := SeqParts(ops, es[1..], c1, kn);
      PartsLater(ops, n, c, c1);
      n := n + 1;
    }
  }

  /** The first element is an atom or the assignment of one: a step, the same in both runs. */
  lemma FirstDone(ops: Ops, es: seq<Expr>, c: M.Config, kn: R.Kont) returns (c1: M.Config)
    requires ReadsCondition(kn, c) && |es| > 1
    requires c.k.K? && c.k.r < |c.frames| && R.SameBody(c.k, M.Chain(es, c.k.r, kn))
    requires AsksSeq(ops, es, M.View(c, c.k.r))
    ensures forall async :: M.Step(ops, async, c) == M.Go(c1)
    ensures ReadsCondition(kn, c1) && c1.k.K? && c1.k.r == c.k.r < |c1.frames|
    ensures R.SameBody(c1.k, M.Chain(es[1..], c.k.r, kn)) && AsksSeq(ops, es[1..], M.View(c1, c.k.r))
  {
    var r, s := c.k.r, M.View(c, c.k.r);
    var rest := M.Chain(es[1..], r, kn);
    if es[0].Assign? {
      var v := M.EvalAtom(ops, s, es[0].e).v;
      var k := M.AssignKont(es[0].x, false, false, r, rest);
      R.DeliverAssign(ops, c, k, es[0].x, v);
      R.PostAdd(c, r, es[0].x, Val(v));
      c1 := M.AddIn(c, r, es[0].x, Val(v)).(k := k);
      R.PostView(c, M.AddIn(c, r, es[0].x, Val(v)), r, Add(s, es[0].x, Val(v)));
      assert M.View(c1, r) == Add(s, es[0].x, Val(v));
    } else {
      R.DeliverOn(ops, c, rest, M.EvalAtom(ops, s, es[0]).v);
      c1 := c.(k := rest);
      assert M.View(c1, r) == s;
    }
  }

  /**
   * A loop whose condition comes to a request: it is handed the future itself, which cannot be read as a truth value.
   * The run that waits fails, where the run that has its answer goes on.
   */
  lemma RequestAsCondition(ops: Ops, c: Expr, b: Expr, s: Store) returns (n: nat)
    requires s.tmps == [map[]] && Asks(ops, c, Push(s)) && Answers(ops) && M.AsList(b) != []
    ensures Parts(ops, n, M.Start(While(c, b), s.work, s.glob))
  {
    var c0 := M.Start(While(c, b), s.work, s.glob);
    var es := M.AsList(c);
    assert es != [] && AsksSeq(ops, es, Push(s));
    var condk := M.CondKont(c, b, M.HALT, 1);
    var c1 := c0.(frames := c0.frames + [M.Frame(map[], Some(0), [], condk, M.EndKont(M.HALT, 1))], k := condk);
    assert forall async :: M.Step(ops, async, c0) == M.Go(c1);
    assert M.Tmps(c1.frames, 0) == [map[]] && M.Tmps(c1.frames, 1) == [map[]] + [map[]];
    assert M.View(c1, 1) == Push(s);
    hide Asks, AsksSeq;
    n := SeqParts(ops, es, c1, M.BodyKont(b, M.HALT, 1));
    PartsLater(ops, n, c0, c1);
    n := n + 1;
  }

  // ----- Transparency -----

  ghost predicate TransparentRun(ops: Ops, e: Expr, work: map<Name, Cell>, glob: map<Name, Cell>, events: seq<Event>)
    requires NoFutures(work) && NoFutures(glob)
  {
    var c0 := M.Start(e, work, glob);
    var p := PlayProgram(ops, e, work, glob, events);
    && (p.failed ==> M.Run(ops, false, p.steps + 1, c0).Fail?)
    && (!p.failed ==> M.Run(ops, false, p.steps, c0).Go? && Related(p.c, M.Run(ops, false, p.steps, c0).c))
  }

  /** For all operators, from all stores and in whatever order the responses come, waiting makes no difference. */
  ghost predicate Transparent(e: Expr) {
    forall ops: Ops, work: map<Name, Cell>, glob: map<Name, Cell>, events: seq<Event> ::
      Transmissible(ops) && NoFutures(work) && NoFutures(glob) ==> TransparentRun(ops, e, work, glob, events)
  }

  function Tries(n: nat): seq<Event> {
    seq(n, _ => Try)
  }

  /** Without any response: the run fails after fewer steps than that. */
  lemma {:induction false} TriesFail(ops: Ops, n: nat, c: M.Config)
    requires SlotsOk(c) && M.Run(ops, true, n, c) == M.Fail
    ensures var p := Play(ops, Tries(n), c); p.failed && p.steps < n
    decreases n
  {
    assert n > 0;
    assert Tries(n)[0] == Try && Tries(n)[1..] == Tries(n - 1);
    StepSlots(ops, c);
    M.RunOne(ops, true, c);
    M.RunAdd(ops, true, 1, n - 1, c);
    var r := M.Step(ops, true, c);
    hide M.Step, SlotsOk, M.Run;
    if r.Go? { TriesFail(ops, n - 1, r.c); }
  }

  lemma GoesOn(ops: Ops, n: nat, m: nat, c: M.Config)
    requires m <= n && M.Run(ops, false, n, c).Go?
    ensures M.Run(ops, false, m, c).Go?
  {
    M.RunAdd(ops, false, m, n - m, c);
  }

  lemma AskingShows(ops: Ops, c: Expr, b: Expr, s: Store)
    requires s.tmps == [map[]] && Asks(ops, c, Push(s)) && Answers(ops) && M.AsList(b) != []
    requires Transmissible(ops) && NoFutures(s.work) && NoFutures(s.glob)
    ensures !Transparent(While(c, b))
  {
    var e := While(c, b);
    var c0 := M.Start(e, s.work, s.glob);
    var n := RequestAsCondition(ops, c, b, s);
    StartSlots(e, s.work, s.glob);
    hide Asks, M.Start, SlotsOk, NoFutures, Transmissible;
    TriesFail(ops, n, c0);
    var p := PlayProgram(ops, e, s.work, s.glob, Tries(n));
    GoesOn(ops, n, p.steps + 1, c0);
    assert !TransparentRun(ops, e, s.work, s.glob, Tries(n));
  }

  // ----- Requests that can be reached -----

  /** An atom that reads variables of the user and generated ones that are known to be assigned. */
  predicate AtomIn(a: Expr, known: set<Name>) {
    M.AtomOk(a) && forall x :: x in Mentions(a) ==> x.User? || x in known
  }

  /**
   * A request at the end of the condition that can be reached: its connection can be a peer, every decision on the
   * way is a variable that nothing after it reads, and what is evaluated before it are atoms and operators assigned
   * to variables that decide nothing.
   */
  predicate Reachable(c: Expr, known: set<Name>)
    decreases c, 1
  {
    match c
    case Request(con, _) => AtomIn(con, known) && (con.Lit? ==> con.v.VConn?)
    case IfElse(z, t, f) =>
      z.Sym? && z.x.User? && ((z.x !in Mentions(t) && Reachable(t, known)) || (z.x !in Mentions(f) && Reachable(f, known)))
    case Block(es) => ReachableSeq(es, known)
    case For(l) => l.Block? && ReachableSeq(l.es, known)
    case _ => false
  }

  predicate ReachableSeq(es: seq<Expr>, known: set<Name>)
    decreases es, 0
  {
    es != [] &&
    if |es| == 1 then Reachable(es[0], known)
    else if es[0].Assign? then
      && (es[0].e.Unop? || es[0].e.Binop?) && AtomIn(es[0].e, known) && ReachableSeq(es[1..], known + {es[0].x})
      && es[0].x !in TurnsSeq(es[1..], known + {es[0].x})
    else
      AtomIn(es[0], known) && ReachableSeq(es[1..], known)
  }

  /** How the variables have to decide. */
  function Turns(c: Expr, known: set<Name>): map<Name, bool>
    decreases c, 1
  {
    match c
    case IfElse(z, t, f) =>
      if !z.Sym? then map[]
      else if z.x !in Mentions(t) && Reachable(t, known) then Turns(t, known)[z.x := true]
      else Turns(f, known)[z.x := false]
    case Block(es) => TurnsSeq(es, known)
    case For(l) => if l.Block? then TurnsSeq(l.es, known) else map[]
    case _ => map[]
  }

  function TurnsSeq(es: seq<Expr>, known: set<Name>): map<Name, bool>
    decreases es, 0
  {
    if es == [] then map[]
    else if |es| == 1 then Turns(es[0], known)
    else if es[0].Assign? then TurnsSeq(es[1..], known + {es[0].x})
    else TurnsSeq(es[1..], known)
  }

  /** Operators that give a peer, truth values that are read as they are. */
  const ASKING: Ops := Ops((op, a) => Some(VConn(0)), (op, a, b) => Some(VConn(0)), (b, vs) => None,
                           (v: Value) => Some(if v.VBool? then v.b else true), (k, e) => VBool(true))

  function Wanted(x: Name, turns: map<Name, bool>): Value {
    if x in turns then VBool(turns[x]) else VConn(0)
  }

  /** The variables decide as they have to; all others are peers. */
  ghost predicate Ready(s: Store, names: set<Name>, known: set<Name>, turns: map<Name, bool>) {
    s.tmps != [] && forall x :: x in names && (x.User? || x in known) ==> Find(s, x) == Some(Val(Wanted(x, turns)))
  }

  lemma {:induction false} AtomReads(a: Expr, s: Store, names: set<Name>, known: set<Name>, turns: map<Name, bool>)
    requires AtomIn(a, known) && Ready(s, names, known, turns) && Mentions(a) <= names
    ensures var r := M.EvalAtom(ASKING, s, a);
            && r.AtomVal? && (a.Unop? || a.Binop? ==> r.v == VConn(0))
            && (a.Sym? ==> r.v == Wanted(a.x, turns))
  {
    match a
    case Unop(_, b) => AtomReads(b, s, names, known, turns);
    case Binop(_, l, r) => AtomReads(l, s, names, known, turns); AtomReads(r, s, names, known, turns);
    case _ =>
  }

  lemma {:induction false} ReachableAsks(c: Expr, s: Store, known: set<Name>)
    requires Reachable(c, known) && Ready(s, Mentions(c), known, Turns(c, known))
    ensures Asks(ASKING, c, s)
    decreases c, 1
  {
    match c
    case Request(con, _) => AtomReads(con, s, Mentions(c), known, map[]);
    case IfElse(z, t, f) =>
      assert z.x in Mentions(c);
      if z.x !in Mentions(t) && Reachable(t, known) {
        ReachableAsks(t, s, known);
      } else {
        ReachableAsks(f, s, known);
      }
    case Block(es) => ReachableAsksSeq(es, s, known);
    case For(l) =>
      assert Mentions(l) == MentionsSeq(l.es);
      ReachableAsksSeq(l.es, s, known);
  }

  lemma {:induction false} ReachableAsksSeq(es: seq<Expr>, s: Store, known: set<Name>)
    requires ReachableSeq(es, known) && Ready(s, MentionsSeq(es), known, TurnsSeq(es, known))
    ensures AsksSeq(ASKING, es, s)
    decreases es, 0
  {
    var e, turns := es[0], TurnsSeq(es, known);
    assert Mentions(e) <= MentionsSeq(es) && MentionsSeq(es[1..]) <= MentionsSeq(es);
    if |es| == 1 {
      ReachableAsks(e, s, known);
    } else if e.Assign? {
      assert Mentions(e.e) <= Mentions(e);
      AtomReads(e.e, s, MentionsSeq(es), known, turns);
      ReachableAsksSeq(es[1..], Add(s, e.x, Val(VConn(0))), known + {e.x});
    } else {
      AtomReads(e, s, MentionsSeq(es), known, turns);
      ReachableAsksSeq(es[1..], s, known);
    }
  }

  lemma ReachableShows(c: Expr, b: Expr)
    requires Reachable(c, {}) && M.AsList(b) != []
    ensures !Transparent(While(c, b))
  {
    var turns := Turns(c, {});
    var s := Store(map x | x in Mentions(c) :: Val(Wanted(x, turns)), map[], [map[]]);
    assert Ready(Push(s), Mentions(c), {}, turns);
    ReachableAsks(c, Push(s), {});
    AskingShows(ASKING, c, b, s);
  }

  /**
   * A loop over parts that are transparent, with a condition in which a request, if there is one at the end, can be
   * reached: it is transparent if and only if no request is the value of its condition.
   */
  lemma ConditionIsExact(c: Expr, b: Expr)
    requires CondsOk(c) && CondsOk(b) && M.AsList(b) != [] && (TailRequests(c) ==> Reachable(c, {}))
    ensures Transparent(While(c, b)) <==> !TailRequests(c)
  {
    if TailRequests(c) {
      ReachableShows(c, b);
    } else {
      forall ops: Ops, work: map<Name, Cell>, glob: map<Name, Cell>, events: seq<Event> |
        Transmissible(ops) && NoFutures(work) && NoFutures(glob)
        ensures TransparentRun(ops, While(c, b), work, glob, events)
      {
        FuturesAreTransparent(ops, While(c, b), work, glob, events);
      }
    }
  }

  // ----- Connections -----

  /** A run that moves once and then fails, in both ways: every order of events shows a part of it. */
  lemma {:induction false} ShortPlay(ops: Ops, events: seq<Event>, c: M.Config, c1: M.Config)
    requires SlotsOk(c) && SlotsOk(c1) && c.answers == [] && c1.answers == []
    requires M.Step(ops, true, c) == M.Go(c1) && M.Step(ops, true, c1) == M.Fail
    ensures var p := Play(ops, events, c);
            if p.failed then p.steps == 1 else (p.steps == 0 && p.c == c) || (p.steps == 1 && p.c == c1)
  {
    if events != [] {
      match events[0]
      case Response(_) => ShortPlay(ops, events[1..], c, c1);
      case Try => LastPlay(ops, events[1..], c1);
    }
  }

  lemma {:induction false} LastPlay(ops: Ops, events: seq<Event>, c: M.Config)
    requires SlotsOk(c) && c.answers == [] && M.Step(ops, true, c) == M.Fail
    ensures var p := Play(ops, events, c); p.steps == 0 && (!p.failed ==> p.c == c)
  {
    if events != [] && events[0].Response? {
      LastPlay(ops, events[1..], c);
    }
  }

  /** A connection that is no peer: both runs fail at the request. */
  lemma NoPeerIsTransparent(con: Expr, q: Expr, b: Expr)
    requires con.Lit? && !con.v.VConn? && M.AsList(b) != []
    ensures Transparent(While(Request(con, q), b))
  {
    var e := While(Request(con, q), b);
    forall ops: Ops, work: map<Name, Cell>, glob: map<Name, Cell>, events: seq<Event> |
      Transmissible(ops) && NoFutures(work) && NoFutures(glob)
      ensures TransparentRun(ops, e, work, glob, events)
    {
      NoPeerRun(ops, con, q, b, work, glob, events);
    }
  }

  /** The configuration in which the condition of the loop is about to be evaluated. */
  function AtCondition(c: Expr, b: Expr, work: map<Name, Cell>, glob: map<Name, Cell>): M.Config
    requires M.AsList(c) != [] && M.AsList(b) != []
  {
    var c0 := M.Start(While(c, b), work, glob);
    var condk := M.CondKont(c, b, M.HALT, 1);
    c0.(frames := c0.frames + [M.Frame(map[], Some(0), [], condk, M.EndKont(M.HALT, 1))], k := condk)
  }

  lemma NoPeerSteps(ops: Ops, async: bool, con: Expr, q: Expr, b: Expr, work: map<Name, Cell>, glob: map<Name, Cell>)
    requires con.Lit? && !con.v.VConn? && M.AsList(b) != []
    ensures var c1 := AtCondition(Request(con, q), b, work, glob);
            && M.Step(ops, async, M.Start(While(Request(con, q), b), work, glob)) == M.Go(c1)
            && M.Step(ops, async, c1) == M.Fail
  {}

  lemma AtConditionRelated(c: Expr, b: Expr, work: map<Name, Cell>, glob: map<Name, Cell>)
    requires NoFutures(work) && NoFutures(glob) && M.AsList(c) != [] && M.AsList(b) != []
    ensures var c1 := AtCondition(c, b, work, glob); Related(c1, c1) && SlotsOk(c1) && c1.answers == []
  {
    var c0, c1 := M.Start(While(c, b), work, glob), AtCondition(c, b, work, glob);
    StartSlots(While(c, b), work, glob);
    hide M.CondKont, M.EndKont;
    forall l ensures CellAt(c1, l).Some? ==> CellAt(c1, l).value.Val? {
      assert CellAt(c1, l).Some? ==> CellAt(c1, l) == CellAt(c0, l);
    }
  }

  lemma NoPeerRun(ops: Ops, con: Expr, q: Expr, b: Expr, work: map<Name, Cell>, glob: map<Name, Cell>, events: seq<Event>)
    requires con.Lit? && !con.v.VConn? && M.AsList(b) != [] && NoFutures(work) && NoFutures(glob)
    ensures TransparentRun(ops, While(Request(con, q), b), work, glob, events)
  {
    var c := Request(con, q);
    var c0 := M.Start(While(c, b), work, glob);
    var c1 := AtCondition(c, b, work, glob);
    NoPeerSteps(ops, true, con, q, b, work, glob);
    NoPeerSteps(ops, false, con, q, b, work, glob);
    StartSlots(While(c, b), work, glob);
    AtConditionRelated(c, b, work, glob);
    M.RunOne(ops, false, c0);
    assert c0.answers == [];
    hide M.Step, AtCondition, Related, SlotsOk;
    M.RunStep(ops, false, 1, c0, c1);
    ShortPlay(ops, events, c0, c1);
  }

  /** The connection can be a peer. */
  predicate CanBePeer(con: Expr) {
    con.Lit? ==> con.v.VConn?
  }

  /** A request as the whole condition, for every connection: transparent if and only if the connection is never a peer. */
  lemma RequestConditionIsExact(con: Expr, q: Expr, b: Expr)
    requires AtomIn(con, {}) && M.AsList(b) != []
    ensures Transparent(While(Request(con, q), b)) <==> !CanBePeer(con)
  {
    if CanBePeer(con) {
      ReachableShows(Request(con, q), b);
    } else {
      NoPeerIsTransparent(con, q, b);
    }
  }
}
