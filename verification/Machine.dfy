/** The continuation machine (src/interp.cpp): what one step does, as a function of the configuration,
    and the interpreter object that does it by updating its fields. */
module Machine {
  import opened Wrappers
  import opened Ast

  // ----- Continuations and frames -----

  /** What a continuation evaluates: nothing, an expression, or the invocation of a builtin. */
  datatype Control = NoControl | Code(e: Expr) | Invoke(b: string)

  /** The assignment flags that steer the machine (GLOBAL, ARG, WHILE, COND and END). */
  datatype Flags = Flags(global: bool, arg: bool, loopEnd: bool, cond: bool, end: bool)

  const NORMAL := Flags(false, false, false, false, false)

  /** `target` is the variable that receives the value delivered to this continuation, `r` the frame
      in which it works. */
  datatype Kont =
    | Nil
    | K(target: Option<Name>, control: Control, r: nat, fl: Flags, next: Kont)

  /** A shadow frame (temporaries, and the two continuations of the loop that owns it) or the frame
      of a builtin (its arguments). */
  datatype Frame = Frame(tmp: map<Name, Cell>, up: Option<nat>, args: seq<Cell>, bc: Kont, cc: Kont)

  /** Where the value of a future is expected. */
  datatype Slot = Nowhere | InWork(x: Name) | InGlob(x: Name) | InTmp(r: nat, x: Name) | InArgs(r: nat, i: nat)

  /** `answers` holds the answer of each request sent so far, delivered or not; `slots` says where
      each of them has to be delivered. */
  datatype Config = Config(
    k: Kont, frames: seq<Frame>, work: map<Name, Cell>, glob: map<Name, Cell>,
    answers: seq<Value>, slots: seq<Slot>)

  /** The machine has moved, has failed, waits for an answer, or had nothing left to do. */
  datatype StepRes = Go(c: Config) | Fail | Blocked | Idle

  const LAST := User(".Last.value")

  /** The temporaries in scope in frame `r`, innermost first. */
  function Tmps(frames: seq<Frame>, r: nat): (t: seq<map<Name, Cell>>)
    requires r < |frames|
    ensures t != []
  {
    var f := frames[r];
    [f.tmp] + if f.up.Some? && f.up.value < r then Tmps(frames, f.up.value) else []
  }

  function View(c: Config, r: nat): (s: Store)
    requires r < |c.frames|
    ensures s.tmps != []
  {
    Store(c.work, c.glob, Tmps(c.frames, r))
  }

  // ----- Atoms -----

  /** The class of expressions that are evaluated without continuations. */
  predicate AtomOk(e: Expr) {
    match e
    case Lit(_) | Sym(_) => true
    case Unop(_, a) => AtomOk(a)
    case Binop(_, l, r) => AtomOk(l) && AtomOk(r)
    case _ => false
  }

  predicate AtomicControl(e: Expr) {
    e.Lit? || e.Sym? || e.Unop? || e.Binop?
  }

  datatype AtomRes = AtomVal(v: Value) | AtomErr | AtomBlocked

  function OfOption(r: Option<Value>): AtomRes {
    match r case None => AtomErr case Some(v) => AtomVal(v)
  }

  function EvalAtom(ops: Ops, s: Store, e: Expr): AtomRes {
    match e
    case Lit(v) => AtomVal(v)
    case Sym(x) =>
      (match Find(s, x)
       case None => AtomErr
       case Some(Val(v)) => AtomVal(v)
       case Some(Fut(_)) => AtomBlocked)
    case Unop(op, a) =>
      var r := EvalAtom(ops, s, a);
      if r.AtomVal? then OfOption(ops.unop(op, r.v)) else r
    case Binop(op, left, right) =>
      var l := EvalAtom(ops, s, left);
      if !l.AtomVal? then l else
      var r := EvalAtom(ops, s, right);
      if r.AtomVal? then OfOption(ops.binop(op, l.v, r.v)) else r
    case _ => AtomErr
  }

  /** The head of a call: a name is looked up among functions only. */
  function EvalHead(ops: Ops, s: Store, e: Expr): AtomRes {
    if e.Sym? then
      match FindFunction(s, e.x) case None => AtomErr case Some(b) => AtomVal(VBuiltin(b))
    else EvalAtom(ops, s, e)
  }

  // ----- Chains -----

  /** The chain that evaluates an expression list and then goes on with `k`. */
  function Chain(es: seq<Expr>, r: nat, k: Kont): (c: Kont)
    requires es != []
    ensures c.K? && c.r == r && c.fl == NORMAL && c.target == None && c.control.Code?
    ensures k.K? ==> c.next.K?
  {
    var rest := if |es| == 1 then k else Chain(es[1..], r, k);
    match es[0]
    case Assign(x, a) => K(None, Code(a), r, NORMAL, AssignKont(x, false, |es| == 1, r, rest))
    case Special(x, a) => K(None, Code(a), r, NORMAL, AssignKont(User(x), true, |es| == 1, r, rest))
    case e => K(None, Code(e), r, NORMAL, rest)
  }

  /** The continuation that receives the value of an assignment to `x`: a new one, which reads `x`
      back, at the end of a list; otherwise the next element's, made the target of the assignment. */
  function AssignKont(x: Name, global: bool, last: bool, r: nat, rest: Kont): Kont {
    if last || rest.Nil? then K(Some(x), Code(Sym(x)), r, NORMAL.(global := global), rest)
    else rest.(target := Some(x), fl := rest.fl.(global := global))
  }

  function AsList(e: Expr): seq<Expr> {
    if e.Block? then e.es else [e]
  }

  /** Evaluates the arguments in the calling frame `r` into the frame `fb` of the builtin. */
  function ArgChain(args: seq<Arg>, r: nat, fb: nat, k: Kont): Kont {
    if args == [] then k else
    K(None, Code(args[0].e), r, NORMAL,
      K(Some(User(args[0].formal)), NoControl, fb, NORMAL.(arg := true), ArgChain(args[1..], r, fb, k)))
  }

  /** The continuations of a loop that runs in frame `r`: its end, its body and its condition. */
  function EndKont(next: Kont, r: nat): Kont
    requires next.K?
  {
    K(next.target, Code(Lit(VNull)), r, NORMAL.(loopEnd := true), next)
  }

  function BodyKont(body: Expr, next: Kont, r: nat): (k: Kont)
    requires next.K? && AsList(body) != []
    ensures k.K?
  {
    var b := Chain(AsList(body), r, EndKont(next, r));
    K(None, b.control, r, NORMAL.(cond := true), b.next)
  }

  function CondKont(cond: Expr, body: Expr, next: Kont, r: nat): (k: Kont)
    requires next.K? && AsList(body) != [] && AsList(cond) != []
    ensures k.K?
  {
    Chain(AsList(cond), r, BodyKont(body, next, r))
  }

  // ----- Delivering a value -----

  function SkipEnd(k: Kont): Kont {
    if k.K? && k.fl.end then SkipEnd(k.next) else k
  }

  function AddIn(c: Config, r: nat, x: Name, v: Cell): Config
    requires r < |c.frames|
  {
    if IsTemporary(x) then c.(frames := c.frames[r := c.frames[r].(tmp := c.frames[r].tmp[x := v])])
    else c.(work := c.work[x := v])
  }

  function AddSpecialIn(c: Config, x: Name, v: Cell): Config {
    if x in c.work then c.(work := c.work[x := v]) else c.(glob := c.glob[x := v])
  }

  function AddArgIn(c: Config, r: nat, v: Cell): Config
    requires r < |c.frames|
  {
    c.(frames := c.frames[r := c.frames[r].(args := c.frames[r].args + [v])])
  }

  /** The first phase of a delivery: the value is assigned in the frame of the continuation.  A
      value without a target is kept only when the program ends. */
  function Assigned(c: Config, k: Kont, v: Cell): Config
    requires k.K? && k.r < |c.frames|
  {
    match k.target
    case Some(x) =>
      if k.fl.arg then AddArgIn(c, k.r, v)
      else if k.fl.global then AddSpecialIn(c, x, v)
      else AddIn(c, k.r, x, v)
    case None => if k.next.Nil? then AddIn(c, k.r, LAST, v) else c
  }

  /** The place that the first phase fills. */
  function Place(c: Config, k: Kont): Slot
    requires k.K? && k.r < |c.frames|
  {
    match k.target
    case Some(x) =>
      if k.fl.arg then InArgs(k.r, |c.frames[k.r].args|)
      else if k.fl.global then (if x in c.work then InWork(x) else InGlob(x))
      else if IsTemporary(x) then InTmp(k.r, x) else InWork(x)
    case None => if k.next.Nil? then InWork(LAST) else Nowhere
  }

  /** A future that is assigned remembers where. */
  function SlotSet(c: Config, v: Cell, p: Slot): Config {
    if v.Fut? && v.n < |c.slots| then c.(slots := c.slots[v.n := p]) else c
  }

  function Cleared(c: Config, r: nat): Config
    requires r < |c.frames|
  {
    c.(frames := c.frames[r := Frame(map[], c.frames[r].up, [], Nil, Nil)])
  }

  /** The second phase: where the machine goes next. */
  function Flow(ops: Ops, c: Config, k: Kont, v: Cell): StepRes
    requires k.K? && k.r < |c.frames|
  {
    if k.fl.cond then
      if v.Fut? then Fail else
      match ops.truth(v.v)
      case None => Fail
      case Some(true) => Go(c.(k := k))
      case Some(false) => Go(Cleared(c, k.r).(k := c.frames[k.r].cc))
    else if k.fl.loopEnd then Go(c.(k := c.frames[k.r].bc))
    else if k.control != NoControl then Go(c.(k := k))
    else Go(c.(k := if k.next.K? then k.next else k))
  }

  /** Delivers a value to the continuation `k0`. */
  function Deliver(ops: Ops, c: Config, k0: Kont, v: Cell): StepRes {
    var k := SkipEnd(k0);
    if k.Nil? || k.r >= |c.frames| then Fail
    else Flow(ops, SlotSet(Assigned(c, k, v), v, Place(c, k)), k, v)
  }

  function DeliverAtom(ops: Ops, c: Config, k: Kont, r: AtomRes): StepRes {
    match r
    case AtomVal(v) => Deliver(ops, c, k, Val(v))
    case AtomErr => Fail
    case AtomBlocked => Blocked
  }

  // ----- One step -----

  predicate HasFuture(args: seq<Cell>) {
    exists i :: 0 <= i < |args| && args[i].Fut?
  }

  function Values(args: seq<Cell>): seq<Value> {
    seq(|args|, i requires 0 <= i < |args| => if args[i].Val? then args[i].v else VNull)
  }

  function StepInvoke(ops: Ops, c: Config, b: string): StepRes
    requires c.k.K? && c.k.r < |c.frames|
  {
    var f := c.frames[c.k.r];
    if f.up.None? || f.up.value >= |c.frames| then Fail else
    match FindFunction(View(c, f.up.value), User(b))
    case None => Fail
    case Some(g) =>
      if HasFuture(f.args) then Blocked
      else DeliverAtom(ops, c, c.k.next, OfOption(ops.builtin(g, Values(f.args))))
  }

  /** A request: its answer is delivered at once, or, when `async`, stands as a future. */
  function StepRequest(ops: Ops, async: bool, c: Config, con: Expr, e: Expr): StepRes
    requires c.k.K? && c.k.r < |c.frames|
  {
    match EvalAtom(ops, View(c, c.k.r), con)
    case AtomErr => Fail
    case AtomBlocked => Blocked
    case AtomVal(v) =>
      if !v.VConn? then Fail
      else if !async then Deliver(ops, c, c.k.next, Val(ops.remote(v.peer, e)))
      else
        var c' := c.(answers := c.answers + [ops.remote(v.peer, e)], slots := c.slots + [Nowhere]);
        Deliver(ops, c', c.k.next, Fut(|c.answers|))
  }

  function StepIf(ops: Ops, c: Config, cond: Expr, thn: Expr, els: Expr): StepRes
    requires c.k.K? && c.k.r < |c.frames|
  {
    match EvalAtom(ops, View(c, c.k.r), cond)
    case AtomErr => Fail
    case AtomBlocked => Blocked
    case AtomVal(v) =>
      match ops.truth(v)
      case None => Fail
      case Some(b) => Go(c.(k := K(None, Code(if b then thn else els), c.k.r, NORMAL, c.k.next)))
  }

  function StepCall(ops: Ops, c: Config, head: Expr, args: seq<Arg>): StepRes
    requires c.k.K? && c.k.r < |c.frames|
  {
    match EvalHead(ops, View(c, c.k.r), head)
    case AtomErr => Fail
    case AtomBlocked => Blocked
    case AtomVal(v) =>
      if !v.VBuiltin? then Fail else
      var fb := |c.frames|;
      var sentinel := K(None, NoControl, fb, NORMAL.(end := true), c.k.next);
      var invoke := K(None, Invoke(v.name), fb, NORMAL, sentinel);
      Go(c.(frames := c.frames + [Frame(map[], Some(c.k.r), [], Nil, Nil)],
              k := ArgChain(args, c.k.r, fb, invoke)))
  }

  function StepWhile(c: Config, cond: Expr, body: Expr): StepRes
    requires c.k.K? && c.k.r < |c.frames|
  {
    if c.k.next.Nil? || AsList(cond) == [] || AsList(body) == [] then Fail else
    var fr := |c.frames|;
    var k := CondKont(cond, body, c.k.next, fr);
    Go(c.(frames := c.frames + [Frame(map[], Some(c.k.r), [], k, EndKont(c.k.next, fr))], k := k))
  }

  function StepList(c: Config, es: seq<Expr>): StepRes
    requires c.k.K?
  {
    if es == [] then Fail else Go(c.(k := Chain(es, c.k.r, c.k.next)))
  }

  function Step(ops: Ops, async: bool, c: Config): StepRes {
    if c.k.Nil? then Fail else
    if c.k.control == NoControl then Idle else
    if c.k.r >= |c.frames| then Fail else
    match c.k.control
    case NoControl => Idle
    case Invoke(b) => StepInvoke(ops, c, b)
    case Code(e) =>
      match e
      case Lit(_) | Sym(_) | Unop(_, _) | Binop(_, _, _) =>
        DeliverAtom(ops, c, c.k.next, EvalAtom(ops, View(c, c.k.r), e))
      case Assign(_, _) | Special(_, _) => StepList(c, [e])
      case Block(es) => StepList(c, es)
      case Request(con, a) => StepRequest(ops, async, c, con, a)
      case IfElse(cond, thn, els) => StepIf(ops, c, cond, thn, els)
      case Call(h, args) => StepCall(ops, c, h, args)
      case While(cond, body) => StepWhile(c, cond, body)
      case For(l) => if l.Block? then StepList(c, l.es) else Fail
      case Break | Next | Ellipsis => Fail
  }

  /** `n` steps in a row. */
  function Iterate(step: Config -> StepRes, n: nat, c: Config): StepRes {
    if n == 0 then Go(c) else
    match step(c)
    case Go(c') => Iterate(step, n - 1, c')
    case r => r
  }

  function Stepper(ops: Ops, async: bool): Config -> StepRes {
    c => Step(ops, async, c)
  }

  function Run(ops: Ops, async: bool, n: nat, c: Config): StepRes {
    Iterate(Stepper(ops, async), n, c)
  }

  lemma {:induction false} IterateAdd(step: Config -> StepRes, n: nat, m: nat, c: Config)
    ensures var r := Iterate(step, n, c);
      Iterate(step, n + m, c) == if r.Go? then Iterate(step, m, r.c) else r
  {
    if n > 0 && step(c).Go? { IterateAdd(step, n - 1, m, step(c).c); }
  }

  lemma IterateOne(step: Config -> StepRes, c: Config)
    ensures Iterate(step, 1, c) == step(c)
  {
    assert step(c).Go? ==> Iterate(step, 0, step(c).c) == step(c);
  }

  lemma RunAdd(ops: Ops, async: bool, n: nat, m: nat, c: Config)
    ensures var r := Run(ops, async, n, c);
      Run(ops, async, n + m, c) == if r.Go? then Run(ops, async, m, r.c) else r
  {
    IterateAdd(Stepper(ops, async), n, m, c);
  }

  lemma RunOne(ops: Ops, async: bool, c: Config)
    ensures Run(ops, async, 1, c) == Step(ops, async, c)
  {
    IterateOne(Stepper(ops, async), c);
  }

  lemma RunStep(ops: Ops, async: bool, n: nat, c0: Config, c: Config)
    requires Run(ops, async, n, c0) == Go(c)
    ensures Run(ops, async, n + 1, c0) == Step(ops, async, c)
  {
    RunAdd(ops, async, n, 1, c0);
    RunOne(ops, async, c);
  }

  // ----- A whole program -----

  const HALT := K(None, NoControl, 0, NORMAL, Nil)

  /** A program is evaluated in a shadow frame of its own, on top of the working frame. */
  function Start(e: Expr, work: map<Name, Cell>, glob: map<Name, Cell>): Config {
    Config(K(None, Code(e), 0, NORMAL, HALT), [Frame(map[], None, [], Nil, Nil)], work, glob, [], [])
  }

  // ----- The interpreter -----

  /** The state of an interpretation, updated in place. */
  class Interpreter {
    var k: Kont
    var frames: seq<Frame>
    var work: map<Name, Cell>
    var glob: map<Name, Cell>
    var answers: seq<Value>
    var slots: seq<Slot>

    function State(): Config
      reads this
    {
      Config(k, frames, work, glob, answers, slots)
    }

    constructor (e: Expr, work0: map<Name, Cell>, glob0: map<Name, Cell>)
      ensures State() == Start(e, work0, glob0)
    {
      k := K(None, Code(e), 0, NORMAL, HALT);
      frames := [Frame(map[], None, [], Nil, Nil)];
      work, glob, answers, slots := work0, glob0, [], [];
    }

    method Add(r: nat, x: Name, v: Cell)
      requires r < |frames|
      modifies this
      ensures State() == AddIn(old(State()), r, x, v)
    {
      if IsTemporary(x) {
        frames := frames[r := frames[r].(tmp := frames[r].tmp[x := v])];
      } else {
        work := work[x := v];
      }
    }

    /** Assigns a delivered value and moves on; `ok` is false when a condition cannot be read. */
    method ApplyKont(ops: Ops, k0: Kont, v: Cell) returns (ok: bool)
      modifies this
      ensures ok <==> Deliver(ops, old(State()), k0, v).Go?
      ensures ok ==> State() == Deliver(ops, old(State()), k0, v).c
    {
      var kn := k0;
      while kn.K? && kn.fl.end
        invariant SkipEnd(kn) == SkipEnd(k0)
        decreases kn
      {
        kn := kn.next;
      }
      if kn.Nil? || kn.r >= |frames| { return false; }
      var place := Place(State(), kn);
      if kn.target.Some? {
        if kn.fl.arg {
          frames := frames[kn.r := frames[kn.r].(args := frames[kn.r].args + [v])];
        } else if kn.fl.global {
          if kn.target.value in work {
            work := work[kn.target.value := v];
          } else {
            glob := glob[kn.target.value := v];
          }
        } else {
          Add(kn.r, kn.target.value, v);
        }
      } else if kn.next.Nil? {
        Add(kn.r, LAST, v);
      }
      if v.Fut? && v.n < |slots| {
        slots := slots[v.n := place];
      }
      if kn.fl.cond {
        if v.Fut? || ops.truth(v.v).None? { return false; }
        if ops.truth(v.v).value {
          k := kn;
        } else {
          k := frames[kn.r].cc;
          frames := frames[kn.r := Frame(map[], frames[kn.r].up, [], Nil, Nil)];
        }
      } else if kn.fl.loopEnd {
        k := frames[kn.r].bc;
      } else if kn.control != NoControl {
        k := kn;
      } else {
        k := if kn.next.K? then kn.next else kn;
      }
      return true;
    }

    method InsertWhile(cond: Expr, body: Expr) returns (ok: bool)
      requires k.K? && k.r < |frames|
      modifies this
      ensures ok <==> StepWhile(old(State()), cond, body).Go?
      ensures ok ==> State() == StepWhile(old(State()), cond, body).c
      ensures !ok ==> State() == old(State())
    {
      if k.next.Nil? || AsList(cond) == [] || AsList(body) == [] { return false; }
      var fr := |frames|;
      var endk := EndKont(k.next, fr);
      var b := Chain(AsList(body), fr, endk);
      var bodyk := K(None, b.control, fr, NORMAL.(cond := true), b.next);
      var condk := Chain(AsList(cond), fr, bodyk);
      frames := frames + [Frame(map[], Some(k.r), [], condk, endk)];
      k := condk;
      return true;
    }

    /** Sends a request; when `async`, its future is delivered in place of its answer. */
    method SendRequest(ops: Ops, async: bool, con: Expr, e: Expr) returns (res: Outcome)
      requires k.K? && k.r < |frames|
      modifies this
      ensures match StepRequest(ops, async, old(State()), con, e)
        case Go(c) => res.Stepped? && State() == c
        case Fail => res.Failed?
        case Blocked => res.Waiting? && State() == old(State())
        case Idle => false
    {
      var r := EvalAtom(ops, View(State(), k.r), con);
      if !r.AtomVal? { return if r.AtomBlocked? then Waiting else Failed; }
      if !r.v.VConn? { return Failed; }
      var answer := ops.remote(r.v.peer, e);
      var ok;
      if async {
        answers, slots := answers + [answer], slots + [Nowhere];
        ok := ApplyKont(ops, k.next, Fut(|answers| - 1));
      } else {
        ok := ApplyKont(ops, k.next, Val(answer));
      }
      return if ok then Stepped else Failed;
    }

    /** Pushes the frame of a builtin and chains the evaluation of its arguments. */
    method ApplyBuiltin(ops: Ops, h: Expr, args: seq<Arg>) returns (res: Outcome)
      requires k.K? && k.r < |frames|
      modifies this
      ensures match StepCall(ops, old(State()), h, args)
        case Go(c) => res.Stepped? && State() == c
        case Fail => res.Failed?
        case Blocked => res.Waiting? && State() == old(State())
        case Idle => false
    {
      var r := EvalHead(ops, View(State(), k.r), h);
      if !r.AtomVal? { return if r.AtomBlocked? then Waiting else Failed; }
      if !r.v.VBuiltin? { return Failed; }
      var fb := |frames|;
      var sentinel := K(None, NoControl, fb, NORMAL.(end := true), k.next);
      frames := frames + [Frame(map[], Some(k.r), [], Nil, Nil)];
      k := ArgChain(args, k.r, fb, K(None, Invoke(r.v.name), fb, NORMAL, sentinel));
      return Stepped;
    }

    /** One step.  A step that meets the future of an unanswered request changes nothing. */
    method StepOnce(ops: Ops, async: bool) returns (res: Outcome)
      modifies this
      ensures match Step(ops, async, old(State()))
        case Go(c) => res.Stepped? && State() == c
        case Fail => res.Failed?
        case Blocked => res.Waiting? && State() == old(State())
        case Idle => res.Finished? && State() == old(State())
    {
      if k.Nil? { return Failed; }
      if k.control == NoControl { return Finished; }
      if k.r >= |frames| { return Failed; }
      var ok := true;
      match k.control {
      case NoControl =>
      case Invoke(b) =>
        var f := frames[k.r];
        if f.up.None? || f.up.value >= |frames| { return Failed; }
        var g := FindFunction(View(State(), f.up.value), User(b));
        if g.None? { return Failed; }
        if HasFuture(f.args) { return Waiting; }
        var v := ops.builtin(g.value, Values(f.args));
        if v.None? { return Failed; }
        ok := ApplyKont(ops, k.next, Val(v.value));
      case Code(e) =>
        if AtomicControl(e) {
          var a := EvalAtom(ops, View(State(), k.r), e);
          if !a.AtomVal? { return if a.AtomBlocked? then Waiting else Failed; }
          ok := ApplyKont(ops, k.next, Val(a.v));
        } else {
          res := StepControl(ops, async, e);
          return;
        }
      }
      return if ok then Stepped else Failed;
    }

    method StepControl(ops: Ops, async: bool, e: Expr) returns (res: Outcome)
      requires k.K? && k.r < |frames| && k.control == Code(e) && !AtomicControl(e)
      modifies this
      ensures match Step(ops, async, old(State()))
        case Go(c) => res.Stepped? && State() == c
        case Fail => res.Failed?
        case Blocked => res.Waiting? && State() == old(State())
        case Idle => false
    {
      var ok := true;
      match e {
      case Assign(_, _) => k := Chain([e], k.r, k.next);
      case Special(_, _) => k := Chain([e], k.r, k.next);
      case Block(es) =>
        if es == [] { return Failed; }
        k := Chain(es, k.r, k.next);
      case For(l) =>
        if !l.Block? || l.es == [] { return Failed; }
        k := Chain(l.es, k.r, k.next);
      case Request(con, a) =>
        res := SendRequest(ops, async, con, a);
        return;
      case IfElse(cond, thn, els) =>
        var r := EvalAtom(ops, View(State(), k.r), cond);
        if !r.AtomVal? { return if r.AtomBlocked? then Waiting else Failed; }
        var b := ops.truth(r.v);
        if b.None? { return Failed; }
        k := K(None, Code(if b.value then thn else els), k.r, NORMAL, k.next);
      case Call(h, args) =>
        res := ApplyBuiltin(ops, h, args);
        return;
      case While(cond, body) => ok := InsertWhile(cond, body);
      case _ => return Failed;
      }
      return if ok then Stepped else Failed;
    }

    /** The loop of the interpretation context: steps until the program ends, fails or waits. */
    method Interpret(ops: Ops, async: bool, limit: nat) returns (res: Outcome, ghost n: nat)
      modifies this
      ensures n <= limit
      ensures match res
        case Stepped => Run(ops, async, n, old(State())) == Go(State()) && n == limit
        case Finished => Run(ops, async, n, old(State())) == Go(State()) && Step(ops, async, State()).Idle?
        case Waiting => Run(ops, async, n, old(State())) == Go(State()) && Step(ops, async, State()).Blocked?
        case Failed => Run(ops, async, n, old(State())).Fail?
    {
      ghost var c0 := State();
      var left := limit;
      n := 0;
      while left > 0
        invariant n + left == limit
        invariant Run(ops, async, n, c0) == Go(State())
        decreases left
      {
        RunStep(ops, async, n, c0, State());
        res := StepOnce(ops, async);
        if res.Waiting? || res.Finished? { return; }
        n := n + 1;
        if res.Failed? { return; }
        left := left - 1;
      }
      res := Stepped;
    }
  }

  datatype Outcome = Stepped | Failed | Waiting | Finished
}
