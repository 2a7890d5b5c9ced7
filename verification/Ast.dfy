/** Expressions, values and stores of the language core (src/ast.hpp, src/env.hpp). */
module Ast {

  import opened Wrappers

  /** A variable name.  The source keeps names as strings and recognises the generated ones by a
      leading '?'; here each generator has its own constructor, numbered by its counter. */
  datatype Name =
    | User(id: string)
    | Anf(n: nat)      // ?anf<n>, made by the conversion to A-normal form
    | ForIdx(n: nat)   // ?foridx<n>, the hidden counter of a for loop
    | InExpr(n: nat)   // ?inexpr<n>, the hidden sequence of a for loop

  predicate IsTemporary(x: Name) {
    !x.User?
  }

  datatype Value =
    | VNull
    | VBool(b: bool)
    | VNum(n: int)
    | VSeq(elts: seq<Value>)
    | VConn(peer: nat)
    | VBuiltin(name: string)

  datatype Expr =
    | Lit(v: Value)
    | Sym(x: Name)
    | Break
    | Next
    | Ellipsis
    | Unop(op: nat, e: Expr)
    | Binop(op: nat, left: Expr, right: Expr)
    | Block(es: seq<Expr>)
    | While(cond: Expr, body: Expr)
    | IfElse(cond: Expr, thn: Expr, els: Expr)
    | For(loop: Expr)
    | Assign(x: Name, e: Expr)
    | Special(id: string, e: Expr)
    | Request(con: Expr, e: Expr)
    | Call(head: Expr, args: seq<Arg>)

  /** An actual argument, carrying the name of the formal that it was matched with. */
  datatype Arg = Arg(formal: string, e: Expr)

  /** What a variable holds: a value, or the future of the answer to a numbered request. */
  datatype Cell = Val(v: Value) | Fut(n: nat)

  /** The operators, the builtins, the reading of a condition and the answers of remote peers are
      parameters of the model.  A peer always answers, and never with a function. */
  datatype Ops = Ops(
    unop: (nat, Value) -> Option<Value>,
    binop: (nat, Value, Value) -> Option<Value>,
    builtin: (string, seq<Value>) -> Option<Value>,
    truth: Value -> Option<bool>,
    remote: (nat, Expr) -> Value)

  // ----- Stores -----

  /** The working frame, the global frame above it, and the stack of shadow frames that hold the
      temporaries, innermost first. */
  datatype Store = Store(work: map<Name, Cell>, glob: map<Name, Cell>, tmps: seq<map<Name, Cell>>)

  function FindTemporary(tmps: seq<map<Name, Cell>>, x: Name): Option<Cell> {
    if tmps == [] then None
    else if x in tmps[0] then Some(tmps[0][x])
    else FindTemporary(tmps[1..], x)
  }

  function Find(s: Store, x: Name): Option<Cell> {
    if IsTemporary(x) then FindTemporary(s.tmps, x)
    else if x in s.work then Some(s.work[x])
    else if x in s.glob then Some(s.glob[x])
    else None
  }

  predicate IsFunction(c: Cell) {
    c.Val? && c.v.VBuiltin?
  }

  function FindFunctionTemporary(tmps: seq<map<Name, Cell>>, x: Name): Option<string> {
    if tmps == [] then None
    else if x in tmps[0] && IsFunction(tmps[0][x]) then Some(tmps[0][x].v.name)
    else FindFunctionTemporary(tmps[1..], x)
  }

  /** The lookup used for the head of a call: bindings that are not functions are skipped. */
  function FindFunction(s: Store, x: Name): Option<string> {
    if IsTemporary(x) then FindFunctionTemporary(s.tmps, x)
    else if x in s.work && IsFunction(s.work[x]) then Some(s.work[x].v.name)
    else if x in s.glob && IsFunction(s.glob[x]) then Some(s.glob[x].v.name)
    else None
  }

  /** Assignment: temporaries stay in the innermost shadow frame, other names go to the working frame. */
  function Add(s: Store, x: Name, c: Cell): Store
    requires s.tmps != []
  {
    if IsTemporary(x) then s.(tmps := [s.tmps[0][x := c]] + s.tmps[1..])
    else s.(work := s.work[x := c])
  }

  /** The `<<-` assignment: rebinds a name of the working frame, or else binds it globally. */
  function AddSpecial(s: Store, x: Name, c: Cell): Store {
    if x in s.work then s.(work := s.work[x := c]) else s.(glob := s.glob[x := c])
  }

  // ----- Names read and written -----

  /** Strips an expression list of one element. */
  function Strip(e: Expr): Expr {
    if e.Block? && |e.es| == 1 then e.es[0] else e
  }

  /** The names that evaluating `e` may assign. */
  function Writes(e: Expr): set<Name>
    decreases e, 1
  {
    match e
    case Lit(_) | Sym(_) | Break | Next | Ellipsis => {}
    case Unop(_, a) => Writes(a)
    case Binop(_, l, r) => Writes(l) + Writes(r)
    case Block(es) => WritesSeq(es)
    case While(c, b) => Writes(c) + Writes(b)
    case IfElse(c, t, f) => Writes(c) + Writes(t) + Writes(f)
    case For(l) => Writes(l)
    case Assign(x, a) => {x} + Writes(a)
    case Special(id, a) => {User(id)} + Writes(a)
    case Request(c, _) => Writes(c)
    case Call(h, args) => Writes(h) + WritesArgs(args)
  }

  function WritesSeq(es: seq<Expr>): set<Name>
    decreases es, 0
  {
    if es == [] then {} else Writes(es[0]) + WritesSeq(es[1..])
  }

  function WritesArgs(args: seq<Arg>): set<Name>
    decreases args, 0
  {
    if args == [] then {} else Writes(args[0].e) + WritesArgs(args[1..])
  }

  /** The names that occur in the part of `e` that is evaluated here, read or written. */
  function Mentions(e: Expr): set<Name>
    decreases e, 1
  {
    match e
    case Lit(_) | Break | Next | Ellipsis => {}
    case Sym(x) => {x}
    case Unop(_, a) => Mentions(a)
    case Binop(_, l, r) => Mentions(l) + Mentions(r)
    case Block(es) => MentionsSeq(es)
    case While(c, b) => Mentions(c) + Mentions(b)
    case IfElse(c, t, f) => Mentions(c) + Mentions(t) + Mentions(f)
    case For(l) => Mentions(l)
    case Assign(x, a) => {x} + Mentions(a)
    case Special(id, a) => {User(id)} + Mentions(a)
    case Request(c, _) => Mentions(c)
    case Call(h, args) => Mentions(h) + MentionsArgs(args)
  }

  function MentionsSeq(es: seq<Expr>): set<Name>
    decreases es, 0
  {
    if es == [] then {} else Mentions(es[0]) + MentionsSeq(es[1..])
  }

  function MentionsArgs(args: seq<Arg>): set<Name>
    decreases args, 0
  {
    if args == [] then {} else Mentions(args[0].e) + MentionsArgs(args[1..])
  }
}
