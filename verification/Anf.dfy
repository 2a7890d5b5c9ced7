/** Conversion to A-normal form (src/anf.cpp): the functions that say what the conversion makes of an
    expression, and the methods that do it in place on expression lists, through a cursor. */
module Anf {
  import opened Wrappers
  import opened Ast

  /** What is left of an expression, the assignments hoisted in front of it, and the next free number. */
  datatype Normal = Normal(pre: seq<Expr>, e: Expr, g: nat)

  predicate IsAtomic(e: Expr) {
    e.Lit? || e.Binop? || e.Sym? || e.Next? || e.Break? || e.Ellipsis?
  }

  function AsList(e: Expr): seq<Expr> {
    if e.Block? then e.es else [e]
  }

  /** Normalises a statement of an expression list. */
  function Norm(e: Expr, g: nat): (r: Normal)
    ensures r.g >= g
    decreases e, 0
  {
    match e
    case Call(h, args) =>
      var n := NormName(h, g);
      var (args', g') := NormArgs(args, n.g);
      Normal(n.pre, Call(n.e, args'), g')
    case Assign(x, a) =>
      var n := if a.Call? then Norm(a, g) else NormName(a, g);
      Normal(n.pre, Assign(x, n.e), n.g)
    case Special(x, a) =>
      var n := if a.Call? then Norm(a, g) else NormName(a, g);
      Normal(n.pre, Special(x, n.e), n.g)
    case Unop(op, a) =>
      var n := NormName(a, g);
      Normal(n.pre, Unop(op, n.e), n.g)
    case Binop(op, l, r) =>
      var n := NormName(l, g);
      var m := NormName(r, n.g);
      Normal(n.pre + m.pre, Binop(op, n.e, m.e), m.g)
    case Block(es) =>
      var (es', g') := NormTerms(es, g);
      Normal([], Block(es'), g')
    case IfElse(c, t, f) =>
      var n := NormName(c, g);
      var (t', g1) := NormTerm(t, n.g);
      var (f', g2) := NormTerm(f, g1);
      Normal(n.pre, IfElse(n.e, t', f'), g2)
    case While(c, b) =>
      var (c', g1) := NormTerm(c, g);
      var (b', g2) := NormTerm(b, g1);
      Normal([], While(c', b'), g2)
    case For(l) =>
      var (l', g') := NormTerm(l, g);
      Normal([], For(l'), g')
    case Request(c, a) =>
      var n := NormName(c, g);
      var (a', g') := NormTerm(a, n.g);
      Normal(n.pre, Request(n.e, a'), g')
    case _ => Normal([], e, g)
  }

  /** Normalises an operand: what is not atomic is hoisted and leaves a name behind. */
  function NormName(e: Expr, g: nat): (r: Normal)
    ensures r.g >= g
    decreases e, 1
  {
    var s := Strip(e);
    if s.Assign? then
      var n := Norm(s, g);
      Normal(n.pre + [n.e, Assign(Name.Anf(n.g), Sym(s.x))], Sym(Name.Anf(n.g)), n.g + 1)
    else if s.Special? then
      Normal([s], Sym(User(s.id)), g)
    else if !IsAtomic(s) then
      var n := Norm(s, g + 1);
      Normal(n.pre + [Assign(Name.Anf(g), n.e)], Sym(Name.Anf(g)), n.g)
    else
      Norm(s, g)
  }

  /** Normalises an expression that is evaluated as a list of its own. */
  function NormTerm(e: Expr, g: nat): (r: (Expr, nat))
    ensures r.1 >= g
    decreases e, 2
  {
    if e.Block? then
      var (out, g') := NormList(e.es, g);
      (Strip(Block(out)), g')
    else
      var n := Norm(e, g);
      (Strip(Block(n.pre + [n.e])), n.g)
  }

  /** Normalises an expression list; hoisted assignments stand right before their statement. */
  function NormList(es: seq<Expr>, g: nat): (r: (seq<Expr>, nat))
    ensures r.1 >= g
    decreases es, 0
  {
    if es == [] then ([], g) else
    var n := Norm(es[0], g);
    var (rest, g') := NormList(es[1..], n.g);
    (n.pre + [n.e] + rest, g')
  }

  function NormTerms(es: seq<Expr>, g: nat): (r: (seq<Expr>, nat))
    ensures r.1 >= g
    decreases es, 0
  {
    if es == [] then ([], g) else
    var (e', g1) := NormTerm(es[0], g);
    var (rest, g2) := NormTerms(es[1..], g1);
    ([e'] + rest, g2)
  }

  function NormArgs(args: seq<Arg>, g: nat): (r: (seq<Arg>, nat))
    ensures r.1 >= g
    decreases args, 0
  {
    if args == [] then ([], g) else
    var (e', g1) := NormTerm(args[0].e, g);
    var (rest, g2) := NormArgs(args[1..], g1);
    ([Arg(args[0].formal, e')] + rest, g2)
  }

  // ----- The conversion, in place -----

  /** The generator of fresh names. */
  class Gensym {
    var next: nat

    constructor ()
      ensures next == 1
    {
      next := 1;
    }

    method Fresh() returns (x: Name)
      modifies this
      ensures x == Name.Anf(old(next)) && next == old(next) + 1
    {
      x := Name.Anf(next);
      next := next + 1;
    }
  }

  /** An expression list that is being rewritten.  A cursor is the number of elements up to and
      including the node that it stands on, 0 when it stands before the first node. */
  class ExprList {
    var nodes: seq<Expr>

    constructor (es: seq<Expr>)
      ensures nodes == es
    {
      nodes := es;
    }

    /** Inserts after the cursor and moves it, so that several insertions come out in order. */
    method AddAfter(e: Expr, here: nat) returns (here': nat)
      requires here <= |nodes|
      modifies this
      ensures nodes == old(nodes)[..here] + [e] + old(nodes)[here..]
      ensures here' == here + 1
    {
      nodes := nodes[..here] + [e] + nodes[here..];
      here' := here + 1;
    }
  }

  /** `el` is `was` with `pre` inserted after the cursor `eln`. */
  ghost predicate Inserted(el: seq<Expr>, was: seq<Expr>, eln: nat, pre: seq<Expr>)
    requires eln <= |was|
  {
    el == was[..eln] + pre + was[eln..]
  }

  lemma InsertedTwice(el2: seq<Expr>, el1: seq<Expr>, was: seq<Expr>, eln: nat, pre1: seq<Expr>, pre2: seq<Expr>)
    requires eln <= |was| && Inserted(el1, was, eln, pre1)
    requires Inserted(el2, el1, eln + |pre1|, pre2)
    ensures Inserted(el2, was, eln, pre1 + pre2)
  {
    assert el1[..eln + |pre1|] == was[..eln] + pre1;
    assert el1[eln + |pre1|..] == was[eln..];
  }

  method NormInPlace(e: Expr, el: ExprList, eln: nat, gs: Gensym) returns (e': Expr, eln': nat)
    requires eln <= |el.nodes|
    modifies el, gs
    ensures var n := Norm(e, old(gs.next));
      e' == n.e && gs.next == n.g && eln' == eln + |n.pre| && Inserted(el.nodes, old(el.nodes), eln, n.pre)
    decreases e, 0
  {
    ghost var g := gs.next;
    match e
    case Call(h, args) =>
      var h';
      h', eln' := NormNameInPlace(h, el, eln, gs);
      var args' := NormArgsInPlace(args, gs);
      e' := Call(h', args');
    case Assign(x, a) =>
      var a';
      if a.Call? {
        a', eln' := NormInPlace(a, el, eln, gs);
      } else {
        a', eln' := NormNameInPlace(a, el, eln, gs);
      }
      e' := Assign(x, a');
    case Special(x, a) =>
      var a';
      if a.Call? {
        a', eln' := NormInPlace(a, el, eln, gs);
      } else {
        a', eln' := NormNameInPlace(a, el, eln, gs);
      }
      e' := Special(x, a');
    case Unop(op, a) =>
      var a';
      a', eln' := NormNameInPlace(a, el, eln, gs);
      e' := Unop(op, a');
    case Binop(op, l, r) =>
      var l', r';
      l', eln' := NormNameInPlace(l, el, eln, gs);
      ghost var el1 := el.nodes;
      r', eln' := NormNameInPlace(r, el, eln', gs);
      InsertedTwice(el.nodes, el1, old(el.nodes), eln, NormName(l, g).pre, NormName(r, NormName(l, g).g).pre);
      e' := Binop(op, l', r');
    case Block(es) =>
      var es' := NormTermsInPlace(es, gs);
      assert old(el.nodes)[..eln] + [] + old(el.nodes)[eln..] == old(el.nodes);
      e', eln' := Block(es'), eln;
    case IfElse(c, t, f) =>
      var c';
      c', eln' := NormNameInPlace(c, el, eln, gs);
      var t' := NormTermInPlace(t, gs);
      var f' := NormTermInPlace(f, gs);
      e' := IfElse(c', t', f');
    case While(c, b) =>
      var c' := NormTermInPlace(c, gs);
      var b' := NormTermInPlace(b, gs);
      assert old(el.nodes)[..eln] + [] + old(el.nodes)[eln..] == old(el.nodes);
      e', eln' := While(c', b'), eln;
    case For(l) =>
      var l' := NormTermInPlace(l, gs);
      assert old(el.nodes)[..eln] + [] + old(el.nodes)[eln..] == old(el.nodes);
      e', eln' := For(l'), eln;
    case Request(c, a) =>
      var c';
      c', eln' := NormNameInPlace(c, el, eln, gs);
      var a' := NormTermInPlace(a, gs);
      e' := Request(c', a');
    case _ =>
      assert old(el.nodes)[..eln] + [] + old(el.nodes)[eln..] == old(el.nodes);
      e', eln' := e, eln;
  }

  method NormNameInPlace(e: Expr, el: ExprList, eln: nat, gs: Gensym) returns (e': Expr, eln': nat)
    requires eln <= |el.nodes|
    modifies el, gs
    ensures var n := NormName(e, old(gs.next));
      e' == n.e && gs.next == n.g && eln' == eln + |n.pre| && Inserted(el.nodes, old(el.nodes), eln, n.pre)
    decreases e, 1
  {
    ghost var g := gs.next;
    var s := Strip(e);
    if s.Assign? {
      var s';
      s', eln' := NormInPlace(s, el, eln, gs);
      ghost var el1 := el.nodes;
      eln' := el.AddAfter(s', eln');
      ghost var el2 := el.nodes;
      var x := gs.Fresh();
      eln' := el.AddAfter(Assign(x, Sym(s.x)), eln');
      InsertedTwice(el2, el1, old(el.nodes), eln, Norm(s, g).pre, [s']);
      InsertedTwice(el.nodes, el2, old(el.nodes), eln, Norm(s, g).pre + [s'], [Assign(x, Sym(s.x))]);
      assert Norm(s, g).pre + [s'] + [Assign(x, Sym(s.x))] == NormName(e, g).pre;
      e' := Sym(x);
    } else if s.Special? {
      eln' := el.AddAfter(s, eln);
      e' := Sym(User(s.id));
    } else if !IsAtomic(s) {
      var x := gs.Fresh();
      var s';
      s', eln' := NormInPlace(s, el, eln, gs);
      ghost var el1 := el.nodes;
      eln' := el.AddAfter(Assign(x, s'), eln');
      InsertedTwice(el.nodes, el1, old(el.nodes), eln, Norm(s, g + 1).pre, [Assign(x, s')]);
      e' := Sym(x);
    } else {
      e', eln' := NormInPlace(s, el, eln, gs);
    }
  }

  method NormTermInPlace(e: Expr, gs: Gensym) returns (e': Expr)
    modifies gs
    ensures (e', gs.next) == NormTerm(e, old(gs.next))
    decreases e, 2
  {
    NormTermIsList(e, gs.next);
    var el := new ExprList(AsList(e));
    NormNodes(el, gs, e);
    e' := Strip(Block(el.nodes));
  }

  /** The loop shared by normTerm and convertToANF: `prev` follows the last node that is done, so
      what a statement hoists lands right before it. */
  method NormNodes(el: ExprList, gs: Gensym, ghost top: Expr)
    requires el.nodes == AsList(top)
    modifies el, gs
    ensures (el.nodes, gs.next) == NormList(AsList(top), old(gs.next))
    decreases top, 1
  {
    ghost var es, g := el.nodes, gs.next;
    var prev, cur := 0, 0;
    ghost var done: seq<Expr>, i := [], 0;
    assert [] + NormList(es, g).0 == NormList(es, g).0;
    while cur < |el.nodes|
      invariant prev == cur <= |el.nodes| && i <= |es|
      invariant el.nodes[..cur] == done && el.nodes[cur..] == es[i..]
      invariant NormList(es, g) == Continued(done, es[i..], gs.next)
      decreases |el.nodes| - cur
    {
      ghost var was := el.nodes;
      ghost var n := Norm(es[i], gs.next);
      ListStep(done, es[i..], gs.next);
      assert was[cur] == was[cur..][0] == es[i];
      var s';
      s', prev := NormInPlace(el.nodes[cur], el, prev, gs);
      Replaced(el.nodes, was, cur, n.pre, n.e);
      el.nodes := el.nodes[prev := s'];
      cur := prev + 1;
      prev := cur;
      done, i := done + n.pre + [n.e], i + 1;
    }
    assert el.nodes[..cur] == el.nodes && done + [] == done;
  }

  lemma Replaced(now: seq<Expr>, was: seq<Expr>, cur: nat, pre: seq<Expr>, e: Expr)
    requires cur < |was| && Inserted(now, was, cur, pre)
    ensures cur + |pre| < |now|
    ensures now[cur + |pre| := e][..cur + |pre| + 1] == was[..cur] + pre + [e]
    ensures now[cur + |pre| := e][cur + |pre| + 1..] == was[cur..][1..]
  {
  }

  ghost function Continued(done: seq<Expr>, rest: seq<Expr>, g: nat): (seq<Expr>, nat) {
    (done + NormList(rest, g).0, NormList(rest, g).1)
  }

  lemma ListStep(done: seq<Expr>, rest: seq<Expr>, g: nat)
    requires rest != []
    ensures var n := Norm(rest[0], g);
      Continued(done, rest, g) == Continued(done + n.pre + [n.e], rest[1..], n.g)
  {
    var n := Norm(rest[0], g);
    var tail := NormList(rest[1..], n.g).0;
    assert done + (n.pre + [n.e] + tail) == done + n.pre + [n.e] + tail;
  }

  lemma NormTermIsList(e: Expr, g: nat)
    ensures NormTerm(e, g) == (Strip(Block(NormList(AsList(e), g).0)), NormList(AsList(e), g).1)
  {
    if !e.Block? {
      var n := Norm(e, g);
      assert [e][1..] == [];
      assert NormList([e], g).0 == n.pre + [n.e] + [];
      assert n.pre + [n.e] + [] == n.pre + [n.e];
    }
  }

  method NormTermsInPlace(es: seq<Expr>, gs: Gensym) returns (es': seq<Expr>)
    modifies gs
    ensures (es', gs.next) == NormTerms(es, old(gs.next))
    decreases es, 0
  {
    if es == [] { return []; }
    var e' := NormTermInPlace(es[0], gs);
    var rest := NormTermsInPlace(es[1..], gs);
    es' := [e'] + rest;
  }

  method NormArgsInPlace(args: seq<Arg>, gs: Gensym) returns (args': seq<Arg>)
    modifies gs
    ensures (args', gs.next) == NormArgs(args, old(gs.next))
    decreases args, 0
  {
    if args == [] { return []; }
    var e' := NormTermInPlace(args[0].e, gs);
    var rest := NormArgsInPlace(args[1..], gs);
    args' := [Arg(args[0].formal, e')] + rest;
  }

  /** Converts a program: the hoisted assignments go into the program's own list. */
  method ConvertToAnf(el: ExprList, gs: Gensym)
    modifies el, gs
    ensures (el.nodes, gs.next) == NormList(old(el.nodes), old(gs.next))
  {
    NormNodes(el, gs, Block(el.nodes));
  }
}
