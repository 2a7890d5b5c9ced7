/** The encoding of expressions sent in a request: separately computed length, writing, reading back. */
module Code {
  import opened Wrappers
  import opened Wire

  datatype LeafKind = Empty | Null | Next | Break
  datatype NumberKind = Double | Dtime
  datatype TextKind = String | BoundVar
  datatype TwoKind = While | LeftAssign | SpecialAssign | Request

  /**
   * Expression trees.  Numbers are the 64 bits that travel.  A tagged expression holds its symbol,
   * a function its formals and a call its arguments.  `Local` stands for the kinds that cannot be sent.
   */
  datatype Node =
    | Leaf(leaf: LeafKind)
    | Bool(b: bool)
    | Number(nk: NumberKind, n: nat)
    | Interval(s: nat, t: nat, sopen: nat, topen: nat)
    | Symbol(name: seq<Byte>, ref: bool)
    | Text(tk: TextKind, text: seq<Byte>)
    | Unop(op: nat, e: Node)
    | Binop(op: nat, e1: Node, e2: Node)
    | ExprList(es: seq<Node>)
    | Two(two: TwoKind, e1: Node, e2: Node)
    | IfElse(e1: Node, e2: Node, e3: Node)
    | For(loop: Node)
    | Tagged(name: seq<Byte>, ref: bool, e: Node)
    | Arg(ref: bool, e: Node)
    | Function(formals: seq<Node>, body: Node)
    | Funcall(e: Node, args: seq<Node>)
    | Local

  /** The number that announces a kind. */
  function Tag(e: Node): (t: nat)
    ensures t < 28
  {
    match e
    case Leaf(Empty) => 0
    case Leaf(Null) => 1
    case Leaf(Next) => 2
    case Leaf(Break) => 3
    case Local => 4
    case Bool(_) => 5
    case Number(Double, _) => 6
    case Number(Dtime, _) => 7
    case Interval(_, _, _, _) => 8
    case Symbol(_, _) => 9
    case Text(String, _) => 10
    case Text(BoundVar, _) => 11
    case Unop(_, _) => 14
    case Binop(_, _, _) => 15
    case ExprList(_) => 16
    case Two(While, _, _) => 17
    case IfElse(_, _, _) => 18
    case For(_) => 19
    case Two(LeftAssign, _, _) => 20
    case Two(SpecialAssign, _, _) => 21
    case Two(Request, _, _) => 22
    case Tagged(_, _, _) => 23
    case Function(_, _) => 24
    case Funcall(_, _) => 25
    case Arg(_, _) => 27
  }

  /** No part of the tree is of a kind that the writer refuses. */
  predicate Sendable(e: Node) {
    match e
    case Local => false
    case Unop(_, a) => Sendable(a)
    case Binop(_, a, b) => Sendable(a) && Sendable(b)
    case ExprList(es) => forall k :: 0 <= k < |es| ==> Sendable(es[k])
    case Two(_, a, b) => Sendable(a) && Sendable(b)
    case IfElse(a, b, c) => Sendable(a) && Sendable(b) && Sendable(c)
    case For(a) => Sendable(a)
    case Tagged(_, _, a) => Sendable(a)
    case Arg(_, a) => Sendable(a)
    case Function(fs, b) => (forall k :: 0 <= k < |fs| ==> Sendable(fs[k])) && Sendable(b)
    case Funcall(a, es) => Sendable(a) && forall k :: 0 <= k < |es| ==> Sendable(es[k])
    case _ => true
  }

  /** The empty expression is written and cannot be read. */
  predicate Readable(e: Node) {
    match e
    case Leaf(k) => k != Empty
    case Unop(_, a) => Readable(a)
    case Binop(_, a, b) => Readable(a) && Readable(b)
    case ExprList(es) => forall k :: 0 <= k < |es| ==> Readable(es[k])
    case Two(_, a, b) => Readable(a) && Readable(b)
    case IfElse(a, b, c) => Readable(a) && Readable(b) && Readable(c)
    case For(a) => Readable(a)
    case Tagged(_, _, a) => Readable(a)
    case Arg(_, a) => Readable(a)
    case Function(fs, b) => (forall k :: 0 <= k < |fs| ==> Readable(fs[k])) && Readable(b)
    case Funcall(a, es) => Readable(a) && forall k :: 0 <= k < |es| ==> Readable(es[k])
    case _ => true
  }

  predicate Short(s: seq<Byte>) {
    Aligned(|s|) < TWO32
  }

  /** Every number and length fits the source's types. */
  predicate InWidth(e: Node) {
    match e
    case Number(_, n) => n < TWO64
    case Interval(s, t, so, to) => s < TWO64 && t < TWO64 && so < TWO32 && to < TWO32
    case Symbol(s, _) => Short(s)
    case Text(_, s) => Short(s)
    case Unop(op, a) => op < TWO32 && InWidth(a)
    case Binop(op, a, b) => op < TWO32 && InWidth(a) && InWidth(b)
    case ExprList(es) => |es| < TWO32 && forall k :: 0 <= k < |es| ==> InWidth(es[k])
    case Two(_, a, b) => InWidth(a) && InWidth(b)
    case IfElse(a, b, c) => InWidth(a) && InWidth(b) && InWidth(c)
    case For(a) => InWidth(a)
    case Tagged(s, _, a) => Short(s) && InWidth(a)
    case Arg(_, a) => InWidth(a)
    case Function(fs, b) => |fs| < TWO32 && (forall k :: 0 <= k < |fs| ==> InWidth(fs[k])) && InWidth(b)
    case Funcall(a, es) => InWidth(a) && |es| < TWO32 && forall k :: 0 <= k < |es| ==> InWidth(es[k])
    case _ => true
  }

  function Flag(b: bool): nat {
    if b then 1 else 0
  }

  /** The bytes of an expression. */
  function Write(e: Node): seq<Byte>
    requires Sendable(e)
    decreases e, 1
  {
    Word(Tag(e)) + Body(e)
  }

  function Body(e: Node): seq<Byte>
    requires Sendable(e)
    decreases e, 0
  {
    match e
    case Leaf(_) => []
    case Bool(b) => Word(Flag(b))
    case Number(_, n) => Word(n)
    case Interval(s, t, so, to) => Word(s) + (Word(t) + (Half(so) + Half(to)))
    case Symbol(s, ref) => Wire.Text(s) + Word(Flag(ref))
    case Text(_, s) => Wire.Text(s)
    case Unop(op, a) => Word(op) + Write(a)
    case Binop(op, a, b) => Word(op) + (Write(a) + Write(b))
    case ExprList(es) => Word(|es|) + WriteAll(es)
    case Two(_, a, b) => Write(a) + Write(b)
    case IfElse(a, b, c) => Write(a) + Write(b) + Write(c)
    case For(a) => Write(a)
    case Tagged(s, ref, a) => WriteSymbol(s, ref) + Write(a)
    case Arg(ref, a) => Word(Flag(ref)) + Write(a)
    case Function(fs, b) => WriteList(fs) + Write(b)
    case Funcall(a, es) => Write(a) + WriteList(es)
  }

  function WriteAll(es: seq<Node>): seq<Byte>
    requires forall k :: 0 <= k < |es| ==> Sendable(es[k])
    decreases es, 0
  {
    if es == [] then [] else Write(es[0]) + WriteAll(es[1..])
  }

  function WriteSymbol(s: seq<Byte>, ref: bool): seq<Byte> {
    Word(9) + (Wire.Text(s) + Word(Flag(ref)))
  }

  function WriteList(es: seq<Node>): seq<Byte>
    requires forall k :: 0 <= k < |es| ==> Sendable(es[k])
    decreases es, 1
  {
    Word(16) + (Word(|es|) + WriteAll(es))
  }

  datatype Parsed<T> = Ok(v: T, rest: seq<Byte>) | Err

  function ParseWord(bs: seq<Byte>): (r: Parsed<nat>)
    ensures r.Ok? ==> |r.rest| + 8 == |bs|
  {
    match TakeLE(bs, 8)
    case None => Err
    case Some((n, rest)) => Ok(n, rest)
  }

  function ParseHalf(bs: seq<Byte>): (r: Parsed<nat>)
    ensures r.Ok? ==> |r.rest| + 4 == |bs|
  {
    match TakeLE(bs, 4)
    case None => Err
    case Some((n, rest)) => Ok(n, rest)
  }

  function ParseText(bs: seq<Byte>): (r: Parsed<seq<Byte>>)
    ensures r.Ok? ==> |r.rest| < |bs|
  {
    match TakeText(bs)
    case None => Err
    case Some((t, rest)) => Ok(t, rest)
  }

  function ParseSymbol(bs: seq<Byte>): (r: Parsed<Node>)
    ensures r.Ok? ==> |r.rest| < |bs| && r.v.Symbol?
  {
    var t := ParseText(bs);
    if t.Err? then Err else
      var f := ParseWord(t.rest);
      if f.Err? then Err else Ok(Symbol(t.v, f.v != 0), f.rest)
  }

  function ParseInterval(bs: seq<Byte>): (r: Parsed<Node>)
    ensures r.Ok? ==> |r.rest| < |bs|
  {
    var s := ParseWord(bs);
    if s.Err? then Err else
      var t := ParseWord(s.rest);
      if t.Err? then Err else
        var so := ParseHalf(t.rest);
        if so.Err? then Err else
          var to := ParseHalf(so.rest);
          if to.Err? then Err else Ok(Interval(s.v, t.v, so.v, to.v), to.rest)
  }

  /** One expression from the front, its parts from left to right. */
  function Parse(bs: seq<Byte>): (r: Parsed<Node>)
    ensures r.Ok? ==> |r.rest| < |bs|
    decreases |bs|, 0
  {
    var w := ParseWord(bs);
    if w.Err? then Err else ParseBody(w.v, w.rest)
  }

  /** What follows the number of a kind. */
  function ParseBody(t: nat, rest: seq<Byte>): (r: Parsed<Node>)
    ensures r.Ok? ==> |r.rest| <= |rest|
    decreases |rest|, 3
  {
    if t == 1 then Ok(Leaf(Null), rest)
    else if t == 2 then Ok(Leaf(Next), rest)
    else if t == 3 then Ok(Leaf(Break), rest)
    else if t == 8 then ParseInterval(rest)
    else if t == 9 then ParseSymbol(rest)
    else if t == 10 || t == 11 then
      var x := ParseText(rest);
      if x.Err? then Err else Ok(Node.Text(if t == 10 then String else BoundVar, x.v), x.rest)
    else if t == 17 || t == 20 || t == 21 || t == 22 then
      var p := ParseTwo(rest);
      if p.Err? then Err else
        Ok(Two(if t == 17 then While else if t == 20 then LeftAssign else if t == 21 then SpecialAssign else Request,
               p.v.0, p.v.1), p.rest)
    else if t == 18 then
      var p := ParseTwo(rest);
      if p.Err? then Err else
        var c := Parse(p.rest);
        if c.Err? then Err else Ok(IfElse(p.v.0, p.v.1, c.v), c.rest)
    else if t == 19 then
      var a := Parse(rest);
      if a.Err? then Err else Ok(For(a.v), a.rest)
    else if t == 23 then
      var p := ParseTwo(rest);
      if p.Err? || !p.v.0.Symbol? then Err else Ok(Tagged(p.v.0.name, p.v.0.ref, p.v.1), p.rest)
    else if t == 24 then
      var p := ParseTwo(rest);
      if p.Err? || !p.v.0.ExprList? then Err else Ok(Function(p.v.0.es, p.v.1), p.rest)
    else if t == 25 then
      var p := ParseTwo(rest);
      if p.Err? || !p.v.1.ExprList? then Err else Ok(Funcall(p.v.0, p.v.1.es), p.rest)
    else ParseWithWord(t, rest)
  }

  /** The kinds that continue with a word: a flag, a number, an operator or a count. */
  function ParseWithWord(t: nat, bs: seq<Byte>): (r: Parsed<Node>)
    ensures r.Ok? ==> |r.rest| < |bs|
    decreases |bs|, 0
  {
    var w := ParseWord(bs);
    if w.Err? then Err
    else if t == 5 then Ok(Bool(w.v != 0), w.rest)
    else if t == 6 then Ok(Number(Double, w.v), w.rest)
    else if t == 7 then Ok(Number(Dtime, w.v), w.rest)
    else if t == 14 then
      var a := Parse(w.rest);
      if a.Err? then Err else Ok(Unop(w.v % TWO32, a.v), a.rest)
    else if t == 15 then
      var p := ParseTwo(w.rest);
      if p.Err? then Err else Ok(Binop(w.v % TWO32, p.v.0, p.v.1), p.rest)
    else if t == 16 then
      var l := ParseAll(w.rest, w.v % TWO32);
      if l.Err? then Err else Ok(ExprList(l.v), l.rest)
    else if t == 27 then
      var a := Parse(w.rest);
      if a.Err? then Err else Ok(Arg(w.v != 0, a.v), a.rest)
    else Err
  }

  function ParseTwo(bs: seq<Byte>): (r: Parsed<(Node, Node)>)
    ensures r.Ok? ==> |r.rest| < |bs|
    decreases |bs|, 1
  {
    var a := Parse(bs);
    if a.Err? then Err else
      var b := Parse(a.rest);
      if b.Err? then Err else Ok((a.v, b.v), b.rest)
  }

  function ParseAll(bs: seq<Byte>, n: nat): (r: Parsed<seq<Node>>)
    ensures r.Ok? ==> |r.rest| <= |bs| && |r.v| == n
    decreases |bs|, 1
  {
    if n == 0 then Ok([], bs) else
      var a := Parse(bs);
      if a.Err? then Err else
        var l := ParseAll(a.rest, n - 1);
        if l.Err? then Err else Ok([a.v] + l.v, l.rest)
  }

  lemma Assoc(x: seq<Byte>, y: seq<Byte>, z: seq<Byte>)
    ensures (x + y) + z == x + (y + z)
  {}

  lemma WordBack(n: nat, rest: seq<Byte>)
    requires n < TWO64
    ensures ParseWord(Word(n) + rest) == Ok(n, rest)
  {
    TakeWord(n, rest);
  }

  lemma SymbolBack(s: seq<Byte>, ref: bool, rest: seq<Byte>)
    requires Short(s)
    ensures ParseSymbol(Wire.Text(s) + Word(Flag(ref)) + rest) == Ok(Symbol(s, ref), rest)
  {
    var f := Word(Flag(ref));
    Assoc(Wire.Text(s), f, rest);
    TakeTextBack(s, f + rest);
    WordBack(Flag(ref), rest);
  }

  lemma WriteSymbolBack(s: seq<Byte>, ref: bool, rest: seq<Byte>)
    requires Short(s)
    ensures Parse(WriteSymbol(s, ref) + rest) == Ok(Symbol(s, ref), rest)
  {
    var body := Wire.Text(s) + Word(Flag(ref));
    Assoc(Word(9), body, rest);
    WordBack(9, body + rest);
    SymbolBack(s, ref, rest);
    hide ParseSymbol, TakeText, Wire.Text, Word;
  }

  lemma IntervalBack(s: nat, t: nat, so: nat, to: nat, rest: seq<Byte>)
    requires s < TWO64 && t < TWO64 && so < TWO32 && to < TWO32
    ensures ParseInterval(Word(s) + (Word(t) + (Half(so) + Half(to))) + rest) == Ok(Interval(s, t, so, to), rest)
  {
    Assoc(Word(s), Word(t) + (Half(so) + Half(to)), rest);
    Assoc(Word(t), Half(so) + Half(to), rest);
    Assoc(Half(so), Half(to), rest);
    WordBack(s, Word(t) + (Half(so) + (Half(to) + rest)));
    WordBack(t, Half(so) + (Half(to) + rest));
    TakeHalf(so, Half(to) + rest);
    TakeHalf(to, rest);
  }

  function Expected(e: Node, rest: seq<Byte>): Parsed<Node> {
    if Readable(e) then Ok(e, rest) else Err
  }

  /** Reading what was written gives the expression and leaves what follows, unless it holds an empty expression. */
  lemma {:induction false} RoundTrip(e: Node, rest: seq<Byte>)
    requires Sendable(e) && InWidth(e)
    ensures Parse(Write(e) + rest) == Expected(e, rest)
    decreases e, 2
  {
    hide Word, Body, ParseBody, ParseWord;
    Assoc(Word(Tag(e)), Body(e), rest);
    WordBack(Tag(e), Body(e) + rest);
    BodyBack(e, rest);
  }

  lemma {:induction false} BodyBack(e: Node, rest: seq<Byte>)
    requires Sendable(e) && InWidth(e)
    ensures ParseBody(Tag(e), Body(e) + rest) == Expected(e, rest)
    decreases e, 1
  {
    hide Word, Half, Wire.Text, TakeText, ParseWord, Write, WriteAll, WriteSymbol, WriteList, ParseTwo;
    match e
    case Leaf(_) => assert Body(e) + rest == rest;
    case Interval(s, t, so, to) => IntervalBack(s, t, so, to, rest);
    case Symbol(s, ref) => SymbolBack(s, ref, rest);
    case Text(_, s) => TakeTextBack(s, rest);
    case Two(_, _, _) => PairBack(e, rest);
    case IfElse(_, _, _) => PairBack(e, rest);
    case For(a) => RoundTrip(a, rest);
    case Tagged(_, _, _) => PairBack(e, rest);
    case Function(_, _) => PairBack(e, rest);
    case Funcall(_, _) => PairBack(e, rest);
    case Bool(b) => WordBack(Flag(b), rest);
    case Number(_, n) => WordBack(n, rest);
    case Unop(_, _) => WordKindBack(e, rest);
    case Binop(_, _, _) => WordKindBack(e, rest);
    case ExprList(es) => CountedBack(es, rest);
    case Arg(_, _) => WordKindBack(e, rest);
  }

  /** The kinds made of two expressions, the last of which may be followed by a third. */
  lemma {:induction false} PairBack(e: Node, rest: seq<Byte>)
    requires Sendable(e) && InWidth(e)
    requires e.Two? || e.IfElse? || e.Tagged? || e.Function? || e.Funcall?
    ensures ParseBody(Tag(e), Body(e) + rest) == Expected(e, rest)
    decreases e, 0, 1
  {
    hide Word, Half, Wire.Text, TakeText, ParseWord, Write, WriteAll, WriteSymbol, WriteList, ParseTwo, ParseWithWord, Parse;
    match e
    case Two(_, a, b) =>
      RoundTrip(a, Write(b) + rest);
      RoundTrip(b, rest);
      TwoBack(a, b, Write(a), Write(b), rest);
    case IfElse(a, b, c) =>
      Assoc(Write(a) + Write(b), Write(c), rest);
      RoundTrip(a, Write(b) + (Write(c) + rest));
      RoundTrip(b, Write(c) + rest);
      RoundTrip(c, rest);
      TwoBack(a, b, Write(a), Write(b), Write(c) + rest);
    case _ => CheckedBack(e, rest);
  }

  /** The kinds whose first or second part must be a symbol or a list. */
  lemma {:induction false} CheckedBack(e: Node, rest: seq<Byte>)
    requires Sendable(e) && InWidth(e)
    requires e.Tagged? || e.Function? || e.Funcall?
    ensures ParseBody(Tag(e), Body(e) + rest) == Expected(e, rest)
    decreases e, 0, 0
  {
    hide Word, Wire.Text, ParseWord, Write, WriteAll, WriteSymbol, WriteList, ParseTwo, ParseWithWord, Parse, Short;
    match e
    case Tagged(s, ref, a) =>
      WriteSymbolBack(s, ref, Write(a) + rest);
      RoundTrip(a, rest);
      TwoBack(Symbol(s, ref), a, WriteSymbol(s, ref), Write(a), rest);
    case Function(fs, b) =>
      ListBack(fs, Write(b) + rest);
      RoundTrip(b, rest);
      TwoBack(ExprList(fs), b, WriteList(fs), Write(b), rest);
    case Funcall(a, es) =>
      RoundTrip(a, WriteList(es) + rest);
      ListBack(es, rest);
      TwoBack(a, ExprList(es), Write(a), WriteList(es), rest);
  }

  /** The kinds that continue with a word and hold expressions. */
  lemma {:induction false} WordKindBack(e: Node, rest: seq<Byte>)
    requires Sendable(e) && InWidth(e)
    requires e.Unop? || e.Binop? || e.Arg?
    ensures ParseWithWord(Tag(e), Body(e) + rest) == Expected(e, rest)
    decreases e, 0
  {
    hide Word, Half, Wire.Text, TakeText, ParseWord, Write, WriteAll, WriteSymbol, WriteList, ParseTwo, Parse;
    match e
    case Unop(op, a) =>
      Assoc(Word(op), Write(a), rest);
      WordBack(op, Write(a) + rest);
      RoundTrip(a, rest);
    case Binop(op, a, b) =>
      Assoc(Word(op), Write(a) + Write(b), rest);
      WordBack(op, Write(a) + Write(b) + rest);
      RoundTrip(a, Write(b) + rest);
      RoundTrip(b, rest);
      TwoBack(a, b, Write(a), Write(b), rest);
    case Arg(ref, a) =>
      Assoc(Word(Flag(ref)), Write(a), rest);
      WordBack(Flag(ref), Write(a) + rest);
      RoundTrip(a, rest);
  }

  lemma TwoBack(a: Node, b: Node, wa: seq<Byte>, wb: seq<Byte>, rest: seq<Byte>)
    requires Parse(wa + (wb + rest)) == Expected(a, wb + rest) && Parse(wb + rest) == Expected(b, rest)
    ensures ParseTwo(wa + wb + rest) == if Readable(a) && Readable(b) then Ok((a, b), rest) else Err
  {
    hide Parse, Readable;
    Assoc(wa, wb, rest);
  }

  lemma {:induction false} ListBack(es: seq<Node>, rest: seq<Byte>)
    requires |es| < TWO32 && forall k :: 0 <= k < |es| ==> Sendable(es[k]) && InWidth(es[k])
    ensures Parse(WriteList(es) + rest) == Expected(ExprList(es), rest)
    decreases es, 2
  {
    hide Word, ParseWord, WriteAll, ParseWithWord, Sendable, InWidth, Expected;
    var all := Word(|es|) + WriteAll(es);
    Assoc(Word(16), all, rest);
    WordBack(16, all + rest);
    CountedBack(es, rest);
  }

  lemma {:induction false} CountedBack(es: seq<Node>, rest: seq<Byte>)
    requires |es| < TWO32 && forall k :: 0 <= k < |es| ==> Sendable(es[k]) && InWidth(es[k])
    ensures ParseWithWord(16, Word(|es|) + WriteAll(es) + rest) == Expected(ExprList(es), rest)
    decreases es, 1
  {
    hide Word, ParseWord, WriteAll, ParseAll, Sendable, InWidth;
    Assoc(Word(|es|), WriteAll(es), rest);
    WordBack(|es|, WriteAll(es) + rest);
    AllBack(es, rest);
  }

  lemma ParseAllStep(bs: seq<Byte>, n: nat)
    requires 0 < n
    ensures ParseAll(bs, n) ==
            var a := Parse(bs);
            if a.Err? then Err else
              var l := ParseAll(a.rest, n - 1);
              if l.Err? then Err else Ok([a.v] + l.v, l.rest)
  {}

  lemma FirstAndRest(es: seq<Node>)
    requires es != []
    ensures (forall k :: 0 <= k < |es| ==> Readable(es[k])) <==>
            Readable(es[0]) && forall k :: 0 <= k < |es[1..]| ==> Readable(es[1..][k])
  {
    hide Readable;
    assert es == [es[0]] + es[1..];
  }

  lemma {:induction false} AllBack(es: seq<Node>, rest: seq<Byte>)
    requires forall k :: 0 <= k < |es| ==> Sendable(es[k]) && InWidth(es[k])
    ensures ParseAll(WriteAll(es) + rest, |es|)
            == if forall k :: 0 <= k < |es| ==> Readable(es[k]) then Ok(es, rest) else Err
    decreases es, 0
  {
    if es == [] {
      assert WriteAll(es) + rest == rest;
    } else {
      assert WriteAll(es) == Write(es[0]) + WriteAll(es[1..]);
      ParseAllStep(Write(es[0]) + (WriteAll(es[1..]) + rest), |es|);
      hide Parse, ParseAll, Readable, Write, Sendable, InWidth, WriteAll;
      Assoc(Write(es[0]), WriteAll(es[1..]), rest);
      RoundTrip(es[0], WriteAll(es[1..]) + rest);
      AllBack(es[1..], rest);
      FirstAndRest(es);
      assert [es[0]] + es[1..] == es;
    }
  }

  /** The length announced before the bytes; a list adds up its parts in 32 bits. */
  function CodeLength(e: Node): nat
    requires Sendable(e)
    decreases e, 0
  {
    match e
    case Leaf(_) => 8
    case Bool(_) => 16
    case Number(_, _) => 16
    case Interval(_, _, _, _) => 32
    case Symbol(s, _) => 24 + Aligned(|s|)
    case Text(_, s) => 16 + Aligned(|s|)
    case Unop(_, a) => 16 + CodeLength(a)
    case Binop(_, a, b) => 16 + CodeLength(a) + CodeLength(b)
    case ExprList(es) => ListLength(16, es)
    case Two(_, a, b) => 8 + CodeLength(a) + CodeLength(b)
    case IfElse(a, b, c) => 8 + CodeLength(a) + CodeLength(b) + CodeLength(c)
    case For(a) => 8 + CodeLength(a)
    case Tagged(s, _, a) => 8 + (24 + Aligned(|s|)) + CodeLength(a)
    case Arg(_, a) => 16 + CodeLength(a)
    case Function(fs, b) => 8 + ListLength(16, fs) + CodeLength(b)
    case Funcall(a, es) => 8 + CodeLength(a) + ListLength(16, es)
  }

  function ListLength(len: nat, es: seq<Node>): nat
    requires forall k :: 0 <= k < |es| ==> Sendable(es[k])
    decreases es
  {
    if es == [] then len else ListLength((len + CodeLength(es[0])) % TWO32, es[1..])
  }

  predicate NarrowList(es: seq<Node>)
    requires forall k :: 0 <= k < |es| ==> Sendable(es[k])
    decreases es, 1
  {
    |WriteList(es)| < TWO32 && forall k :: 0 <= k < |es| ==> Narrow(es[k])
  }

  /** No list inside takes 2^32 bytes or more. */
  predicate Narrow(e: Node)
    requires Sendable(e)
    decreases e, 0
  {
    match e
    case Unop(_, a) => Narrow(a)
    case Binop(_, a, b) => Narrow(a) && Narrow(b)
    case ExprList(es) => NarrowList(es)
    case Two(_, a, b) => Narrow(a) && Narrow(b)
    case IfElse(a, b, c) => Narrow(a) && Narrow(b) && Narrow(c)
    case For(a) => Narrow(a)
    case Tagged(_, _, a) => Narrow(a)
    case Arg(_, a) => Narrow(a)
    case Function(fs, b) => NarrowList(fs) && Narrow(b)
    case Funcall(a, es) => Narrow(a) && NarrowList(es)
    case _ => true
  }

  /** The announced length is the number of bytes exactly when no list is too long for the 32-bit sum. */
  lemma {:induction false} LengthExact(e: Node)
    requires Sendable(e)
    ensures CodeLength(e) <= |Write(e)|
    ensures CodeLength(e) == |Write(e)| <==> Narrow(e)
    decreases e, 0
  {
    hide Word, Half, Wire.Text, LE, WriteAll, ListLength;
    match e
    case Leaf(_) =>
    case Bool(_) =>
    case Number(_, _) =>
    case Interval(_, _, _, _) =>
    case Symbol(_, _) =>
    case Text(_, _) =>
    case Unop(_, a) => LengthExact(a);
    case Binop(_, a, b) => LengthExact(a); LengthExact(b);
    case ExprList(es) => ListExact(es);
    case Two(_, a, b) => LengthExact(a); LengthExact(b);
    case IfElse(a, b, c) => LengthExact(a); LengthExact(b); LengthExact(c);
    case For(a) => LengthExact(a);
    case Tagged(_, _, a) => LengthExact(a);
    case Arg(_, a) => LengthExact(a);
    case Function(fs, b) => ListExact(fs); LengthExact(b);
    case Funcall(a, es) => LengthExact(a); ListExact(es);
  }

  lemma {:induction false} ListExact(es: seq<Node>)
    requires forall k :: 0 <= k < |es| ==> Sendable(es[k])
    ensures ListLength(16, es) <= |WriteList(es)| && (ListLength(16, es) == |WriteList(es)| <==> NarrowList(es))
    decreases es, 1
  {
    hide Word;
    SumExact(16, es);
  }

  lemma SumStep(len: nat, c: nat, w: nat, rest: nat, l: nat, first: bool, others: bool)
    requires len < TWO32 && c <= w && (c == w <==> first)
    requires l <= (len + c) % TWO32 + rest
    requires l == (len + c) % TWO32 + rest <==> (len + c) % TWO32 + rest < TWO32 && others
    ensures l <= len + w + rest
    ensures l == len + w + rest <==> len + w + rest < TWO32 && first && others
  {
  }

  lemma {:induction false} SumExact(len: nat, es: seq<Node>)
    requires len < TWO32 && forall k :: 0 <= k < |es| ==> Sendable(es[k])
    ensures ListLength(len, es) <= len + |WriteAll(es)|
    ensures ListLength(len, es) == len + |WriteAll(es)| <==>
              len + |WriteAll(es)| < TWO32 && forall k :: 0 <= k < |es| ==> Narrow(es[k])
    decreases es, 0
  {
    if es != [] {
      LengthExact(es[0]);
      hide Write, CodeLength, Narrow, Sendable;
      var c := CodeLength(es[0]);
      var a := (len + c) % TWO32;
      SumExact(a, es[1..]);
      assert forall k :: 1 <= k < |es| ==> es[k] == es[1..][k - 1];
      SumStep(len, c, |Write(es[0])|, |WriteAll(es[1..])|, ListLength(a, es[1..]),
              Narrow(es[0]), forall k :: 1 <= k < |es| ==> Narrow(es[k]));
    }
  }
}
