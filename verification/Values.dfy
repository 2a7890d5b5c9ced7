/** Values as they are sent, and the stack machine that rebuilds them from buffers arriving one by one. */
module Values {
  import opened Wrappers
  import opened Wire

  /** Arrays are those with eight-byte elements: doubles, times, durations.  `Named` is a name/value pair. */
  datatype Value =
    | StdString(s: seq<Byte>)
    | StdInt(xs: seq<nat>)
    | Array(kind: nat, dim: seq<nat>, names: seq<seq<seq<Byte>>>, ordered: seq<nat>, data: seq<nat>)
    | List(elts: seq<Elt>)
    | Null
    | Named(name: Value, val: Value)
    | Error(what: seq<Byte>)

  datatype Elt = Elt(name: seq<Byte>, val: Value)

  const T_STRING: nat := 0
  const T_INT: nat := 1
  const T_LIST: nat := 10
  const T_NULL: nat := 11
  const T_NAMED: nat := 18
  const T_ERROR: nat := 19

  /** Doubles, times and durations. */
  predicate IsArray(t: nat) {
    t == 2 || t == 4 || t == 5
  }

  /** The list that describes an array before its elements come. */
  function Shape(dim: seq<nat>, names: seq<seq<seq<Byte>>>, ordered: seq<nat>): Value {
    List([Elt([], StdInt(dim)), Elt([], NamesList(names)), Elt([], StdInt(ordered))])
  }

  function NamesList(names: seq<seq<seq<Byte>>>): (v: Value)
    ensures v.List? && |v.elts| == |names|
  {
    List(seq(|names|, j requires 0 <= j < |names| => Elt([], StringList(names[j]))))
  }

  function StringList(ss: seq<seq<Byte>>): (v: Value)
    ensures v.List? && |v.elts| == |ss|
  {
    List(seq(|ss|, k requires 0 <= k < |ss| => Elt([], StdString(ss[k]))))
  }

  /** Whether arrays occur in the value. */
  function Level(v: Value): nat {
    match v
    case Array(_, _, _, _, _) => 1
    case List(es) => EltsLevel(es)
    case Named(n, x) => if Level(n) < Level(x) then Level(x) else Level(n)
    case _ => 0
  }

  function EltsLevel(es: seq<Elt>): nat {
    if es == [] then 0 else
      var a, b := Level(es[0].val), EltsLevel(es[1..]);
      if a < b then b else a
  }

  lemma {:induction false} FlatElts(es: seq<Elt>)
    requires forall k :: 0 <= k < |es| ==> Level(es[k].val) == 0
    ensures EltsLevel(es) == 0
  {
    if es != [] { FlatElts(es[1..]); }
  }

  lemma ShapeLevel(dim: seq<nat>, names: seq<seq<seq<Byte>>>, ordered: seq<nat>)
    ensures Level(Shape(dim, names, ordered)) == 0
  {
    var l := NamesList(names);
    forall j | 0 <= j < |names| ensures Level(l.elts[j].val) == 0 {
      FlatElts(StringList(names[j]).elts);
    }
    FlatElts(l.elts);
    FlatElts(Shape(dim, names, ordered).elts);
  }

  /** What is never cut by the end of a buffer: an atom with its header, the header of a compound, an array element. */
  datatype Piece =
    | Atom(v: Value)
    | Open(kind: nat, n: nat)
    | Elem(w: nat)

  /** The pieces of a value, in the order in which they are sent. */
  function Pieces(v: Value): seq<Piece>
    decreases Level(v), v, 0
  {
    match v
    case List(es) => [Open(T_LIST, |es|)] + EltPieces(es)
    case Named(n, x) => [Open(T_NAMED, 2)] + (Pieces(n) + Pieces(x))
    case Array(k, dim, names, ordered, data) =>
      ShapeLevel(dim, names, ordered);
      [Open(k, |data|)] + (Pieces(Shape(dim, names, ordered)) + Elems(data))
    case _ => [Atom(v)]
  }

  /** Each element of a list travels as a name/value pair. */
  function EltPieces(es: seq<Elt>): seq<Piece>
    decreases EltsLevel(es), es, 0
  {
    if es == [] then [] else
      [Open(T_NAMED, 2), Atom(StdString(es[0].name))] + Pieces(es[0].val) + EltPieces(es[1..])
  }

  function Elems(data: seq<nat>): (ps: seq<Piece>)
    ensures |ps| == |data|
  {
    seq(|data|, k requires 0 <= k < |data| => Elem(data[k]))
  }

  function Header(t: nat, n: nat): (bs: seq<Byte>)
    ensures |bs| == 16
  {
    Word(t) + Word(n)
  }

  function Words(xs: seq<nat>): (bs: seq<Byte>)
    ensures |bs| == 8 * |xs|
  {
    if xs == [] then [] else Word(xs[0]) + Words(xs[1..])
  }

  function Padded(s: seq<Byte>): (bs: seq<Byte>)
    ensures |bs| == Aligned(|s|)
  {
    s + seq(Aligned(|s|) - |s|, _ => 0)
  }

  function Bytes(p: Piece): seq<Byte> {
    match p
    case Atom(StdString(s)) => Header(T_STRING, |s|) + Padded(s)
    case Atom(StdInt(xs)) => Header(T_INT, |xs|) + Words(xs)
    case Atom(Error(s)) => Header(T_ERROR, |s|) + Padded(s)
    case Atom(_) => Header(T_NULL, 0)
    case Open(t, n) => Header(t, n)
    case Elem(w) => Word(w)
  }

  function AllBytes(ps: seq<Piece>): seq<Byte> {
    if ps == [] then [] else Bytes(ps[0]) + AllBytes(ps[1..])
  }

  function Encoding(v: Value): seq<Byte> {
    AllBytes(Pieces(v))
  }

  /** One value under construction: how many parts it expects, how many it has, and how far an array or string is. */
  datatype Frame = Frame(val: Value, exp: nat, n: nat, stage: nat)

  /** The decoder between two steps; frames at and above `idx` are finished parts of the one below. */
  datatype Cfg = Cfg(ss: seq<Frame>, idx: nat) | Bad

  function MakeValue(t: nat): Option<Value> {
    if t == T_STRING then Some(StdString([]))
    else if t == T_INT then Some(StdInt([]))
    else if t == T_NULL then Some(Null)
    else if t == T_LIST then Some(List([]))
    else if IsArray(t) then Some(Blank(t))
    else if t == T_NAMED then Some(Named(Null, Null))
    else if t == T_ERROR then Some(Error([]))
    else None
  }

  function StringsOf(es: seq<Elt>): Option<seq<seq<Byte>>> {
    if es == [] then Some([])
    else if !es[0].val.StdString? then None
    else match StringsOf(es[1..])
      case None => None
      case Some(r) => Some([es[0].val.s] + r)
  }

  function NamesOf(es: seq<Elt>): Option<seq<seq<seq<Byte>>>> {
    if es == [] then Some([])
    else if !es[0].val.List? then None
    else match (StringsOf(es[0].val.elts), NamesOf(es[1..]))
      case (Some(a), Some(r)) => Some([a] + r)
      case _ => None
  }

  /** The array that a shape list announces, still without elements. */
  function FromShape(kind: nat, v: Value): Option<Value> {
    if v.List? && |v.elts| >= 3 && v.elts[0].val.StdInt? && v.elts[1].val.List? && v.elts[2].val.StdInt? then
      match NamesOf(v.elts[1].val.elts)
      case None => None
      case Some(names) => Some(Array(kind, v.elts[0].val.xs, names, v.elts[2].val.xs, []))
    else
      None
  }

  lemma {:induction false} StringsBack(ss: seq<seq<Byte>>)
    ensures StringsOf(StringList(ss).elts) == Some(ss)
  {
    if ss != [] {
      StringsBack(ss[1..]);
      assert StringList(ss).elts[1..] == StringList(ss[1..]).elts && ss == [ss[0]] + ss[1..];
    }
  }

  lemma {:induction false} NamesBack(names: seq<seq<seq<Byte>>>)
    ensures NamesOf(NamesList(names).elts) == Some(names)
  {
    if names != [] {
      StringsBack(names[0]);
      NamesBack(names[1..]);
      assert NamesList(names).elts[1..] == NamesList(names[1..]).elts && names == [names[0]] + names[1..];
    }
  }

  lemma ShapeBack(kind: nat, dim: seq<nat>, names: seq<seq<seq<Byte>>>, ordered: seq<nat>)
    ensures FromShape(kind, Shape(dim, names, ordered)) == Some(Array(kind, dim, names, ordered, []))
  {
    NamesBack(names);
  }

  predicate IsCompound(v: Value) {
    v.List? || v.Named? || v.Array?
  }

  /** One finished part, the top of the stack, handed to the compound value below it. */
  function Reduce(ss: seq<Frame>, idx: nat): (c: Cfg)
    requires 0 < idx < |ss| && IsCompound(ss[idx - 1].val)
    requires ss[idx - 1].val.Array? ==> ss[idx - 1].stage == 0
    ensures c.Cfg? ==> c.idx <= |c.ss| && c.idx <= idx && |c.ss| <= |ss|
    ensures c.Cfg? ==> |c.ss| + c.idx < |ss| + idx || (c.idx == idx && |c.ss| == |ss| && c.ss[idx - 1].val.Array? && c.ss[idx - 1].stage == 1)
  {
    var f, part, rest := ss[idx - 1], ss[idx].val, ss[..|ss| - 1];
    match f.val
    case List(es) =>
      if f.n >= f.exp then (if f.n == f.exp then Cfg(ss, idx - 1) else Bad)
      else if part.Named? && !part.name.StdString? then Bad
      else
        var e := if part.Named? then Elt(part.name.s, part.val) else Elt([], part);
        Cfg(rest[idx - 1 := Frame(List(es + [e]), f.exp, f.n + 1, f.stage)], if f.n + 1 == f.exp then idx - 1 else idx)
    case Named(n, v) =>
      if f.exp != 2 || f.n >= 2 then Bad
      else if f.n == 0 then Cfg(rest[idx - 1 := Frame(Named(part, v), f.exp, 1, f.stage)], idx)
      else Cfg(rest[idx - 1 := Frame(Named(n, part), f.exp, 2, f.stage)], idx - 1)
    case Array(k, _, _, _, _) =>
      match FromShape(k, part)
      case None => Bad
      case Some(a) =>
        var g := Frame(a, f.exp, f.n, 1);
        if f.n == f.exp then Cfg(rest[idx - 1 := g], idx - 1) else Cfg(ss[idx - 1 := g], idx)
  }

  /** Columns can be filled only when the first extent is not zero. */
  predicate HasRows(v: Value) {
    v.Array? && v.dim != [] && v.dim[0] != 0
  }

  /** A state in which only more input can help, or nothing is left to do. */
  predicate Quiet(c: Cfg) {
    && c.Cfg? && c.idx <= |c.ss|
    && (c.idx == 0 || c.idx == |c.ss|
        || (|c.ss| == c.idx + 1 && c.ss[c.idx - 1].val.Array? && c.ss[c.idx - 1].stage == 1
            && HasRows(c.ss[c.idx - 1].val) && c.ss[c.idx - 1].n < c.ss[c.idx - 1].exp))
  }

  /** Reductions as far as they go without reading: until a header is due, or array elements are, or all is done. */
  function Settle(ss: seq<Frame>, idx: nat): (c: Cfg)
    requires idx <= |ss|
    ensures c == Bad || Quiet(c)
    decreases |ss| + idx, if 0 < idx && ss[idx - 1].stage == 0 then 1 else 0
  {
    if Quiet(Cfg(ss, idx)) then Cfg(ss, idx)
    else if !IsCompound(ss[idx - 1].val) || (ss[idx - 1].val.Array? && ss[idx - 1].stage != 0) then Bad
    else
      var c := Reduce(ss, idx);
      if c == Bad then Bad else Settle(c.ss, c.idx)
  }

  /** The whole words of a run of bytes. */
  function UnWords(bs: seq<Byte>): (xs: seq<nat>)
    ensures |xs| == |bs| / 8
  {
    if |bs| < 8 then [] else [UnLE(bs[..8])] + UnWords(bs[8..])
  }

  function Min(a: nat, b: nat): nat {
    if a < b then a else b
  }

  /** One turn of the reading loop: on to the next one, a return to wait for more, or a fault. */
  datatype Turn = Go(off: nat, c: Cfg) | Return(off: nat, c: Cfg) | Fault

  /** Something was read, or a part was handed over, or an array left its first stage. */
  ghost predicate Advances(t: Turn, buf: seq<Byte>, off: nat, ss: seq<Frame>, idx: nat)
    requires idx <= |ss|
  {
    t.Go? ==>
      && off <= t.off <= |buf| && t.c.Cfg? && t.c.idx <= |t.c.ss|
      && (t.off > off || |t.c.ss| + t.c.idx < |ss| + idx
          || (|t.c.ss| + t.c.idx == |ss| + idx && 0 < idx && ss[idx - 1].stage == 0
              && 0 < t.c.idx && t.c.ss[t.c.idx - 1].stage != 0))
  }

  ghost predicate Bounded(t: Turn) {
    t.Return? ==> t.c.Cfg? && t.c.idx <= |t.c.ss|
  }

  function IntTurn(buf: seq<Byte>, off: nat, ss: seq<Frame>, idx: nat): (t: Turn)
    requires off <= |buf| && 0 < idx <= |ss| && ss[idx - 1].val.StdInt?
    requires off < |buf| || ss[idx - 1].n >= ss[idx - 1].exp || idx < |ss|
    ensures Advances(t, buf, off, ss, idx) && Bounded(t)
  {
    var f := ss[idx - 1];
    var want, left := if f.n < f.exp then f.exp - f.n else 0, |buf| - off;
    var m := Min(want, (left + 7) / 8);
    if 8 * m > left then Fault else PutInts(off, ss, idx, UnWords(buf[off..off + 8 * m]))
  }

  function PutInts(off: nat, ss: seq<Frame>, idx: nat, ws: seq<nat>): Turn
    requires 0 < idx <= |ss| && ss[idx - 1].val.StdInt?
  {
    var f := ss[idx - 1];
    var g := Frame(StdInt(f.val.xs + ws), f.exp, f.n + |ws|, f.stage);
    if g.n < g.exp && ws == [] && idx < |ss| then Fault
    else Go(off + 8 * |ws|, Cfg(ss[idx - 1 := g], if g.n >= g.exp then idx - 1 else idx))
  }

  function WithText(v: Value, stage: nat, t: seq<Byte>): Value
    requires v.StdString? || v.Error?
  {
    match v
    case StdString(s) => StdString(if stage == 0 then t else s + t)
    case Error(s) => Error(if stage == 0 then t else s + t)
  }

  function TextTurn(buf: seq<Byte>, off: nat, ss: seq<Frame>, idx: nat): (t: Turn)
    requires off <= |buf| && 0 < idx <= |ss| && (ss[idx - 1].val.StdString? || ss[idx - 1].val.Error?)
    ensures Advances(t, buf, off, ss, idx) && Bounded(t)
  {
    var f := ss[idx - 1];
    var text := buf[off..off + Min(f.exp, |buf| - off)];
    var alen := Aligned(|text|);
    if off + alen > |buf| then Fault
    else
      var g := Frame(WithText(f.val, f.stage, text), f.exp, f.n + alen, if f.stage == 0 then 1 else f.stage);
      if g.n < g.exp && alen == 0 then Fault
      else Go(off + alen, Cfg(ss[idx - 1 := g], if g.n >= g.exp then idx - 1 else idx))
  }

  /** As many array elements as the buffer holds; the shape list stays on the stack until the array is complete. */
  function RunTurn(buf: seq<Byte>, off: nat, ss: seq<Frame>, idx: nat): (t: Turn)
    requires off <= |buf| && 0 < idx < |ss| && ss[idx - 1].val.Array? && ss[idx - 1].stage == 1
    ensures Advances(t, buf, off, ss, idx) && Bounded(t)
  {
    var f := ss[idx - 1];
    var want := if f.n < f.exp then f.exp - f.n else 0;
    var m := Min(want, (|buf| - off) / 8);
    if !HasRows(f.val) then Fault else PutRun(|buf|, off, ss, idx, UnWords(buf[off..off + 8 * m]))
  }

  /** The array under construction after some more elements. */
  function WithData(f: Frame, ws: seq<nat>): Frame
    requires f.val.Array?
  {
    Frame(f.val.(data := f.val.data + ws), f.exp, f.n + |ws|, 1)
  }

  function PutRun(len: nat, off: nat, ss: seq<Frame>, idx: nat, ws: seq<nat>): Turn
    requires 0 < idx < |ss| && ss[idx - 1].val.Array?
  {
    var g, o := WithData(ss[idx - 1], ws), off + 8 * |ws|;
    if g.n < g.exp then (if o == len then Return(o, Cfg(ss[idx - 1 := g], idx)) else Fault)
    else if g.n == g.exp then Go(o, Cfg(ss[..|ss| - 1][idx - 1 := g], idx - 1))
    else Fault
  }

  /** The switch on the value under construction. */
  function SwitchTurn(buf: seq<Byte>, off: nat, ss: seq<Frame>, idx: nat): (t: Turn)
    requires off <= |buf| && idx <= |ss|
    ensures Advances(t, buf, off, ss, idx) && Bounded(t)
  {
    if idx == 0 then Fault
    else
      var f := ss[idx - 1];
      if off == |buf| && f.n != f.exp && idx == |ss| then Return(off, Cfg(ss, idx))
      else if f.val.StdInt? then IntTurn(buf, off, ss, idx)
      else if f.val.StdString? || f.val.Error? then TextTurn(buf, off, ss, idx)
      else if f.val.Null? || (f.val.List? && f.n == f.exp) then Go(off, Cfg(ss, idx - 1))
      else if idx == |ss| then Fault
      else if f.val.Array? && f.stage == 1 then RunTurn(buf, off, ss, idx)
      else if f.val.Array? && f.stage != 0 then Fault
      else
        var c := Reduce(ss, idx);
        if c == Bad then Fault else Go(off, c)
  }

  predicate IsAtomic(t: nat) {
    t == T_INT || t == T_STRING || t == T_ERROR
  }

  /** A turn of the loop: a header when the stack is all under construction, then the switch unless parts are due. */
  function LoopTurn(buf: seq<Byte>, off: nat, ss: seq<Frame>, idx: nat): (t: Turn)
    requires off <= |buf| && idx <= |ss|
    ensures Advances(t, buf, off, ss, idx) && Bounded(t)
  {
    if idx == |ss| then
      if |buf| - off < 16 then Fault
      else
        var t, n := UnLE(buf[off..off + 8]), UnLE(buf[off + 8..off + 16]);
        match MakeValue(t)
        case None => Fault
        case Some(v) =>
          var ss' := ss + [Frame(v, n, 0, 0)];
          if t == T_NULL && n != 0 then Fault
          else if IsArray(t) || (n != 0 && !IsAtomic(t)) then Go(off + 16, Cfg(ss', idx + 1))
          else SwitchTurn(buf, off + 16, ss', idx + 1)
    else
      SwitchTurn(buf, off, ss, idx)
  }

  /** Everything that one call reads from a buffer. */
  function Read(buf: seq<Byte>, off: nat, c: Cfg): (d: Cfg)
    requires off <= |buf| && (c.Cfg? ==> c.idx <= |c.ss|)
    ensures d.Cfg? ==> d.idx <= |d.ss|
    decreases |buf| - off, if c.Cfg? then |c.ss| + c.idx else 0,
              if c.Cfg? && 0 < c.idx && c.ss[c.idx - 1].stage == 0 then 1 else 0
  {
    if c == Bad then Bad
    else if off < |buf| || 0 < c.idx < |c.ss| then
      match LoopTurn(buf, off, c.ss, c.idx)
      case Fault => Bad
      case Return(_, d) => d
      case Go(o, d) => Read(buf, o, d)
    else
      c
  }

  /** The frame of a finished value. */
  function Finished(v: Value): Frame {
    match v
    case StdString(s) => Frame(v, |s|, Aligned(|s|), 1)
    case Error(s) => Frame(v, |s|, Aligned(|s|), 1)
    case StdInt(xs) => Frame(v, |xs|, |xs|, 0)
    case Null => Frame(v, 0, 0, 0)
    case List(es) => Frame(v, |es|, |es|, 0)
    case Named(_, _) => Frame(v, 2, 2, 0)
    case Array(_, _, _, _, data) => Frame(v, |data|, |data|, 1)
  }

  /** The effect of one piece, with the reductions that it allows. */
  function Feed(c: Cfg, p: Piece): (d: Cfg)
    requires Quiet(c)
    ensures d == Bad || Quiet(d)
  {
    var ss, idx := c.ss, c.idx;
    match p
    case Atom(v) =>
      if idx != |ss| || IsCompound(v) then Bad else Settle(ss + [Finished(v)], idx)
    case Open(t, n) =>
      if idx != |ss| || !(t == T_LIST || t == T_NAMED || IsArray(t)) then Bad
      else if IsArray(t) || n != 0 then Cfg(ss + [Frame(MakeValue(t).value, n, 0, 0)], idx + 1)
      else if t == T_LIST then Settle(ss + [Frame(List([]), 0, 0, 0)], idx)
      else Bad
    case Elem(w) =>
      if idx == 0 || idx == |ss| then Bad
      else
        var f := ss[idx - 1];
        var g := Frame(f.val.(data := f.val.data + [w]), f.exp, f.n + 1, 1);
        if g.n == g.exp then Settle(ss[..|ss| - 1][idx - 1 := g], idx - 1) else Cfg(ss[idx - 1 := g], idx)
  }

  function FeedAll(c: Cfg, ps: seq<Piece>): (d: Cfg)
    requires c == Bad || Quiet(c)
    ensures d == Bad || Quiet(d)
    decreases |ps|
  {
    if c == Bad || ps == [] then c else FeedAll(Feed(c, ps[0]), ps[1..])
  }

  lemma {:induction false} FeedSplit(c: Cfg, ps: seq<Piece>, qs: seq<Piece>)
    requires c == Bad || Quiet(c)
    ensures FeedAll(c, ps + qs) == FeedAll(FeedAll(c, ps), qs)
    decreases |ps|
  {
    hide Feed;
    if c == Bad {
    } else if ps == [] {
      assert ps + qs == qs;
    } else {
      FeedSplit(Feed(c, ps[0]), ps[1..], qs);
      assert (ps + qs)[1..] == ps[1..] + qs;
    }
  }

  // ----- A value's pieces leave exactly that value on the stack -----

  lemma SettleStep(ss: seq<Frame>, idx: nat)
    requires 0 < idx < |ss| && IsCompound(ss[idx - 1].val) && (ss[idx - 1].val.Array? ==> ss[idx - 1].stage == 0)
    requires Reduce(ss, idx) != Bad
    ensures Settle(ss, idx) == Settle(Reduce(ss, idx).ss, Reduce(ss, idx).idx)
  {
    hide Reduce;
  }

  /** The part on top replaced, with the frame below it, by `g`. */
  lemma PopAndPut(ss: seq<Frame>, f: Frame, part: Frame, g: Frame)
    ensures var s := ss + [f] + [part]; s[..|s| - 1][|ss| := g] == ss + [g] && s[|ss| := g] == ss + [g] + [part]
  {}

  /** Handing over a finished part to a list. */
  lemma ListTakes(ss: seq<Frame>, es: seq<Elt>, n: nat, name: seq<Byte>, v: Value)
    requires |es| < n
    ensures var f := Frame(List(es), n, |es|, 0); var g := Frame(List(es + [Elt(name, v)]), n, |es| + 1, 0);
            Settle(ss + [f] + [Finished(Named(StdString(name), v))], |ss| + 1)
            == if |es| + 1 == n then Settle(ss + [g], |ss|) else Cfg(ss + [g], |ss| + 1)
  {
    hide Settle;
    var f, g, part := Frame(List(es), n, |es|, 0), Frame(List(es + [Elt(name, v)]), n, |es| + 1, 0), Finished(Named(StdString(name), v));
    PopAndPut(ss, f, part, g);
    SettleStep(ss + [f] + [part], |ss| + 1);
    SettleWaiting(ss + [g]);
  }

  /** A stack that is all under construction waits for a header. */
  lemma SettleWaiting(ss: seq<Frame>)
    ensures Settle(ss, |ss|) == Cfg(ss, |ss|)
  {}

  lemma NamedTakesPart(ss: seq<Frame>, f: Frame, part: Value)
    requires f.val.Named? && f.exp == 2 && f.n <= 1
    ensures Settle(ss + [f] + [Finished(part)], |ss| + 1)
            == if f.n == 0 then Cfg(ss + [Frame(Named(part, f.val.val), 2, 1, f.stage)], |ss| + 1)
               else Settle(ss + [Frame(Named(f.val.name, part), 2, 2, f.stage)], |ss|)
  {
    hide Settle;
    var g := if f.n == 0 then Frame(Named(part, f.val.val), 2, 1, f.stage) else Frame(Named(f.val.name, part), 2, 2, f.stage);
    PopAndPut(ss, f, Finished(part), g);
    SettleStep(ss + [f] + [Finished(part)], |ss| + 1);
    SettleWaiting(ss + [g]);
  }

  /** What an array looks like before its shape has come. */
  function Blank(k: nat): Value {
    Array(k, [0, 1], [], [], [])
  }

  lemma ArrayTakesShape(ss: seq<Frame>, k: nat, part: Frame, a: Value, n: nat)
    requires FromShape(k, part.val) == Some(a) && a.Array? && (n != 0 ==> HasRows(a))
    ensures var f, g := Frame(Blank(k), n, 0, 0), Frame(a, n, 0, 1);
            Settle(ss + [f] + [part], |ss| + 1)
            == if n == 0 then Settle(ss + [g], |ss|) else Cfg(ss + [g] + [part], |ss| + 1)
  {
    hide Settle, FromShape;
    var f, g := Frame(Blank(k), n, 0, 0), Frame(a, n, 0, 1);
    PopAndPut(ss, f, part, g);
    SettleStep(ss + [f] + [part], |ss| + 1);
    if n != 0 { SettleQuiet(ss + [g] + [part], |ss| + 1); }
  }

  lemma SettleQuiet(ss: seq<Frame>, idx: nat)
    requires Quiet(Cfg(ss, idx))
    ensures Settle(ss, idx) == Cfg(ss, idx)
  {}

  /** The state in the middle of an array's elements. */
  predicate InArray(c: Cfg) {
    Quiet(c) && 0 < c.idx < |c.ss|
  }

  function AfterRun(c: Cfg, ws: seq<nat>): (d: Cfg)
    requires InArray(c) && |ws| <= c.ss[c.idx - 1].exp - c.ss[c.idx - 1].n
    ensures d == Bad || Quiet(d)
  {
    var g := WithData(c.ss[c.idx - 1], ws);
    if g.n == g.exp then Settle(c.ss[..|c.ss| - 1][c.idx - 1 := g], c.idx - 1) else Cfg(c.ss[c.idx - 1 := g], c.idx)
  }

  lemma {:induction false} FeedRun(c: Cfg, ws: seq<nat>)
    requires InArray(c) && |ws| <= c.ss[c.idx - 1].exp - c.ss[c.idx - 1].n
    ensures FeedAll(c, Elems(ws)) == AfterRun(c, ws)
    decreases |ws|
  {
    var f := c.ss[c.idx - 1];
    if ws == [] {
      assert f.val.data + [] == f.val.data && c.ss[c.idx - 1 := f] == c.ss;
    } else {
      hide Settle;
      var g := WithData(f, [ws[0]]);
      assert Elems(ws)[1..] == Elems(ws[1..]);
      if |ws| == 1 {
        assert ws == [ws[0]];
        assert FeedAll(Feed(c, Elem(ws[0])), []) == Feed(c, Elem(ws[0]));
      } else {
        var d := Cfg(c.ss[c.idx - 1 := g], c.idx);
        assert Feed(c, Elem(ws[0])) == d;
        FeedRun(d, ws[1..]);
        RunJoins(c, ws);
      }
    }
  }

  lemma RunJoins(c: Cfg, ws: seq<nat>)
    requires InArray(c) && 1 < |ws| <= c.ss[c.idx - 1].exp - c.ss[c.idx - 1].n
    ensures var d := Cfg(c.ss[c.idx - 1 := WithData(c.ss[c.idx - 1], [ws[0]])], c.idx);
            InArray(d) && |ws| - 1 <= d.ss[d.idx - 1].exp - d.ss[d.idx - 1].n && AfterRun(d, ws[1..]) == AfterRun(c, ws)
  {
    hide Settle;
    var f, i := c.ss[c.idx - 1], c.idx - 1;
    var g, h := WithData(f, [ws[0]]), WithData(f, ws);
    assert f.val.data + ws == f.val.data + [ws[0]] + ws[1..];
    assert h == WithData(g, ws[1..]);
    var ds := c.ss[i := g];
    assert ds[..|ds| - 1][i := h] == c.ss[..|c.ss| - 1][i := h];
    assert ds[i := h] == c.ss[i := h];
  }

  /** Numbers and lengths fit the words that carry them, and arrays hold eight-byte elements. */
  predicate Proper(v: Value) {
    match v
    case StdString(s) => Aligned(|s|) < TWO32
    case Error(s) => Aligned(|s|) < TWO32
    case StdInt(xs) => |xs| < TWO64 && forall k :: 0 <= k < |xs| ==> xs[k] < TWO64
    case Null => true
    case List(es) => |es| < TWO64 && forall k :: 0 <= k < |es| ==> Aligned(|es[k].name|) < TWO32 && Proper(es[k].val)
    case Named(n, x) => Proper(n) && Proper(x)
    case Array(k, dim, names, ordered, data) =>
      && (k == 2 || k == 4 || k == 5) && (data != [] ==> dim != [] && dim[0] != 0) && |data| < TWO64 && (forall j :: 0 <= j < |data| ==> data[j] < TWO64)
      && |dim| < TWO64 && (forall j :: 0 <= j < |dim| ==> dim[j] < TWO64)
      && |ordered| < TWO64 && (forall j :: 0 <= j < |ordered| ==> ordered[j] < TWO64)
      && |names| < TWO64
      && forall j :: 0 <= j < |names| ==> |names[j]| < TWO64 && forall i :: 0 <= i < |names[j]| ==> Aligned(|names[j][i]|) < TWO32
  }

  lemma ShapeProper(dim: seq<nat>, names: seq<seq<seq<Byte>>>, ordered: seq<nat>, k: nat, data: seq<nat>)
    requires Proper(Array(k, dim, names, ordered, data))
    ensures Proper(Shape(dim, names, ordered))
  {
    forall j | 0 <= j < |names| ensures Proper(StringList(names[j])) {}
    assert Proper(NamesList(names));
  }

  /** Fed with its pieces, the decoder ends up holding the value as a finished part, whatever lies below on the stack. */
  lemma {:induction false} PiecesBuild(v: Value, ss: seq<Frame>)
    requires Proper(v)
    ensures FeedAll(Cfg(ss, |ss|), Pieces(v)) == Settle(ss + [Finished(v)], |ss|)
    decreases Level(v), v, 1
  {
    var c := Cfg(ss, |ss|);
    match v
    case List(es) => ListBuild(es, ss);
    case Named(n, x) => NamedBuild(n, x, ss);
    case Array(_, _, _, _, _) => ArrayBuild(v, ss);
    case StdString(_) => assert FeedAll(Feed(c, Atom(v)), []) == Feed(c, Atom(v));
    case Error(_) => assert FeedAll(Feed(c, Atom(v)), []) == Feed(c, Atom(v));
    case StdInt(_) => assert FeedAll(Feed(c, Atom(v)), []) == Feed(c, Atom(v));
    case Null => assert FeedAll(Feed(c, Atom(v)), []) == Feed(c, Atom(v));
  }

  lemma FeedFirst(c: Cfg, p: Piece, ps: seq<Piece>)
    requires Quiet(c)
    ensures FeedAll(c, [p] + ps) == FeedAll(Feed(c, p), ps)
  {
    hide Feed;
    assert ([p] + ps)[1..] == ps;
  }

  lemma FeedOpen(ss: seq<Frame>, t: nat, n: nat)
    requires IsArray(t) || (n != 0 && (t == T_LIST || t == T_NAMED))
    ensures Feed(Cfg(ss, |ss|), Open(t, n)) == Cfg(ss + [Frame(MakeValue(t).value, n, 0, 0)], |ss| + 1)
  {}

  lemma FeedAtom(ss: seq<Frame>, v: Value)
    requires !IsCompound(v)
    ensures Feed(Cfg(ss, |ss|), Atom(v)) == Settle(ss + [Finished(v)], |ss|)
  {}

  lemma {:induction false} NamedBuild(n: Value, x: Value, ss: seq<Frame>)
    requires Proper(n) && Proper(x)
    ensures FeedAll(Cfg(ss, |ss|), [Open(T_NAMED, 2)] + (Pieces(n) + Pieces(x))) == Settle(ss + [Finished(Named(n, x))], |ss|)
    decreases Level(Named(n, x)), Named(n, x), 0
  {
    hide Feed, Settle, Pieces;
    var c, f := Cfg(ss, |ss|), Frame(Named(Null, Null), 2, 0, 0);
    var d := Cfg(ss + [f], |ss| + 1);
    FeedFirst(c, Open(T_NAMED, 2), Pieces(n) + Pieces(x));
    FeedOpen(ss, T_NAMED, 2);
    FeedSplit(d, Pieces(n), Pieces(x));
    PiecesBuild(n, ss + [f]);
    NamedTakesPart(ss, f, n);
    var g := Frame(Named(n, Null), 2, 1, 0);
    PiecesBuild(x, ss + [g]);
    NamedTakesPart(ss, g, x);
  }

  lemma {:induction false} ListBuild(es: seq<Elt>, ss: seq<Frame>)
    requires Proper(List(es))
    ensures FeedAll(Cfg(ss, |ss|), [Open(T_LIST, |es|)] + EltPieces(es)) == Settle(ss + [Finished(List(es))], |ss|)
    decreases Level(List(es)), List(es), 0
  {
    hide Settle, EltPieces;
    var c := Cfg(ss, |ss|);
    FeedFirst(c, Open(T_LIST, |es|), EltPieces(es));
    if es == [] {
      NoElts();
    } else {
      FeedOpen(ss, T_LIST, |es|);
      hide Feed;
      EltsBuild([], es, ss);
      assert [] + es == es;
    }
  }

  lemma NoElts()
    ensures EltPieces([]) == []
  {}

  lemma {:induction false} EltsBuild(done: seq<Elt>, es: seq<Elt>, ss: seq<Frame>)
    requires es != [] && forall k :: 0 <= k < |es| ==> Proper(es[k].val)
    ensures var n := |done| + |es|;
            FeedAll(Cfg(ss + [Frame(List(done), n, |done|, 0)], |ss| + 1), EltPieces(es))
            == Settle(ss + [Finished(List(done + es))], |ss|)
    decreases EltsLevel(es), es, 0
  {
    hide Settle, Feed, Pieces, Reduce;
    var n, e := |done| + |es|, es[0];
    var f := Frame(List(done), n, |done|, 0);
    var s := ss + [f];
    var first := [Open(T_NAMED, 2), Atom(StdString(e.name))] + Pieces(e.val);
    EltBuild(e, s);
    ListTakes(ss, done, n, e.name, e.val);
    assert EltPieces(es) == first + EltPieces(es[1..]);
    FeedSplit(Cfg(s, |s|), first, EltPieces(es[1..]));
    var more := done + [e];
    if |es| == 1 {
      assert done + es == more;
      assert EltPieces(es[1..]) == [];
    } else {
      EltsBuild(more, es[1..], ss);
      assert done + es == more + es[1..];
    }
  }

  /** One list element: the pair of its name and its value. */
  lemma {:induction false} EltBuild(e: Elt, s: seq<Frame>)
    requires Proper(e.val)
    ensures FeedAll(Cfg(s, |s|), [Open(T_NAMED, 2), Atom(StdString(e.name))] + Pieces(e.val))
            == Settle(s + [Finished(Named(StdString(e.name), e.val))], |s|)
    decreases Level(e.val), e.val, 2
  {
    hide Settle, Feed, Pieces, Reduce;
    var f, g := Frame(Named(Null, Null), 2, 0, 0), Frame(Named(StdString(e.name), Null), 2, 1, 0);
    var c, d := Cfg(s, |s|), Cfg(s + [f], |s| + 1);
    assert [Open(T_NAMED, 2), Atom(StdString(e.name))] + Pieces(e.val)
        == [Open(T_NAMED, 2)] + ([Atom(StdString(e.name))] + Pieces(e.val));
    FeedFirst(c, Open(T_NAMED, 2), [Atom(StdString(e.name))] + Pieces(e.val));
    FeedOpen(s, T_NAMED, 2);
    FeedFirst(d, Atom(StdString(e.name)), Pieces(e.val));
    FeedAtom(s + [f], StdString(e.name));
    NamedTakesPart(s, f, StdString(e.name));
    PiecesBuild(e.val, s + [g]);
    NamedTakesPart(s, g, e.val);
  }

  lemma {:induction false} ArrayBuild(v: Value, ss: seq<Frame>)
    requires Proper(v) && v.Array?
    ensures FeedAll(Cfg(ss, |ss|), Pieces(v)) == Settle(ss + [Finished(v)], |ss|)
    decreases Level(v), v, 0
  {
    var c, n := Cfg(ss, |ss|), |v.data|;
    var shape := Shape(v.dim, v.names, v.ordered);
    var f, g := Frame(MakeValue(v.kind).value, n, 0, 0), Frame(Array(v.kind, v.dim, v.names, v.ordered, []), n, 0, 1);
    ShapeLevel(v.dim, v.names, v.ordered);
    ShapeProper(v.dim, v.names, v.ordered, v.kind, v.data);
    assert Pieces(v) == [Open(v.kind, n)] + (Pieces(shape) + Elems(v.data));
    hide Pieces, Shape, FromShape, Reduce;
    FeedFirst(c, Open(v.kind, n), Pieces(shape) + Elems(v.data));
    FeedSplit(Cfg(ss + [f], |ss| + 1), Pieces(shape), Elems(v.data));
    PiecesBuild(shape, ss + [f]);
    ShapeBack(v.kind, v.dim, v.names, v.ordered);
    ArrayTakesShape(ss, v.kind, Finished(shape), g.val, n);
    hide FeedAll, Feed, Settle;
    if n == 0 {
      assert v.data == [] && Elems(v.data) == [];
      assert Finished(v) == g;
    } else {
      ArrayElements(v, ss, g, Finished(shape));
    }
  }

  /** The elements of an array whose shape has been read. */
  lemma ArrayElements(v: Value, ss: seq<Frame>, g: Frame, shape: Frame)
    requires v.Array? && v.data != [] && HasRows(v)
    requires g == Frame(Array(v.kind, v.dim, v.names, v.ordered, []), |v.data|, 0, 1)
    ensures FeedAll(Cfg(ss + [g] + [shape], |ss| + 1), Elems(v.data)) == Settle(ss + [Finished(v)], |ss|)
  {
    hide FeedAll, Settle, Elems;
    var d := Cfg(ss + [g] + [shape], |ss| + 1);
    FeedRun(d, v.data);
    assert [] + v.data == v.data;
    PopAndPut(ss, g, shape, Finished(v));
  }
}
