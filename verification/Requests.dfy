/** Reassembling a request: its code from any cuts, then its values piece by piece. */
module Requests {
  import opened Wrappers
  import opened Wire
  import C = Code
  import CodeStream
  import opened Values
  import opened ValueStream

  lemma {:induction false} UnWordsSplit(x: seq<Byte>, y: seq<Byte>)
    requires |x| % 8 == 0
    ensures UnWords(x + y) == UnWords(x) + UnWords(y)
    decreases |x|
  {
    if x == [] {
      assert x + y == y;
    } else {
      hide UnLE;
      UnWordsSplit(x[8..], y);
      var z := x + y;
      assert z[..8] == x[..8] && z[8..] == x[8..] + y;
      assert UnWords(z) == [UnLE(z[..8])] + UnWords(z[8..]);
    }
  }

  /** One more stretch of `m` words read at `o`. */
  lemma MoreWords(buf: seq<Byte>, off: nat, o: nat, m: nat)
    requires off <= o && o + 8 * m <= |buf| && (o - off) % 8 == 0
    ensures UnWords(buf[off..o + 8 * m]) == UnWords(buf[off..o]) + UnWords(buf[o..o + 8 * m])
  {
    assert buf[off..o + 8 * m] == buf[off..o] + buf[o..o + 8 * m];
    UnWordsSplit(buf[off..o], buf[o..o + 8 * m]);
  }

  datatype Move = Loops | Leaves | Fails

  /** What a turn is called in the specification. */
  function AsTurn(m: Move, off: nat, c: Cfg): Turn {
    match m
    case Loops => Go(off, c)
    case Leaves => Return(off, c)
    case Fails => Turn.Fault
  }

  /** Integers one by one, up to `want` of them; refused when the last one is cut. */
  method TakeInts(buf: seq<Byte>, off: nat, want: nat) returns (ok: bool, xs: seq<nat>, o: nat)
    requires off <= |buf|
    ensures ok <==> 8 * Min(want, (|buf| - off + 7) / 8) <= |buf| - off
    ensures ok ==> o == off + 8 * Min(want, (|buf| - off + 7) / 8) && xs == UnWords(buf[off..o])
  {
    xs, o, ok := [], off, true;
    var n := 0;
    while n < want && o < |buf|
      invariant off <= o <= |buf| && o == off + 8 * n && n <= want
      invariant xs == UnWords(buf[off..o])
      decreases |buf| - o
    {
      if |buf| - o < 8 {
        return false, xs, o;
      }
      MoreWords(buf, off, o, 1);
      assert buf[o..o + 8][..8] == buf[o..o + 8] && buf[o..o + 8][8..] == [];
      assert UnWords(buf[o..o + 8]) == [UnLE(buf[o..o + 8])] + UnWords([]);
      xs, n, o := xs + [UnLE(buf[o..o + 8])], n + 1, o + 8;
    }
  }

  /**
   * Array elements after the first `n`, as many at a time as the rest of a column and the buffer allow;
   * refused, where the source would not end, when a cut element is left over.
   */
  method TakeElements(buf: seq<Byte>, off: nat, rows: nat, n0: nat, exp: nat) returns (ok: bool, ws: seq<nat>, o: nat)
    requires off <= |buf| && 0 < rows && n0 < exp
    ensures ok ==> o == off + 8 * Min(exp - n0, (|buf| - off) / 8) && ws == UnWords(buf[off..o])
    ensures ok <==> exp - n0 <= (|buf| - off) / 8 || (|buf| - off) % 8 == 0
  {
    ws, o, ok := [], off, true;
    var n := n0;
    var coloff := n % rows;
    while n < exp && o < |buf|
      invariant off <= o <= |buf| && o == off + 8 * (n - n0) && coloff < rows && n0 <= n <= exp
      invariant ws == UnWords(buf[off..o])
      decreases |buf| - o
    {
      var ncopy := Min(Min(exp - n, (|buf| - o) / 8), rows - coloff);
      if ncopy == 0 {
        return false, ws, o;
      }
      MoreWords(buf, off, o, ncopy);
      ws := ws + UnWords(buf[o..o + 8 * ncopy]);
      n, o := n + ncopy, o + 8 * ncopy;
      if coloff + ncopy == rows {
        coloff := 0;
      }
    }
  }

  class Reader {
    var ss: seq<Frame>
    var idx: nat

    constructor ()
      ensures State() == Cfg([], 0)
    {
      ss, idx := [], 0;
    }

    ghost function State(): Cfg
      reads this
    {
      Cfg(ss, idx)
    }

    method ReadInts(buf: seq<Byte>, off: nat) returns (m: Move, o: nat)
      requires off <= |buf| && 0 < idx <= |ss| && ss[idx - 1].val.StdInt?
      requires off < |buf| || ss[idx - 1].n >= ss[idx - 1].exp || idx < |ss|
      modifies this
      ensures AsTurn(m, o, State()) == IntTurn(buf, off, old(ss), old(idx))
    {
      hide UnWords, Advances;
      var f := ss[idx - 1];
      var ok, xs;
      ok, xs, o := TakeInts(buf, off, if f.n < f.exp then f.exp - f.n else 0);
      if !ok || (f.n + |xs| < f.exp && xs == [] && idx < |ss|) {
        return Fails, o;
      }
      ss := ss[idx - 1 := Frame(StdInt(f.val.xs + xs), f.exp, f.n + |xs|, f.stage)];
      if f.n + |xs| >= f.exp {
        idx := idx - 1;
      }
      m := Loops;
    }

    method ReadElements(buf: seq<Byte>, off: nat) returns (m: Move, o: nat)
      requires off <= |buf| && 0 < idx < |ss| && ss[idx - 1].val.Array? && ss[idx - 1].stage == 1
      modifies this
      ensures AsTurn(m, o, State()) == RunTurn(buf, off, old(ss), old(idx))
    {
      assert UnWords(buf[off..off]) == [];
      hide UnWords, Advances;
      var f := ss[idx - 1];
      o := off;
      if !HasRows(f.val) {
        return Fails, o;
      }
      var ok, ws := f.n == f.exp, [];
      if f.n < f.exp {
        ok, ws, o := TakeElements(buf, off, f.val.dim[0], f.n, f.exp);
      }
      if !ok {
        return Fails, o;
      }
      ss := ss[idx - 1 := WithData(f, ws)];
      if f.n + |ws| < f.exp {
        return Leaves, o;
      }
      ghost var i := idx - 1;
      assert ss[..|ss| - 1] == old(ss)[..|ss| - 1][i := WithData(f, ws)];
      ss, idx := ss[..|ss| - 1], idx - 1;
      m := Loops;
    }

    /** A string or error text. */
    method ReadText(buf: seq<Byte>, off: nat) returns (m: Move, o: nat)
      requires off <= |buf| && 0 < idx <= |ss| && (ss[idx - 1].val.StdString? || ss[idx - 1].val.Error?)
      modifies this
      ensures AsTurn(m, o, State()) == TextTurn(buf, off, old(ss), old(idx))
    {
      hide Advances;
      var f := ss[idx - 1];
      var readLen := Min(f.exp, |buf| - off);
      var text := buf[off..off + readLen];
      var alen := Aligned(|text|);
      o := off + alen;
      if o > |buf| || (f.n + alen < f.exp && alen == 0) {
        return Fails, o;
      }
      ss := ss[idx - 1 := Frame(WithText(f.val, f.stage, text), f.exp, f.n + alen, if f.stage == 0 then 1 else f.stage)];
      if f.n + alen >= f.exp {
        idx := idx - 1;
      }
      m := Loops;
    }

    /** The switch of the loop. */
    method ReadSwitch(buf: seq<Byte>, off: nat) returns (m: Move, o: nat)
      requires off <= |buf| && idx <= |ss|
      modifies this
      ensures AsTurn(m, o, State()) == SwitchTurn(buf, off, old(ss), old(idx))
    {
      hide IntTurn, TextTurn, RunTurn, Reduce, Advances;
      m, o := Fails, off;
      if idx == 0 {
        return;
      }
      var f := ss[idx - 1];
      if off == |buf| && f.n != f.exp && idx == |ss| {
        return Leaves, o;
      }
      match f.val {
        case StdInt(_) => m, o := ReadInts(buf, off);
        case StdString(_) => m, o := ReadText(buf, off);
        case Error(_) => m, o := ReadText(buf, off);
        case Null => m, idx := Loops, idx - 1;
        case List(_) =>
          if f.n == f.exp {
            m, idx := Loops, idx - 1;
          } else if idx < |ss| {
            m := TakePart();
          }
        case Named(_, _) =>
          if idx < |ss| {
            m := TakePart();
          }
        case Array(_, _, _, _, _) =>
          if idx < |ss| && f.stage == 1 {
            m, o := ReadElements(buf, off);
          } else if idx < |ss| && f.stage == 0 {
            m := TakePart();
          }
      }
    }

    /** Hands the finished part on top to the compound value below it. */
    method TakePart() returns (m: Move)
      requires 0 < idx < |ss| && IsCompound(ss[idx - 1].val) && (ss[idx - 1].val.Array? ==> ss[idx - 1].stage == 0)
      modifies this
      ensures m == (if Reduce(old(ss), old(idx)) == Bad then Fails else Loops)
      ensures m == Loops ==> State() == Reduce(old(ss), old(idx))
    {
      var f, part := ss[idx - 1], ss[idx].val;
      m := Fails;
      match f.val {
        case List(es) =>
          if f.n < f.exp {
            var e;
            if part.Named? {
              if !part.name.StdString? {
                return;
              }
              e := Elt(part.name.s, part.val);
            } else {
              e := Elt([], part);
            }
            ss := ss[..|ss| - 1][idx - 1 := Frame(List(es + [e]), f.exp, f.n + 1, f.stage)];
            if f.n + 1 == f.exp {
              idx := idx - 1;
            }
            m := Loops;
          } else if f.n == f.exp {
            m, idx := Loops, idx - 1;
          }
        case Named(n, v) =>
          if f.exp == 2 && f.n == 0 {
            ss := ss[..|ss| - 1][idx - 1 := Frame(Named(part, v), f.exp, 1, f.stage)];
            m := Loops;
          } else if f.exp == 2 && f.n == 1 {
            ss := ss[..|ss| - 1][idx - 1 := Frame(Named(n, part), f.exp, 2, f.stage)];
            m, idx := Loops, idx - 1;
          }
        case Array(k, _, _, _, _) =>
          var a := FromShape(k, part);
          if a.Some? {
            if f.n == f.exp {
              ss := ss[..|ss| - 1][idx - 1 := Frame(a.value, f.exp, f.n, 1)];
              idx := idx - 1;
            } else {
              ss := ss[idx - 1 := Frame(a.value, f.exp, f.n, 1)];
            }
            m := Loops;
          }
      }
    }

    /** A turn of the loop. */
    method ReadTurn(buf: seq<Byte>, off: nat) returns (m: Move, o: nat)
      requires off <= |buf| && idx <= |ss|
      modifies this
      ensures AsTurn(m, o, State()) == LoopTurn(buf, off, old(ss), old(idx))
    {
      hide SwitchTurn, UnLE, Advances;
      o := off;
      if idx == |ss| {
        if |buf| - off < 16 {
          return Fails, o;
        }
        var t, n := UnLE(buf[off..off + 8]), UnLE(buf[off + 8..off + 16]);
        var v := MakeValue(t);
        if v == None || (t == T_NULL && n != 0) {
          return Fails, o;
        }
        ss, idx, o := ss + [Frame(v.value, n, 0, 0)], idx + 1, off + 16;
        if IsArray(t) || (n != 0 && !IsAtomic(t)) {
          return Loops, o;
        }
      }
      m, o := ReadSwitch(buf, o);
    }

    /** Reads a buffer to its end; `ok` is false where the source throws, or leaves its stack or its buffer. */
    method ReadValue(buf: seq<Byte>) returns (ok: bool)
      requires idx <= |ss|
      modifies this
      ensures Read(buf, 0, old(State())) == if ok then State() else Bad
    {
      var off := 0;
      ok := true;
      while off < |buf| || 0 < idx < |ss|
        invariant off <= |buf| && idx <= |ss|
        invariant Read(buf, 0, old(State())) == Read(buf, off, State())
        decreases |buf| - off, |ss| + idx, if 0 < idx && ss[idx - 1].stage == 0 then 1 else 0
      {
        hide LoopTurn;
        var m;
        m, off := ReadTurn(buf, off);
        match m {
          case Loops =>
          case Leaves => return true;
          case Fails => return false;
        }
      }
    }
  }

  // ----- Requests -----

  datatype Phase = IdlePhase | CodePhase | ValuePhase | DonePhase

  /** A request being received; `Failed` where the source throws or reads what is not there. */
  datatype Req =
    | Req(phase: Phase, codeLen: nat, codeBuf: seq<Byte>, e: Option<C.Node>, val: Cfg)
    | Failed

  function Start(): Req {
    Req(IdlePhase, 0, [], None, Cfg([], 0))
  }

  /** The value part of a segment; the request is complete when the list at the bottom of the stack is. */
  function TakeValue(r: Req, buf: seq<Byte>): Req
    requires r.Req? && (r.val.Cfg? ==> r.val.idx <= |r.val.ss|)
  {
    var c := Read(buf, 0, r.val);
    if c == Bad || c.ss == [] then Failed
    else r.(val := c, phase := if c.ss[0].n == c.ss[0].exp then DonePhase else ValuePhase)
  }

  /** The code part of a segment, and the value part when the code is complete. */
  function TakeCode(r: Req, buf: seq<Byte>): Req
    requires r.Req? && (r.val.Cfg? ==> r.val.idx <= |r.val.ss|) && |r.codeBuf| <= r.codeLen
  {
    var n := if |r.codeBuf| + |buf| >= r.codeLen then r.codeLen - |r.codeBuf| else |buf|;
    var code := r.codeBuf + buf[..n];
    if |code| == r.codeLen then
      match C.Parse(code)
      case Err => Failed
      case Ok(e, _) => TakeValue(Req(ValuePhase, 0, [], Some(e), r.val), buf[n..])
    else
      r.(phase := CodePhase, codeBuf := code)
  }

  ghost predicate ValidReq(r: Req) {
    r.Req? ==>
      && (r.val.Cfg? && r.val.idx <= |r.val.ss|)
      && (r.phase == CodePhase ==> |r.codeBuf| <= r.codeLen)
      && (r.phase == IdlePhase ==> r.codeBuf == [])
  }

  /** One segment of a request. */
  function Segment(r: Req, buf: seq<Byte>): Req
    requires ValidReq(r)
  {
    if r == Failed then Failed
    else match r.phase
      case IdlePhase => if |buf| < 8 then Failed else TakeCode(r.(codeLen := UnLE(buf[..8])), buf[8..])
      case CodePhase => TakeCode(r, buf)
      case ValuePhase => TakeValue(r, buf)
      case DonePhase => Failed
  }

  lemma SegmentValid(r: Req, buf: seq<Byte>)
    requires ValidReq(r)
    ensures ValidReq(Segment(r, buf))
  {
    hide Read, C.Parse;
  }

  function Segments(r: Req, segs: seq<seq<Byte>>): Req
    requires ValidReq(r)
    decreases |segs|
  {
    if segs == [] then r else
      SegmentValid(r, segs[0]);
      Segments(Segment(r, segs[0]), segs[1..])
  }

  lemma {:induction false} SegmentsSplit(r: Req, xs: seq<seq<Byte>>, ys: seq<seq<Byte>>)
    requires ValidReq(r)
    ensures ValidReq(Segments(r, xs)) && Segments(r, xs + ys) == Segments(Segments(r, xs), ys)
    decreases |xs|
  {
    if xs == [] {
      assert xs + ys == ys;
    } else {
      SegmentValid(r, xs[0]);
      SegmentsSplit(Segment(r, xs[0]), xs[1..], ys);
      assert (xs + ys)[1..] == xs[1..] + ys;
    }
  }

  /** The list at the bottom of the stack is complete exactly when the decoder is done. */
  ghost predicate Bottomed(c: Cfg) {
    c.Cfg? && c.ss != [] && (c.idx == 0 || (c.ss[0].val.List? && c.ss[0].n < c.ss[0].exp))
  }

  lemma {:induction false} SettleBottomed(ss: seq<Frame>, idx: nat)
    requires idx <= |ss| && Bottomed(Cfg(ss, idx)) && Settle(ss, idx) != Bad
    ensures Bottomed(Settle(ss, idx))
    decreases |ss| + idx, if 0 < idx && ss[idx - 1].stage == 0 then 1 else 0
  {
    if !Quiet(Cfg(ss, idx)) {
      var d := Reduce(ss, idx);
      assert Bottomed(d);
      hide Reduce;
      SettleBottomed(d.ss, d.idx);
    }
  }

  lemma FeedBottomed(c: Cfg, p: Piece)
    requires Quiet(c) && Feed(c, p) != Bad
    requires if c.ss == [] then p.Open? && p.kind == T_LIST else Bottomed(c)
    ensures Bottomed(Feed(c, p))
  {
    hide Reduce, Settle;
    match p
    case Atom(v) => SettleBottomed(c.ss + [Finished(v)], c.idx);
    case Open(t, n) =>
      if !IsArray(t) && n == 0 {
        SettleBottomed(c.ss + [Frame(List([]), 0, 0, 0)], c.idx);
      }
    case Elem(w) =>
      var f := c.ss[c.idx - 1];
      var g := Frame(f.val.(data := f.val.data + [w]), f.exp, f.n + 1, 1);
      if g.n == g.exp {
        SettleBottomed(c.ss[..|c.ss| - 1][c.idx - 1 := g], c.idx - 1);
      }
  }

  lemma {:induction false} FeedAllBottomed(c: Cfg, ps: seq<Piece>)
    requires Quiet(c) && FeedAll(c, ps) != Bad && ps != []
    requires if c.ss == [] then ps[0].Open? && ps[0].kind == T_LIST else Bottomed(c)
    ensures Bottomed(FeedAll(c, ps))
    decreases |ps|
  {
    FeedBottomed(c, ps[0]);
    hide Feed, Bottomed;
    if |ps| > 1 {
      NotStarted(Feed(c, ps[0]));
      FeedAllBottomed(Feed(c, ps[0]), ps[1..]);
    } else {
      assert ps[1..] == [];
    }
  }

  lemma NotStarted(c: Cfg)
    requires Bottomed(c)
    ensures c.Cfg? && c.ss != []
  {}

  /** After a finished request nothing more is accepted. */
  lemma DoneTakesNothing(c: Cfg, ps: seq<Piece>)
    requires Quiet(c) && Bottomed(c) && ps != [] && FeedAll(c, ps) != Bad
    ensures c.idx != 0
  {
    hide Feed, FeedAll;
    if c.idx == 0 {
      DoneRefuses(c, ps);
    }
  }

  lemma DoneRefuses(c: Cfg, ps: seq<Piece>)
    requires Quiet(c) && c.idx == 0 && c.ss != [] && ps != []
    ensures FeedAll(c, ps) == Bad
  {
    assert Feed(c, ps[0]) == Bad;
  }

  /** The state after the value pieces `g` have followed those that gave `c`. */
  function AfterPieces(e: C.Node, c: Cfg, g: seq<Piece>): (r: Req)
    requires Quiet(c) && FeedAll(c, g) != Bad && FeedAll(c, g).ss != []
    ensures ValidReq(r)
  {
    var d := FeedAll(c, g);
    Req(if d.ss[0].n == d.ss[0].exp then DonePhase else ValuePhase, 0, [], Some(e), d)
  }

  lemma TakeValueFeeds(r: Req, e: C.Node, g: seq<Piece>)
    requires r.Req? && r.codeLen == 0 && r.codeBuf == [] && r.e == Some(e) && Quiet(r.val)
    requires FeedAll(r.val, g) != Bad && FeedAll(r.val, g).ss != []
    requires forall k :: 0 <= k < |g| ==> PieceOk(g[k])
    ensures TakeValue(r, AllBytes(g)) == AfterPieces(e, r.val, g)
  {
    hide FeedAll, Read, AllBytes;
    ReadFeeds(AllBytes(g), 0, r.val, g);
  }

  lemma FeedAllBad(ps: seq<Piece>)
    ensures FeedAll(Bad, ps) == Bad
  {}

  /** The segments after the code: one for each group of pieces. */
  lemma {:induction false} ValueSegments(e: C.Node, c: Cfg, g: seq<Piece>, groups: seq<seq<Piece>>)
    requires Quiet(c) && g != [] && (forall k :: 0 <= k < |groups| ==> groups[k] != [])
    requires FeedAll(c, g + Flatten(groups)) != Bad
    requires if c.ss == [] then g[0].Open? && g[0].kind == T_LIST else Bottomed(c)
    requires forall k :: 0 <= k < |Flatten(groups)| ==> PieceOk(Flatten(groups)[k])
    ensures FeedAll(c, g) != Bad && FeedAll(c, g).ss != []
    ensures FeedAll(c, g + Flatten(groups)).ss != []
    ensures Segments(AfterPieces(e, c, g), Buffers(groups)) == AfterPieces(e, c, g + Flatten(groups))
    decreases |groups|
  {
    hide Feed, FeedAll, Read, AllBytes, PieceOk, Quiet, TakeValue;
    FeedSplit(c, g, Flatten(groups));
    FeedAllBad(Flatten(groups));
    FeedAllBottomed(c, g);
    var d := FeedAll(c, g);
    if groups == [] {
      assert g + Flatten(groups) == g;
    } else {
      var h, rest := groups[0], Flatten(groups[1..]);
      assert Flatten(groups) == h + rest;
      assert g + Flatten(groups) == (g + h) + rest;
      DoneTakesNothing(d, Flatten(groups));
      FeedSplit(c, g, h);
      FeedSplit(c, g + h, rest);
      FeedAllBad(rest);
      FeedAllBottomed(c, g + h);
      assert forall k :: 0 <= k < |h| ==> h[k] == Flatten(groups)[k];
      assert forall k :: 0 <= k < |rest| ==> rest[k] == Flatten(groups)[|h| + k];
      var r := AfterPieces(e, c, g);
      TakeValueFeeds(r, e, h);
      assert Segment(r, AllBytes(h)) == AfterPieces(e, c, g + h);
      assert Buffers(groups)[1..] == Buffers(groups[1..]) && Buffers(groups)[0] == AllBytes(h);
      ValueSegments(e, c, g + h, groups[1..]);
    }
  }

  function Joined(cuts: seq<seq<Byte>>): seq<Byte> {
    if cuts == [] then [] else cuts[0] + Joined(cuts[1..])
  }

  /** The cuts of the code, with the first value bytes behind the last one. */
  function CodeSegments(cuts: seq<seq<Byte>>, first: seq<Byte>): (segs: seq<seq<Byte>>)
    requires cuts != []
    ensures |segs| == |cuts|
  {
    cuts[..|cuts| - 1] + [cuts[|cuts| - 1] + first]
  }

  lemma {:induction false} JoinedLast(cuts: seq<seq<Byte>>)
    requires cuts != []
    ensures |cuts[|cuts| - 1]| <= |Joined(cuts)|
  {
    if |cuts| > 1 {
      JoinedLast(cuts[1..]);
    } else {
      assert Joined(cuts) == cuts[0] + Joined(cuts[1..]);
    }
  }

  /** A cut that does not complete the code is only kept. */
  lemma KeepCut(r: Req, x: seq<Byte>)
    requires ValidReq(r) && r.Req? && |r.codeBuf| + |x| < r.codeLen
    ensures TakeCode(r, x) == r.(phase := CodePhase, codeBuf := r.codeBuf + x)
  {
    hide C.Parse, TakeValue;
    assert x[..|x|] == x;
  }

  /** The cut that completes it gives the expression, and what follows goes to the values. */
  lemma LastCut(r: Req, e: C.Node, x: seq<Byte>, first: seq<Byte>)
    requires ValidReq(r) && r.Req?
    requires C.Sendable(e) && C.InWidth(e) && C.Readable(e)
    requires r.codeBuf + x == C.Write(e) && r.codeLen == |C.Write(e)|
    ensures TakeCode(r, x + first) == TakeValue(Req(ValuePhase, 0, [], Some(e), r.val), first)
  {
    C.RoundTrip(e, []);
    hide C.Parse, TakeValue, C.Write, C.Readable;
    assert C.Write(e) + [] == C.Write(e);
    assert (x + first)[..|x|] == x && (x + first)[|x|..] == first;
  }

  /** The rest of the code, in any cuts, and the first value pieces. */
  lemma {:induction false} CodeCuts(r: Req, e: C.Node, cuts: seq<seq<Byte>>, g: seq<Piece>)
    requires ValidReq(r) && r.Req? && r.phase == CodePhase && r.val == Cfg([], 0)
    requires C.Sendable(e) && C.InWidth(e) && C.Readable(e)
    requires cuts != [] && cuts[|cuts| - 1] != []
    requires r.codeBuf + Joined(cuts) == C.Write(e) && r.codeLen == |C.Write(e)|
    requires FeedAll(Cfg([], 0), g) != Bad && FeedAll(Cfg([], 0), g).ss != []
    requires forall k :: 0 <= k < |g| ==> PieceOk(g[k])
    ensures Segments(r, CodeSegments(cuts, AllBytes(g))) == AfterPieces(e, Cfg([], 0), g)
    decreases |cuts|
  {
    hide TakeCode, TakeValue, AllBytes, C.Write, C.Readable, C.Sendable, C.InWidth, FeedAll;
    var first, segs := AllBytes(g), CodeSegments(cuts, AllBytes(g));
    if |cuts| == 1 {
      assert Joined(cuts) == cuts[0] + Joined(cuts[1..]) && Joined(cuts[1..]) == [];
      LastCut(r, e, cuts[0], first);
      TakeValueFeeds(Req(ValuePhase, 0, [], Some(e), r.val), e, g);
      assert segs == [cuts[0] + first] && segs[1..] == [];
    } else {
      JoinedLast(cuts[1..]);
      KeepCut(r, cuts[0]);
      Assoc(r.codeBuf, cuts[0], Joined(cuts[1..]));
      assert segs[0] == cuts[0] && segs[1..] == CodeSegments(cuts[1..], first);
      CodeCuts(r.(codeBuf := r.codeBuf + cuts[0]), e, cuts[1..], g);
    }
  }

  /** The segments of a request: the length of the code and its first cut, the other cuts, then the value pieces. */
  function Message(e: C.Node, cuts: seq<seq<Byte>>, groups: seq<seq<Piece>>): seq<seq<Byte>>
    requires C.Sendable(e) && cuts != [] && groups != []
  {
    var cs := CodeSegments(cuts, AllBytes(groups[0]));
    [Word(C.CodeLength(e)) + cs[0]] + (cs[1..] + Buffers(groups[1..]))
  }

  /** The first segment sets the length and goes on as a segment of code. */
  lemma FirstSegment(n: nat, x: seq<Byte>, rest: seq<seq<Byte>>)
    requires n < TWO64
    ensures Segments(Start(), [Word(n) + x] + rest) == Segments(Req(CodePhase, n, [], None, Cfg([], 0)), [x] + rest)
  {
    TakeWord(n, x);
    hide Read, C.Parse, TakeValue, Word;
    var seg := Word(n) + x;
    assert seg[..8] == Word(n) && seg[8..] == x;
    Widths();
    UnLEofLE(n, 8);
    assert Segment(Start(), seg) == Segment(Req(CodePhase, n, [], None, Cfg([], 0)), x);
    assert ([seg] + rest)[1..] == rest && ([x] + rest)[1..] == rest;
  }

  /**
   * A request is rebuilt from every segmentation whose first segment holds the length word and whose
   * code-completing segment also carries value pieces.
   */
  lemma AnySegmentationRebuilds(e: C.Node, v: Value, cuts: seq<seq<Byte>>, groups: seq<seq<Piece>>)
    requires C.Sendable(e) && C.InWidth(e) && C.Readable(e) && C.Narrow(e) && |C.Write(e)| < TWO64
    requires Proper(v) && v.List?
    requires cuts != [] && Joined(cuts) == C.Write(e) && cuts[|cuts| - 1] != []
    requires groups != [] && (forall k :: 0 <= k < |groups| ==> groups[k] != []) && Flatten(groups) == Pieces(v)
    ensures Segments(Start(), Message(e, cuts, groups)) == Req(DonePhase, 0, [], Some(e), Cfg([Finished(v)], 0))
  {
    var g := groups[0];
    ValueGroups(e, v, groups);
    C.LengthExact(e);
    hide *;
    WholeCode(e, v, cuts, groups);
    AfterAll(e, v, groups);
  }

  /** The value pieces in groups: all acceptable, the first one opening the list. */
  lemma ValueGroups(e: C.Node, v: Value, groups: seq<seq<Piece>>)
    requires Proper(v) && v.List? && groups != [] && Flatten(groups) == Pieces(v)
    requires forall k :: 0 <= k < |groups| ==> groups[k] != []
    ensures forall k :: 0 <= k < |groups[0]| ==> PieceOk(groups[0][k])
    ensures FeedAll(Cfg([], 0), groups[0]) != Bad && FeedAll(Cfg([], 0), groups[0]).ss != []
    ensures FeedAll(Cfg([], 0), Pieces(v)) == Cfg([Finished(v)], 0)
    ensures Segments(AfterPieces(e, Cfg([], 0), groups[0]), Buffers(groups[1..])) == AfterPieces(e, Cfg([], 0), Pieces(v))
  {
    var g, later := groups[0], Flatten(groups[1..]);
    GroupFacts(v, groups);
    assert Quiet(Cfg([], 0)) && forall k :: 0 <= k < |groups[1..]| ==> groups[1..][k] != [];
    hide Pieces, FeedAll, PieceOk, Flatten, Segments, Segment, Buffers, Proper, AfterPieces, Finished;
    ValueSegments(e, Cfg([], 0), g, groups[1..]);
  }

  lemma GroupFacts(v: Value, groups: seq<seq<Piece>>)
    requires Proper(v) && v.List? && groups != [] && Flatten(groups) == Pieces(v)
    requires groups[0] != []
    ensures var g, later := groups[0], Flatten(groups[1..]);
            && Pieces(v) == g + later && g[0] == Open(T_LIST, |v.elts|)
            && (forall k :: 0 <= k < |g| ==> PieceOk(g[k]))
            && (forall k :: 0 <= k < |later| ==> PieceOk(later[k]))
            && FeedAll(Cfg([], 0), Pieces(v)) == Cfg([Finished(v)], 0)
  {
    var g, later := groups[0], Flatten(groups[1..]);
    PiecesBuild(v, []);
    assert [] + [Finished(v)] == [Finished(v)];
    PiecesOk(v);
    assert Pieces(v)[0] == Open(T_LIST, |v.elts|);
    hide Pieces, Proper, FeedAll, PieceOk;
    assert Flatten(groups) == g + later;
    assert forall k :: 0 <= k < |g| ==> g[k] == Flatten(groups)[k];
    assert forall k :: 0 <= k < |later| ==> later[k] == Flatten(groups)[|g| + k];
  }

  lemma AfterAll(e: C.Node, v: Value, groups: seq<seq<Piece>>)
    requires FeedAll(Cfg([], 0), Pieces(v)) == Cfg([Finished(v)], 0) && v.List?
    ensures AfterPieces(e, Cfg([], 0), Pieces(v)) == Req(DonePhase, 0, [], Some(e), Cfg([Finished(v)], 0))
  {
    hide Pieces, FeedAll;
  }

  lemma WholeCode(e: C.Node, v: Value, cuts: seq<seq<Byte>>, groups: seq<seq<Piece>>)
    requires C.Sendable(e) && C.InWidth(e) && C.Readable(e) && C.CodeLength(e) == |C.Write(e)| < TWO64
    requires cuts != [] && Joined(cuts) == C.Write(e) && cuts[|cuts| - 1] != [] && groups != []
    requires forall k :: 0 <= k < |groups[0]| ==> PieceOk(groups[0][k])
    requires FeedAll(Cfg([], 0), groups[0]) != Bad && FeedAll(Cfg([], 0), groups[0]).ss != []
    ensures Segments(Start(), Message(e, cuts, groups))
            == Segments(AfterPieces(e, Cfg([], 0), groups[0]), Buffers(groups[1..]))
  {
    hide C.Write, C.Readable, C.Sendable, C.InWidth, C.CodeLength, Word, AllBytes, FeedAll, PieceOk, Segment, Segments, Buffers, Joined;
    var g, later := groups[0], Buffers(groups[1..]);
    var r := Req(CodePhase, |C.Write(e)|, [], None, Cfg([], 0));
    assert [] + Joined(cuts) == Joined(cuts);
    CodeCuts(r, e, cuts, g);
    var cs := CodeSegments(cuts, AllBytes(g));
    hide CodeSegments, AfterPieces;
    FirstSegment(|C.Write(e)|, cs[0], cs[1..] + later);
    HeadTail(cs, later);
    SegmentsSplit(r, cs, later);
  }

  lemma HeadTail(cs: seq<seq<Byte>>, later: seq<seq<Byte>>)
    requires cs != []
    ensures [cs[0]] + (cs[1..] + later) == cs + later
  {}

  /** The state of one request, fed segment by segment. */
  class ReqState {
    var state: Phase
    var codeLen: nat
    var codeBuf: seq<Byte>
    var e: Option<C.Node>
    const reader: Reader

    constructor ()
      ensures fresh(reader) && State() == Start()
    {
      state, codeLen, codeBuf, e := IdlePhase, 0, [], None;
      reader := new Reader();
    }

    ghost function State(): Req
      reads this, reader
    {
      Req(state, codeLen, codeBuf, e, reader.State())
    }

    method ReadValues(data: seq<Byte>) returns (ok: bool)
      requires ValidReq(State())
      modifies this, reader
      ensures ok ==> ValidReq(State())
      ensures TakeValue(old(State()), data) == if ok then State() else Failed
      ensures ok ==> codeBuf == old(codeBuf)
    {
      hide Read;
      var read := reader.ReadValue(data);
      if !read || reader.ss == [] {
        return false;
      }
      state := if reader.ss[0].n == reader.ss[0].exp then DonePhase else ValuePhase;
      ok := true;
    }

    method ReadCodeAndValues(data: seq<Byte>) returns (ok: bool)
      requires ValidReq(State()) && |codeBuf| <= codeLen
      modifies this, reader
      ensures ok ==> ValidReq(State())
      ensures TakeCode(old(State()), data) == if ok then State() else Failed
    {
      hide Read, C.Parse;
      var lenToCopy := if |codeBuf| + |data| >= codeLen then codeLen - |codeBuf| else |data|;
      codeBuf := codeBuf + data[..lenToCopy];
      if |codeBuf| != codeLen {
        state := CodePhase;
        return true;
      }
      var r, o := CodeStream.ReadCode(codeBuf, 0);
      assert codeBuf[0..] == codeBuf;
      if r == None {
        return false;
      }
      e, codeBuf, codeLen, state := r, [], 0, ValuePhase;
      hide TakeValue;
      ok := ReadValues(data[lenToCopy..]);
    }

    /** `ok` is false where the source throws; nothing is then said of the state. */
    method ReadData(buf: seq<Byte>) returns (ok: bool)
      requires ValidReq(State())
      modifies this, reader
      ensures ok ==> ValidReq(State())
      ensures Segment(old(State()), buf) == if ok then State() else Failed
    {
      hide TakeCode, TakeValue, UnLE;
      match state {
        case IdlePhase =>
          if |buf| < 8 {
            return false;
          }
          codeLen := UnLE(buf[..8]);
          ok := ReadCodeAndValues(buf[8..]);
        case CodePhase => ok := ReadCodeAndValues(buf);
        case ValuePhase => ok := ReadValues(buf);
        case DonePhase => ok := false;
      }
    }
  }
}
