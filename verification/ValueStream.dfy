/** Decoding a value that arrives in any number of buffers. */
module ValueStream {
  import opened Wrappers
  import opened Wire
  import opened Values

  predicate PieceOk(p: Piece) {
    match p
    case Atom(v) => Proper(v) && !IsCompound(v)
    case Open(t, n) => n < TWO64 && (t == T_LIST || t == T_NAMED || IsArray(t))
    case Elem(w) => w < TWO64
  }

  /** Reductions happen without reading, wherever the buffer stands. */
  lemma {:induction false} ReadSettles(buf: seq<Byte>, off: nat, ss: seq<Frame>, idx: nat)
    requires off <= |buf| && idx <= |ss| && Settle(ss, idx) != Bad
    ensures Read(buf, off, Cfg(ss, idx)) == Read(buf, off, Settle(ss, idx))
    decreases |ss| + idx, if 0 < idx && ss[idx - 1].stage == 0 then 1 else 0
  {
    if !Quiet(Cfg(ss, idx)) {
      var d := Reduce(ss, idx);
      assert LoopTurn(buf, off, ss, idx) == Go(off, d);
      hide Reduce, LoopTurn;
      ReadSettles(buf, off, d.ss, d.idx);
    }
  }

  /** In the middle of an array the turn is a stretch of elements. */
  lemma InArrayTurn(buf: seq<Byte>, off: nat, c: Cfg)
    requires InArray(c) && off <= |buf|
    ensures LoopTurn(buf, off, c.ss, c.idx) == RunTurn(buf, off, c.ss, c.idx)
  {
    hide RunTurn, IntTurn, TextTurn, Reduce;
  }

  lemma EndTurn(buf: seq<Byte>, c: Cfg)
    requires InArray(c)
    ensures LoopTurn(buf, |buf|, c.ss, c.idx) == Return(|buf|, c)
  {
    InArrayTurn(buf, |buf|, c);
    RunTurnIs(buf, |buf|, c, [], []);
    hide LoopTurn, RunTurn;
    var f := c.ss[c.idx - 1];
    assert f.val.data + [] == f.val.data && c.ss[c.idx - 1 := f] == c.ss;
  }

  lemma ReadAtEnd(buf: seq<Byte>, c: Cfg)
    requires Quiet(c)
    ensures Read(buf, |buf|, c) == c
  {
    hide LoopTurn;
    if 0 < c.idx < |c.ss| {
      EndTurn(buf, c);
    }
  }

  lemma WordAt(buf: seq<Byte>, off: nat, n: nat)
    requires n < TWO64 && off + 8 <= |buf| && buf[off..off + 8] == Word(n)
    ensures UnLE(buf[off..off + 8]) == n
  {
    Widths();
    UnLEofLE(n, 8);
  }

  /** The bytes of `part` stand at `off`. */
  predicate At(buf: seq<Byte>, off: nat, part: seq<Byte>) {
    off + |part| <= |buf| && buf[off..off + |part|] == part
  }

  lemma AtSplit(buf: seq<Byte>, off: nat, x: seq<Byte>, y: seq<Byte>)
    requires At(buf, off, x + y)
    ensures At(buf, off, x) && At(buf, off + |x|, y)
  {
    var w := buf[off..off + |x| + |y|];
    assert buf[off..off + |x|] == w[..|x|] && buf[off + |x|..off + |x| + |y|] == w[|x|..];
  }

  lemma HeaderAt(buf: seq<Byte>, off: nat, t: nat, n: nat)
    requires t < TWO64 && n < TWO64 && At(buf, off, Header(t, n))
    ensures UnLE(buf[off..off + 8]) == t && UnLE(buf[off + 8..off + 16]) == n
  {
    hide Word;
    AtSplit(buf, off, Word(t), Word(n));
    WordAt(buf, off, t);
    WordAt(buf, off + 8, n);
  }

  lemma {:induction false} WordsBack(xs: seq<nat>)
    requires forall k :: 0 <= k < |xs| ==> xs[k] < TWO64
    ensures UnWords(Words(xs)) == xs
  {
    if xs != [] {
      var w := Words(xs);
      assert w[..8] == Word(xs[0]) && w[8..] == Words(xs[1..]);
      Widths();
      UnLEofLE(xs[0], 8);
      WordsBack(xs[1..]);
    }
  }

  /** An atom is read with its header in one turn. */
  lemma AtomTurn(buf: seq<Byte>, off: nat, ss: seq<Frame>, v: Value)
    requires Proper(v) && !IsCompound(v) && At(buf, off, Bytes(Atom(v)))
    ensures LoopTurn(buf, off, ss, |ss|) == Go(off + |Bytes(Atom(v))|, Cfg(ss + [Finished(v)], |ss|))
  {
    hide LoopTurn, Word, Words, Padded, Header;
    match v
    case StdString(s) => StringTurn(buf, off, ss, s);
    case Error(s) => ErrorTurn(buf, off, ss, s);
    case StdInt(xs) => IntsTurn(buf, off, ss, xs);
    case Null => NullTurn(buf, off, ss);
  }

  lemma AtomHeader(buf: seq<Byte>, off: nat, ss: seq<Frame>, t: nat, n: nat)
    requires off + 16 <= |buf| && UnLE(buf[off..off + 8]) == t && UnLE(buf[off + 8..off + 16]) == n
    requires IsAtomic(t)
    ensures LoopTurn(buf, off, ss, |ss|) == SwitchTurn(buf, off + 16, ss + [Frame(MakeValue(t).value, n, 0, 0)], |ss| + 1)
  {
    hide SwitchTurn, UnLE;
  }

  lemma FreshText(buf: seq<Byte>, o: nat, ss: seq<Frame>, v: Value, s: seq<Byte>)
    requires v.StdString? || v.Error?
    requires o + Aligned(|s|) <= |buf| && buf[o..o + |s|] == s
    ensures SwitchTurn(buf, o, ss + [Frame(v, |s|, 0, 0)], |ss| + 1)
            == Go(o + Aligned(|s|), Cfg(ss + [Frame(WithText(v, 0, s), |s|, Aligned(|s|), 1)], |ss|))
  {
    hide IntTurn, RunTurn, Reduce, WithText;
    LastPut(ss, Frame(v, |s|, 0, 0), Frame(WithText(v, 0, s), |s|, Aligned(|s|), 1));
  }

  lemma StringTurn(buf: seq<Byte>, off: nat, ss: seq<Frame>, s: seq<Byte>)
    requires Aligned(|s|) < TWO32 && At(buf, off, Header(T_STRING, |s|) + Padded(s))
    ensures LoopTurn(buf, off, ss, |ss|) == Go(off + (16 + Aligned(|s|)), Cfg(ss + [Finished(StdString(s))], |ss|))
  {
    hide LoopTurn, SwitchTurn;
    TextAt(buf, off, T_STRING, s);
    AtomHeader(buf, off, ss, T_STRING, |s|);
    FreshText(buf, off + 16, ss, StdString([]), s);
  }

  lemma ErrorTurn(buf: seq<Byte>, off: nat, ss: seq<Frame>, s: seq<Byte>)
    requires Aligned(|s|) < TWO32 && At(buf, off, Header(T_ERROR, |s|) + Padded(s))
    ensures LoopTurn(buf, off, ss, |ss|) == Go(off + (16 + Aligned(|s|)), Cfg(ss + [Finished(Error(s))], |ss|))
  {
    hide LoopTurn, SwitchTurn;
    TextAt(buf, off, T_ERROR, s);
    AtomHeader(buf, off, ss, T_ERROR, |s|);
    FreshText(buf, off + 16, ss, Error([]), s);
  }

  lemma FreshInts(buf: seq<Byte>, o: nat, ss: seq<Frame>, bs: seq<Byte>, xs: seq<nat>)
    requires At(buf, o, bs) && UnWords(bs) == xs && |bs| == 8 * |xs|
    ensures SwitchTurn(buf, o, ss + [Frame(StdInt([]), |xs|, 0, 0)], |ss| + 1)
            == PutInts(o, ss + [Frame(StdInt([]), |xs|, 0, 0)], |ss| + 1, xs)
  {
    hide TextTurn, RunTurn, Reduce, UnWords, Advances, PutInts;
  }

  lemma AllInts(o: nat, ss: seq<Frame>, xs: seq<nat>)
    ensures PutInts(o, ss + [Frame(StdInt([]), |xs|, 0, 0)], |ss| + 1, xs)
            == Go(o + 8 * |xs|, Cfg(ss + [Finished(StdInt(xs))], |ss|))
  {
    assert [] + xs == xs;
    LastPut(ss, Frame(StdInt([]), |xs|, 0, 0), Frame(StdInt(xs), |xs|, |xs|, 0));
  }

  lemma IntFacts(xs: seq<nat>)
    requires Proper(StdInt(xs))
    ensures |xs| < TWO64 && forall k :: 0 <= k < |xs| ==> xs[k] < TWO64
    ensures MakeValue(T_INT) == Some(StdInt([])) && IsAtomic(T_INT) && T_INT < TWO64 && |Header(T_INT, |xs|)| == 16
  {
    hide Words, Word;
  }

  lemma IntsTurn(buf: seq<Byte>, off: nat, ss: seq<Frame>, xs: seq<nat>)
    requires Proper(StdInt(xs)) && At(buf, off, Header(T_INT, |xs|) + Words(xs))
    ensures LoopTurn(buf, off, ss, |ss|) == Go(off + (16 + 8 * |xs|), Cfg(ss + [Finished(StdInt(xs))], |ss|))
  {
    hide *;
    IntFacts(xs);
    AtSplit(buf, off, Header(T_INT, |xs|), Words(xs));
    HeaderAt(buf, off, T_INT, |xs|);
    WordsBack(xs);
    AtomHeader(buf, off, ss, T_INT, |xs|);
    FreshInts(buf, off + 16, ss, Words(xs), xs);
    AllInts(off + 16, ss, xs);
  }

  lemma NullTurn(buf: seq<Byte>, off: nat, ss: seq<Frame>)
    requires At(buf, off, Header(T_NULL, 0))
    ensures LoopTurn(buf, off, ss, |ss|) == Go(off + 16, Cfg(ss + [Finished(Null)], |ss|))
  {
    HeaderAt(buf, off, T_NULL, 0);
    hide UnLE, IntTurn, TextTurn, RunTurn, Reduce;
  }

  lemma LastPut(ss: seq<Frame>, f: Frame, g: Frame)
    ensures (ss + [f])[|ss| := g] == ss + [g]
  {}

  lemma TextAt(buf: seq<Byte>, off: nat, t: nat, s: seq<Byte>)
    requires t < TWO64 && Aligned(|s|) < TWO32 && At(buf, off, Header(t, |s|) + Padded(s))
    ensures UnLE(buf[off..off + 8]) == t && UnLE(buf[off + 8..off + 16]) == |s|
    ensures off + 16 + Aligned(|s|) <= |buf| && buf[off + 16..off + 16 + |s|] == s
  {
    hide Word, UnLE, Header;
    AtSplit(buf, off, Header(t, |s|), Padded(s));
    HeaderAt(buf, off, t, |s|);
    AtSplit(buf, off + 16, s, seq(Aligned(|s|) - |s|, _ => 0));
  }

  /** The header of a compound value that has parts to come, or of an empty list. */
  lemma OpenTurn(buf: seq<Byte>, off: nat, ss: seq<Frame>, t: nat, n: nat)
    requires PieceOk(Open(t, n)) && At(buf, off, Header(t, n)) && (IsArray(t) || t == T_LIST || n != 0)
    ensures LoopTurn(buf, off, ss, |ss|)
            == Go(off + 16, Cfg(ss + [Frame(MakeValue(t).value, n, 0, 0)], if IsArray(t) || n != 0 then |ss| + 1 else |ss|))
  {
    hide Word, UnLE, Header;
    HeaderAt(buf, off, t, n);
  }

  /** A stretch of array elements, up to the end of the array or of the buffer. */
  lemma RunRead(buf: seq<Byte>, off: nat, c: Cfg, ws: seq<nat>)
    requires InArray(c) && At(buf, off, Words(ws)) && forall k :: 0 <= k < |ws| ==> ws[k] < TWO64
    requires var f := c.ss[c.idx - 1];
             |ws| == f.exp - f.n || (|ws| < f.exp - f.n && off + 8 * |ws| == |buf|)
    requires 0 < |ws| && AfterRun(c, ws) != Bad
    ensures Read(buf, off, c)
            == if |ws| == c.ss[c.idx - 1].exp - c.ss[c.idx - 1].n then Read(buf, off + 8 * |ws|, AfterRun(c, ws)) else AfterRun(c, ws)
  {
    hide LoopTurn, Settle, RunTurn, UnWords, Words;
    var g := WithData(c.ss[c.idx - 1], ws);
    WordsBack(ws);
    InArrayTurn(buf, off, c);
    RunTurnIs(buf, off, c, Words(ws), ws);
    if g.n == g.exp {
      ReadSettles(buf, off + 8 * |ws|, c.ss[..|c.ss| - 1][c.idx - 1 := g], c.idx - 1);
    }
  }

  lemma RunTurnIs(buf: seq<Byte>, off: nat, c: Cfg, bs: seq<Byte>, ws: seq<nat>)
    requires InArray(c) && At(buf, off, bs) && UnWords(bs) == ws && |bs| == 8 * |ws|
    requires var f := c.ss[c.idx - 1];
             |ws| == f.exp - f.n || (|ws| < f.exp - f.n && off + 8 * |ws| == |buf|)
    ensures RunTurn(buf, off, c.ss, c.idx) == PutRun(|buf|, off, c.ss, c.idx, ws)
  {
    hide UnWords, PutRun, Advances, Bounded, UnLE, Settle, WithData, FeedAll;
    var f := c.ss[c.idx - 1];
    WholeWords(|buf| - off, f.exp - f.n, |ws|);
  }

  lemma WholeWords(left: nat, want: nat, m: nat)
    requires 8 * m <= left && (m == want || (m < want && 8 * m == left))
    ensures Min(want, left / 8) == m
  {}

  /** While an array is incomplete, only elements are accepted. */
  lemma {:induction false} OnlyElems(c: Cfg, ps: seq<Piece>) returns (ws: seq<nat>)
    requires InArray(c) && FeedAll(c, ps) != Bad && forall k :: 0 <= k < |ps| ==> PieceOk(ps[k])
    ensures |ws| == Min(c.ss[c.idx - 1].exp - c.ss[c.idx - 1].n, |ps|)
    ensures ps[..|ws|] == Elems(ws) && forall k :: 0 <= k < |ws| ==> ws[k] < TWO64
    decreases |ps|
  {
    if ps == [] {
      return [];
    }
    assert ps[0].Elem?;
    var d := Feed(c, ps[0]);
    ws := [ps[0].w];
    if c.ss[c.idx - 1].exp - c.ss[c.idx - 1].n > 1 {
      hide Settle;
      var rest := OnlyElems(d, ps[1..]);
      ws := ws + rest;
      assert ps[..|ws|] == [ps[0]] + ps[1..][..|rest|];
      assert Elems(ws) == [ps[0]] + Elems(rest);
    } else {
      assert ps[..1] == Elems(ws);
    }
  }

  lemma Assoc(x: seq<Byte>, y: seq<Byte>, z: seq<Byte>)
    ensures (x + y) + z == x + (y + z)
  {}

  /** Two parts that fill the rest of a buffer. */
  lemma Halves(buf: seq<Byte>, off: nat, x: seq<Byte>, y: seq<Byte>)
    requires off <= |buf| && buf[off..] == x + y
    ensures At(buf, off, x) && buf[off + |x|..] == y && off + |x| + |y| == |buf|
  {
    assert buf[off..][..|x|] == x && buf[off..][|x|..] == y;
  }

  lemma {:induction false} BytesSplit(ps: seq<Piece>, qs: seq<Piece>)
    ensures AllBytes(ps + qs) == AllBytes(ps) + AllBytes(qs)
  {
    hide Bytes;
    if ps == [] {
      assert ps + qs == qs;
    } else {
      BytesSplit(ps[1..], qs);
      assert (ps + qs)[1..] == ps[1..] + qs && (ps + qs)[0] == ps[0];
      Assoc(Bytes(ps[0]), AllBytes(ps[1..]), AllBytes(qs));
    }
  }

  lemma {:induction false} ElemBytes(ws: seq<nat>)
    ensures AllBytes(Elems(ws)) == Words(ws)
  {
    if ws != [] {
      ElemBytes(ws[1..]);
      assert Elems(ws)[1..] == Elems(ws[1..]);
    }
  }

  /** One call reads from a buffer of whole pieces exactly what the pieces say. */
  lemma {:induction false} ReadFeeds(buf: seq<Byte>, off: nat, c: Cfg, ps: seq<Piece>)
    requires Quiet(c) && FeedAll(c, ps) != Bad && forall k :: 0 <= k < |ps| ==> PieceOk(ps[k])
    requires off <= |buf| && buf[off..] == AllBytes(ps)
    ensures Read(buf, off, c) == FeedAll(c, ps)
    decreases |ps|, 1
  {
    if ps == [] {
      ReadAtEnd(buf, c);
    } else if c.idx == |c.ss| {
      WaitingFeeds(buf, off, c, ps);
    } else {
      assert c.idx != 0;
      RunFeeds(buf, off, c, ps);
    }
  }

  lemma AtomFacts(buf: seq<Byte>, off: nat, c: Cfg, v: Value)
    requires Quiet(c) && PieceOk(Atom(v)) && At(buf, off, Bytes(Atom(v)))
    ensures c.Cfg? && c.idx <= |c.ss| && Proper(v) && !IsCompound(v)
    ensures off < off + |Bytes(Atom(v))| <= |buf|
  {
    hide Words, Padded, Proper, UnLE, Word;
  }

  /** A value without parts: header and contents, and the reductions that it allows. */
  lemma AtomFed(buf: seq<Byte>, off: nat, c: Cfg, v: Value)
    requires Quiet(c) && c.idx == |c.ss| && PieceOk(Atom(v)) && Feed(c, Atom(v)) != Bad
    requires At(buf, off, Bytes(Atom(v)))
    ensures Read(buf, off, c) == Read(buf, off + |Bytes(Atom(v))|, Feed(c, Atom(v)))
  {
    hide *;
    AtomFacts(buf, off, c, v);
    var o, d := off + |Bytes(Atom(v))|, Cfg(c.ss + [Finished(v)], |c.ss|);
    AtomTurn(buf, off, c.ss, v);
    FeedAtom(c.ss, v);
    TurnRead(buf, off, c, o, d);
    ReadSettles(buf, o, c.ss + [Finished(v)], |c.ss|);
  }

  /** A turn that goes on. */
  lemma TurnRead(buf: seq<Byte>, off: nat, c: Cfg, o: nat, d: Cfg)
    requires off < |buf| && c.Cfg? && c.idx <= |c.ss| && LoopTurn(buf, off, c.ss, c.idx) == Go(o, d)
    ensures o <= |buf| && d.Cfg? && d.idx <= |d.ss| && Read(buf, off, c) == Read(buf, o, d)
  {
    hide LoopTurn;
  }

  /** The header of a value with parts. */
  lemma OpenFed(buf: seq<Byte>, off: nat, c: Cfg, t: nat, n: nat)
    requires Quiet(c) && c.idx == |c.ss| && PieceOk(Open(t, n)) && Feed(c, Open(t, n)) != Bad
    requires At(buf, off, Bytes(Open(t, n)))
    ensures Read(buf, off, c) == Read(buf, off + |Bytes(Open(t, n))|, Feed(c, Open(t, n)))
  {
    hide LoopTurn, Word, Words, Header, Padded, Settle, Reduce, UnLE, LE;
    OpenTurn(buf, off, c.ss, t, n);
    if !IsArray(t) && n == 0 { ReadSettles(buf, off + |Bytes(Open(t, n))|, c.ss + [Frame(List([]), 0, 0, 0)], |c.ss|); }
  }

  lemma FirstPiece(c: Cfg, ps: seq<Piece>)
    requires Quiet(c) && c.idx == |c.ss| && ps != [] && FeedAll(c, ps) != Bad
    ensures var d := Feed(c, ps[0]); FeedAll(c, ps) == FeedAll(d, ps[1..]) && d.Cfg? && d.idx <= |d.ss| && Quiet(d) && !ps[0].Elem?
    ensures AllBytes(ps) == Bytes(ps[0]) + AllBytes(ps[1..])
  {
    hide Settle, Bytes;
  }

  lemma {:induction false} WaitingFeeds(buf: seq<Byte>, off: nat, c: Cfg, ps: seq<Piece>)
    requires Quiet(c) && c.idx == |c.ss| && ps != []
    requires FeedAll(c, ps) != Bad && forall k :: 0 <= k < |ps| ==> PieceOk(ps[k])
    requires off <= |buf| && buf[off..] == AllBytes(ps)
    ensures Read(buf, off, c) == FeedAll(c, ps)
    decreases |ps|, 0
  {
    hide *;
    FirstPiece(c, ps);
    var p, o := ps[0], off + |Bytes(ps[0])|;
    Halves(buf, off, Bytes(p), AllBytes(ps[1..]));
    var d := Feed(c, p);
    match p {
      case Atom(v) => AtomFed(buf, off, c, v);
      case Open(t, n) => OpenFed(buf, off, c, t, n);
    }
    ReadFeeds(buf, o, d, ps[1..]);
  }

  lemma {:induction false} RunFeeds(buf: seq<Byte>, off: nat, c: Cfg, ps: seq<Piece>)
    requires InArray(c) && ps != []
    requires FeedAll(c, ps) != Bad && forall k :: 0 <= k < |ps| ==> PieceOk(ps[k])
    requires off <= |buf| && buf[off..] == AllBytes(ps)
    ensures Read(buf, off, c) == FeedAll(c, ps)
    decreases |ps|, 0
  {
    hide LoopTurn, Word, Words, Settle, Reduce, Feed, Bytes, UnWords, AllBytes;
    var ws := OnlyElems(c, ps);
    RunBytes(buf, off, ps, ws);
    RunFed(c, ps, ws);
    hide FeedAll, AfterRun, At;
    RunRead(buf, off, c, ws);
    if |ws| == c.ss[c.idx - 1].exp - c.ss[c.idx - 1].n {
      ReadFeeds(buf, off + 8 * |ws|, AfterRun(c, ws), ps[|ws|..]);
    }
  }

  lemma RunBytes(buf: seq<Byte>, off: nat, ps: seq<Piece>, ws: seq<nat>)
    requires |ws| <= |ps| && ps[..|ws|] == Elems(ws) && off <= |buf| && buf[off..] == AllBytes(ps)
    ensures At(buf, off, Words(ws)) && buf[off + 8 * |ws|..] == AllBytes(ps[|ws|..])
    ensures |ws| == |ps| ==> off + 8 * |ws| == |buf|
  {
    hide Words, Bytes, Elems;
    var m := |ws|;
    assert ps == ps[..m] + ps[m..];
    BytesSplit(ps[..m], ps[m..]);
    ElemBytes(ws);
    if m == |ps| { assert AllBytes(ps[m..]) == []; }
    hide AllBytes;
    Halves(buf, off, Words(ws), AllBytes(ps[m..]));
  }

  lemma RunFed(c: Cfg, ps: seq<Piece>, ws: seq<nat>)
    requires InArray(c) && |ws| <= c.ss[c.idx - 1].exp - c.ss[c.idx - 1].n
    requires |ws| <= |ps| && ps[..|ws|] == Elems(ws)
    ensures FeedAll(c, ps) == FeedAll(AfterRun(c, ws), ps[|ws|..])
  {
    hide AfterRun, Feed, Elems, Settle;
    assert ps == ps[..|ws|] + ps[|ws|..];
    FeedSplit(c, ps[..|ws|], ps[|ws|..]);
    FeedRun(c, ws);
  }

  /** Successive calls, one for each buffer. */
  function Receive(c: Cfg, bufs: seq<seq<Byte>>): Cfg
    requires c.Cfg? ==> c.idx <= |c.ss|
    decreases |bufs|
  {
    if bufs == [] then c else Receive(Read(bufs[0], 0, c), bufs[1..])
  }

  function Flatten(groups: seq<seq<Piece>>): seq<Piece> {
    if groups == [] then [] else groups[0] + Flatten(groups[1..])
  }

  function Buffers(groups: seq<seq<Piece>>): (bufs: seq<seq<Byte>>)
    ensures |bufs| == |groups|
  {
    seq(|groups|, k requires 0 <= k < |groups| => AllBytes(groups[k]))
  }

  lemma {:induction false} ReceiveFeeds(c: Cfg, groups: seq<seq<Piece>>)
    requires Quiet(c) && FeedAll(c, Flatten(groups)) != Bad
    requires forall k :: 0 <= k < |Flatten(groups)| ==> PieceOk(Flatten(groups)[k])
    ensures Receive(c, Buffers(groups)) == FeedAll(c, Flatten(groups))
    decreases |groups|
  {
    if groups != [] {
      hide *;
      var g, rest := groups[0], Flatten(groups[1..]);
      FirstGroup(groups);
      FeedSplit(c, g, rest);
      NothingOfBad(rest);
      var d := FeedAll(c, g);
      ReadFeeds(AllBytes(g), 0, c, g);
      ReceiveFeeds(d, groups[1..]);
      ReceiveFirst(c, groups);
    } else {
      assert Flatten(groups) == [] && Buffers(groups) == [];
    }
  }

  lemma NothingOfBad(ps: seq<Piece>)
    ensures FeedAll(Bad, ps) == Bad
  {
    if ps != [] { NothingOfBad(ps[1..]); }
  }

  lemma FirstGroup(groups: seq<seq<Piece>>)
    requires groups != [] && forall k :: 0 <= k < |Flatten(groups)| ==> PieceOk(Flatten(groups)[k])
    ensures var g, rest := groups[0], Flatten(groups[1..]);
            && Flatten(groups) == g + rest
            && (forall k :: 0 <= k < |g| ==> PieceOk(g[k])) && (forall k :: 0 <= k < |rest| ==> PieceOk(rest[k]))
  {
    var g, rest := groups[0], Flatten(groups[1..]);
    var all := Flatten(groups);
    assert all == g + rest;
    hide PieceOk, Flatten;
    forall k | 0 <= k < |g| ensures PieceOk(g[k]) { assert g[k] == all[k]; }
    forall k | 0 <= k < |rest| ensures PieceOk(rest[k]) { assert rest[k] == all[|g| + k]; }
  }

  lemma ReceiveFirst(c: Cfg, groups: seq<seq<Piece>>)
    requires groups != [] && (c.Cfg? ==> c.idx <= |c.ss|)
    ensures Receive(c, Buffers(groups)) == Receive(Read(AllBytes(groups[0]), 0, c), Buffers(groups[1..]))
  {
    hide Read, AllBytes;
    assert Buffers(groups)[1..] == Buffers(groups[1..]);
  }

  lemma {:induction false} PiecesOk(v: Value)
    requires Proper(v)
    ensures forall k :: 0 <= k < |Pieces(v)| ==> PieceOk(Pieces(v)[k])
    decreases Level(v), v, 1
  {
    match v
    case List(es) => EltPiecesOk(es);
    case Named(n, x) => PiecesOk(n); PiecesOk(x);
    case Array(k, dim, names, ordered, data) =>
      ShapeLevel(dim, names, ordered);
      ShapeProper(dim, names, ordered, k, data);
      PiecesOk(Shape(dim, names, ordered));
    case StdString(_) =>
    case StdInt(_) =>
    case Error(_) =>
    case Null =>
  }

  lemma {:induction false} EltPiecesOk(es: seq<Elt>)
    requires forall k :: 0 <= k < |es| ==> Aligned(|es[k].name|) < TWO32 && Proper(es[k].val)
    ensures forall k :: 0 <= k < |EltPieces(es)| ==> PieceOk(EltPieces(es)[k])
    decreases EltsLevel(es), es, 0
  {
    if es != [] {
      PiecesOk(es[0].val);
      EltPiecesOk(es[1..]);
    }
  }

  /**
   * However the pieces of a value are spread over buffers, successive calls rebuild exactly that value
   * and leave it as the one finished entry of the stack.
   */
  lemma AnySplitRebuilds(v: Value, groups: seq<seq<Piece>>)
    requires Proper(v) && Flatten(groups) == Pieces(v)
    ensures Receive(Cfg([], 0), Buffers(groups)) == Cfg([Finished(v)], 0)
  {
    PiecesBuild(v, []);
    PiecesOk(v);
    assert [] + [Finished(v)] == [Finished(v)];
    hide Pieces, Feed;
    ReceiveFeeds(Cfg([], 0), groups);
  }

  /** The header of a text without its bytes leaves the decoder waiting, with nothing to say for what. */
  lemma HeaderAlone(n: nat)
    requires 0 < n < TWO64
    ensures Read(Header(T_STRING, n), 0, Cfg([], 0)) == Cfg([Frame(StdString([]), n, 0, 0)], 1)
  {
    var buf := Header(T_STRING, n);
    HeaderAt(buf, 0, T_STRING, n);
    AtomHeader(buf, 0, [], T_STRING, n);
    var f := Frame(StdString([]), n, 0, 0);
    assert [] + [f] == [f];
    hide LoopTurn, Header, UnLE;
    assert SwitchTurn(buf, 16, [f], 1) == Return(16, Cfg([f], 1));
  }

  lemma TextEncoding(s: seq<Byte>)
    ensures Encoding(StdString(s)) == Header(T_STRING, |s|) + Padded(s)
  {
    hide Header, Padded;
    var p := Atom(StdString(s));
    assert Pieces(StdString(s)) == [p];
    assert AllBytes([p]) == Bytes(p) + AllBytes([p][1..]);
  }

  /** More than one entry on the stack, the bottom one not a value made of parts. */
  predicate Stranded(c: Cfg) {
    c.Cfg? && |c.ss| >= 2 && !IsCompound(c.ss[0].val)
  }

  /** An entry at the bottom that takes no parts is never left alone again. */
  lemma SwitchStrands(buf: seq<Byte>, off: nat, ss: seq<Frame>, idx: nat)
    requires off <= |buf| && idx <= |ss| && Stranded(Cfg(ss, idx))
    ensures var t := SwitchTurn(buf, off, ss, idx); t == Fault || Stranded(t.c)
  {
    hide UnWords, Aligned, FromShape, IntTurn, TextTurn, RunTurn, Reduce;
    if 0 < idx {
      var f := ss[idx - 1];
      if off == |buf| && f.n != f.exp && idx == |ss| {
      } else if f.val.StdInt? {
        IntStrands(buf, off, ss, idx);
      } else if f.val.StdString? || f.val.Error? {
        TextStrands(buf, off, ss, idx);
      } else if idx < |ss| && f.val.Array? && f.stage == 1 {
        RunStrands(buf, off, ss, idx);
      } else if idx < |ss| && !f.val.Null? && !(f.val.List? && f.n == f.exp) && !(f.val.Array? && f.stage != 0) {
        ReduceStrands(ss, idx);
      }
    }
  }

  lemma IntStrands(buf: seq<Byte>, off: nat, ss: seq<Frame>, idx: nat)
    requires off <= |buf| && 0 < idx <= |ss| && Stranded(Cfg(ss, idx)) && ss[idx - 1].val.StdInt?
    requires off < |buf| || ss[idx - 1].n >= ss[idx - 1].exp || idx < |ss|
    ensures var t := IntTurn(buf, off, ss, idx); t == Fault || Stranded(t.c)
  {
    hide UnWords;
  }

  lemma TextStrands(buf: seq<Byte>, off: nat, ss: seq<Frame>, idx: nat)
    requires off <= |buf| && 0 < idx <= |ss| && Stranded(Cfg(ss, idx))
    requires ss[idx - 1].val.StdString? || ss[idx - 1].val.Error?
    ensures var t := TextTurn(buf, off, ss, idx); t == Fault || Stranded(t.c)
  {
    hide Aligned;
  }

  lemma RunStrands(buf: seq<Byte>, off: nat, ss: seq<Frame>, idx: nat)
    requires off <= |buf| && 0 < idx < |ss| && Stranded(Cfg(ss, idx)) && ss[idx - 1].val.Array? && ss[idx - 1].stage == 1
    ensures var t := RunTurn(buf, off, ss, idx); t == Fault || Stranded(t.c)
  {
    hide UnWords;
    assert 1 < idx;
  }

  lemma ReduceStrands(ss: seq<Frame>, idx: nat)
    requires 0 < idx < |ss| && Stranded(Cfg(ss, idx)) && IsCompound(ss[idx - 1].val)
    requires ss[idx - 1].val.Array? ==> ss[idx - 1].stage == 0
    ensures var c := Reduce(ss, idx); c == Bad || Stranded(c)
  {
    hide FromShape;
    assert 1 < idx;
  }

  lemma TurnStrands(buf: seq<Byte>, off: nat, ss: seq<Frame>, idx: nat)
    requires off <= |buf| && idx <= |ss| && Stranded(Cfg(ss, idx))
    ensures var t := LoopTurn(buf, off, ss, idx); t == Fault || Stranded(t.c)
  {
    if idx == |ss| {
      if |buf| - off >= 16 {
        HeaderStrands(buf, off, ss);
      }
    } else {
      SwitchStrands(buf, off, ss, idx);
    }
  }

  lemma HeaderStrands(buf: seq<Byte>, off: nat, ss: seq<Frame>)
    requires off + 16 <= |buf| && ss != [] && !IsCompound(ss[0].val)
    ensures var t := LoopTurn(buf, off, ss, |ss|); t == Fault || Stranded(t.c)
  {
    var t, n := UnLE(buf[off..off + 8]), UnLE(buf[off + 8..off + 16]);
    hide SwitchTurn, UnLE;
    if MakeValue(t).Some? {
      SwitchStrands(buf, off + 16, ss + [Frame(MakeValue(t).value, n, 0, 0)], |ss| + 1);
    }
  }

  lemma {:induction false} ReadStrands(buf: seq<Byte>, off: nat, c: Cfg)
    requires off <= |buf| && Stranded(c) && c.idx <= |c.ss|
    ensures var d := Read(buf, off, c); d == Bad || Stranded(d)
    decreases |buf| - off, |c.ss| + c.idx, if 0 < c.idx && c.ss[c.idx - 1].stage == 0 then 1 else 0
  {
    if off < |buf| || 0 < c.idx < |c.ss| {
      TurnStrands(buf, off, c.ss, c.idx);
      var t := LoopTurn(buf, off, c.ss, c.idx);
      hide LoopTurn;
      if t.Go? {
        ReadStrands(buf, t.off, t.c);
      }
    }
  }

  /** The bytes that come after their header has been read are taken for another one. */
  lemma BytesStrand(s: seq<Byte>, n: nat)
    requires s != []
    ensures var d := Read(s, 0, Cfg([Frame(StdString([]), n, 0, 0)], 1)); d == Bad || Stranded(d)
  {
    var ss := [Frame(StdString([]), n, 0, 0)];
    if |s| >= 16 {
      HeaderStrands(s, 0, ss);
      var t := LoopTurn(s, 0, ss, 1);
      hide LoopTurn;
      if t.Go? {
        ReadStrands(s, t.off, t.c);
      }
    }
  }

  lemma EmptyHeader()
    ensures Read(Header(T_STRING, 0), 0, Cfg([], 0)) == Cfg([Finished(StdString([]))], 0)
  {
    hide UnLE, Words, Word, LE;
    var buf := Header(T_STRING, 0);
    assert Aligned(0) == 0 && Padded([]) == [];
    assert At(buf, 0, Header(T_STRING, 0) + Padded([]));
    assert [] + [Finished(StdString([]))] == [Finished(StdString([]))] && |buf| == 16;
    hide LoopTurn, Header, UnLE, Padded, At, Finished;
    StringTurn(buf, 0, [], []);
    TurnRead(buf, 0, Cfg([], 0), 16, Cfg([Finished(StdString([]))], 0));
  }

  lemma EmptyText()
    ensures Receive(Cfg([], 0), [Header(T_STRING, 0), Padded([])]) == Cfg([Finished(StdString([]))], 0)
  {
    EmptyHeader();
    assert Padded([]) == [];
    var d := Cfg([Finished(StdString([]))], 0);
    hide LoopTurn, Header, Padded, Finished;
    assert Read([], 0, d) == d;
    assert [Header(T_STRING, 0), Padded([])][1..] == [Padded([])] && [Padded([])][1..] == [];
    assert Receive(d, [Padded([])]) == Receive(d, []) == d;
  }

  /** Cut between its header and its bytes, a string is rebuilt if and only if it is empty. */
  lemma HeaderCutOff(s: seq<Byte>)
    requires |s| < TWO64
    ensures Header(T_STRING, |s|) + Padded(s) == Encoding(StdString(s))
    ensures Receive(Cfg([], 0), [Header(T_STRING, |s|), Padded(s)]) == Cfg([Finished(StdString(s))], 0) <==> s == []
  {
    TextEncoding(s);
    if s == [] {
      EmptyText();
    } else {
      HeaderAlone(|s|);
      assert Padded(s) != [];
      hide Read, Header, Padded;
      BytesStrand(Padded(s), |s|);
      assert [Header(T_STRING, |s|), Padded(s)][1..] == [Padded(s)] && [Padded(s)][1..] == [];
      var d := Read(Padded(s), 0, Cfg([Frame(StdString([]), |s|, 0, 0)], 1));
      assert Receive(d, []) == d;
      assert Receive(Cfg([], 0), [Header(T_STRING, |s|), Padded(s)]) == d;
    }
  }
}
