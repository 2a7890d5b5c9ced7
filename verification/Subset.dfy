/** Subsetting an array by one index per dimension. */
module Subset {
  import opened Wrappers
  import opened MixedRadix
  import opened Bind
  import opened Cursor
  import opened Odometer

  predicate Within(es: seq<nat>, n: nat) {
    forall k :: 0 <= k < |es| ==> es[k] < n
  }

  predicate AllWithin(dim: seq<nat>, ixs: seq<Index>, from: nat)
    requires |ixs| == |dim|
  {
    forall k :: from <= k < |dim| ==> Within(Elems(ixs[k]), dim[k])
  }

  /** Indices built for this array: an index over everything or an exclusion knows the extent of its dimension. */
  ghost predicate Fits(dim: seq<nat>, ixs: seq<Index>) {
    && |ixs| == |dim|
    && forall k :: 0 <= k < |dim| ==> Valid(ixs[k]) && (!ixs[k].IntIx? ==> ixs[k].sz == dim[k])
  }

  function Picked<T>(col: seq<T>, es: seq<nat>): (r: seq<T>)
    requires Within(es, |col|)
    ensures |r| == |es|
  {
    seq(|es|, k requires 0 <= k < |es| => col[es[k]])
  }

  /** What the `p`-th selected column contributes; nothing when an index leaves the array. */
  function SelectedColumn<T>(a: Arr<T>, ixs: seq<Index>, p: nat): seq<T>
    requires a.dim != [] && |ixs| == |a.dim| && p < Prod(Counts(ixs[1..]))
  {
    var c := ColumnAt(a.dim, ixs, p);
    if c.Col? && c.col < |a.v| && Within(Elems(ixs[0]), |a.v[c.col]|) then Picked(a.v[c.col], Elems(ixs[0])) else []
  }

  /** The selection before any dimension is dropped. */
  function Selection<T>(a: Arr<T>, ixs: seq<Index>): Arr<T>
    requires a.dim != [] && |ixs| == |a.dim|
  {
    var n := Prod(Counts(ixs[1..]));
    Arr(Counts(ixs), seq(n, p requires 0 <= p < n => SelectedColumn(a, ixs, p)))
  }

  lemma ValuesWithin(dim: seq<nat>, ixs: seq<Index>, ds: seq<nat>)
    requires |ixs| == |dim| && InRange(Counts(ixs), ds) && AllWithin(dim, ixs, 0)
    ensures InRange(dim, Values(ixs, ds))
  {
    forall k | 0 <= k < |dim| ensures Values(ixs, ds)[k] < dim[k] {
      assert Within(Elems(ixs[k]), dim[k]);
    }
  }

  lemma TailWithin(dim: seq<nat>, ixs: seq<Index>)
    requires dim != [] && |ixs| == |dim| && AllWithin(dim, ixs, 1)
    ensures AllWithin(dim[1..], ixs[1..], 0)
  {
    forall k | 0 <= k < |dim| - 1 ensures Within(Elems(ixs[1..][k]), dim[1..][k]) {
      assert Within(Elems(ixs[k + 1]), dim[k + 1]);
    }
  }

  lemma ColumnWithin(dim: seq<nat>, ixs: seq<Index>, p: nat)
    requires dim != [] && |ixs| == |dim| && p < Prod(Counts(ixs[1..])) && AllWithin(dim, ixs, 1)
    ensures var c := ColumnAt(dim, ixs, p); c.Col? && c.col < Prod(dim[1..])
  {
    TailWithin(dim, ixs);
    var ds := Unflat(Counts(ixs[1..]), p);
    ValuesWithin(dim[1..], ixs[1..], ds);
    FlatBound(dim[1..], Values(ixs[1..], ds));
  }

  /** The digits that are zero except for `j` in dimension `k`. */
  function Lone(n: nat, k: nat, j: nat): (ds: seq<nat>)
    ensures |ds| == n
  {
    seq(n, m => if m == k then j else 0)
  }

  /** A position outside the array, in an outer dimension of a non-empty selection, is reached. */
  lemma OutsideIsReached(dim: seq<nat>, ixs: seq<Index>)
    requires dim != [] && |ixs| == |dim| && 0 < Prod(Counts(ixs[1..])) && !AllWithin(dim, ixs, 1)
    ensures exists p :: 0 <= p < Prod(Counts(ixs[1..])) && ColumnAt(dim, ixs, p) == OutOfBounds
  {
    var k :| 1 <= k < |dim| && !Within(Elems(ixs[k]), dim[k]);
    var j :| 0 <= j < |Elems(ixs[k])| && dim[k] <= Elems(ixs[k])[j];
    var ds := LoneOutside(dim[1..], ixs[1..], k - 1, j);
    var p := Flat(Counts(ixs[1..]), ds);
    UnflatFlat(Counts(ixs[1..]), ds);
    assert ColumnAt(dim, ixs, p) == OutOfBounds;
  }

  lemma LoneOutside(dim: seq<nat>, ixs: seq<Index>, k: nat, j: nat) returns (ds: seq<nat>)
    requires k < |ixs| == |dim| && 0 < Prod(Counts(ixs)) && j < |Elems(ixs[k])| && dim[k] <= Elems(ixs[k])[j]
    ensures InRange(Counts(ixs), ds) && !InRange(dim, Values(ixs, ds))
  {
    var cs := Counts(ixs);
    ds := Lone(|cs|, k, j);
    forall m | 0 <= m < |cs| ensures ds[m] < cs[m] {
      if cs[m] == 0 { ProdZero(cs, m); }
    }
    assert Values(ixs, ds)[k] >= dim[k];
  }

  /** Element law: the selection holds at `k` what the array holds where the indices send `k`. */
  lemma ElementLaw<T>(a: Arr<T>, ixs: seq<Index>, k: seq<nat>)
    requires a.Valid() && a.dim != [] && |ixs| == |a.dim| && AllWithin(a.dim, ixs, 0)
    requires InRange(Counts(ixs), k)
    ensures Selection(a, ixs).Valid() && InRange(a.dim, Values(ixs, k))
    ensures At(Selection(a, ixs), k) == At(a, Values(ixs, k))
  {
    hide Prod, Flat;
    SelectionValid(a, ixs);
    ValuesWithin(a.dim, ixs, k);
    var cs := Counts(ixs[1..]);
    assert Counts(ixs)[1..] == cs;
    UnflatFlat(cs, k[1..]);
    var p := Flat(cs, k[1..]);
    ColumnWithin(a.dim, ixs, p);
    assert Values(ixs[1..], k[1..]) == Values(ixs, k)[1..];
    assert Within(Elems(ixs[0]), a.dim[0]);
  }

  lemma SelectionValid<T>(a: Arr<T>, ixs: seq<Index>)
    requires a.Valid() && a.dim != [] && |ixs| == |a.dim|
    requires Prod(Counts(ixs[1..])) == 0 || AllWithin(a.dim, ixs, 0)
    ensures Selection(a, ixs).Valid()
  {
    var s := Selection(a, ixs);
    assert Counts(ixs)[1..] == Counts(ixs[1..]);
    forall p | 0 <= p < |s.v| ensures |s.v[p]| == s.dim[0] {
      ColumnWithin(a.dim, ixs, p);
      assert Within(Elems(ixs[0]), a.dim[0]);
    }
  }

  /** All elements, column after column. */
  function Concat<T>(vs: seq<seq<T>>): seq<T> {
    if vs == [] then [] else vs[0] + Concat(vs[1..])
  }

  function Contents<T>(a: Arr<T>): seq<T> {
    Concat(a.v)
  }

  lemma {:induction false} ConcatSplit<T>(vs: seq<seq<T>>, ws: seq<seq<T>>)
    ensures Concat(vs + ws) == Concat(vs) + Concat(ws)
  {
    if vs == [] {
      assert vs + ws == ws;
    } else {
      ConcatSplit(vs[1..], ws);
      assert (vs + ws)[1..] == vs[1..] + ws;
      ConcatAssoc(vs[0], Concat(vs[1..]), Concat(ws));
    }
  }

  lemma {:induction false} ConcatAt<T>(vs: seq<seq<T>>, len: nat, c: nat, r: nat)
    requires forall j :: 0 <= j < |vs| ==> |vs[j]| == len
    requires c < |vs| && r < len
    ensures r + len * c < |Concat(vs)| && Concat(vs)[r + len * c] == vs[c][r]
  {
    if c != 0 {
      ConcatAt(vs[1..], len, c - 1, r);
      assert len * (c - 1) == len * c - len;
    }
  }

  /** An array's contents are its elements in column-major order. */
  lemma ContentsAt<T>(a: Arr<T>, ix: seq<nat>)
    requires a.Valid() && a.dim != [] && InRange(a.dim, ix)
    ensures Flat(a.dim, ix) < |Contents(a)| && Contents(a)[Flat(a.dim, ix)] == At(a, ix)
  {
    FlatBound(a.dim[1..], ix[1..]);
    ConcatAt(a.v, a.dim[0], Flat(a.dim[1..], ix[1..]), ix[0]);
  }

  lemma {:induction false} ConcatLength<T>(vs: seq<seq<T>>, len: nat)
    requires forall j :: 0 <= j < |vs| ==> |vs[j]| == len
    ensures |Concat(vs)| == len * |vs|
  {
    if vs != [] {
      ConcatLength(vs[1..], len);
      assert len * (|vs| - 1) == len * |vs| - len;
    }
  }

  /** Extents other than one, in order. */
  function NotOne(ds: seq<nat>): seq<nat> {
    if ds == [] then [] else (if ds[0] == 1 then [] else [ds[0]]) + NotOne(ds[1..])
  }

  /** The shape after dropping the dimensions of extent one from `dropfirst` on. */
  function Dropped(ds: seq<nat>, drop: bool, dropfirst: nat): (r: seq<nat>)
    ensures ds != [] ==> r != []
  {
    if drop && dropfirst < |ds| then
      var kept := ds[..dropfirst] + NotOne(ds[dropfirst..]);
      if kept == [] then [1] else kept
    else
      ds
  }

  /** The first sequence is the second without its ones. */
  ghost predicate WithoutOnes(r: seq<nat>, ds: seq<nat>) {
    && (forall j :: 0 <= j < |r| ==> r[j] != 1)
    && (forall n: nat :: n != 1 ==> Times(n, r) == Times(n, ds))
    && InOrder(r, ds)
  }

  /**
   * Dropping leaves no extent of one from `dropfirst` on, save in the shape of a single element, and leaves the others,
   * as often as they were there and in their order.
   */
  lemma DroppedShape(ds: seq<nat>, drop: bool, dropfirst: nat)
    ensures var r := Dropped(ds, drop, dropfirst);
            if !drop || |ds| <= dropfirst then r == ds
            else if dropfirst == 0 && (forall j :: 0 <= j < |ds| ==> ds[j] == 1) then r == [1]
            else dropfirst <= |r| && r[..dropfirst] == ds[..dropfirst] && WithoutOnes(r[dropfirst..], ds[dropfirst..])
  {
    if drop && dropfirst < |ds| {
      var rest := ds[dropfirst..];
      var kept := ds[..dropfirst] + NotOne(rest);
      assert kept[dropfirst..] == NotOne(rest) && kept[..dropfirst] == ds[..dropfirst];
      assert dropfirst == 0 ==> rest == ds;
      NotOneHasNone(rest);
      NotOneIs(rest);
      hide NotOne, WithoutOnes;
    }
  }

  lemma NotOneIs(ds: seq<nat>)
    ensures WithoutOnes(NotOne(ds), ds)
  {
    NotOneHasNone(ds);
    NotOneInOrder(ds);
    forall n: nat | n != 1 ensures Times(n, NotOne(ds)) == Times(n, ds) {
      NotOneKeeps(ds, n);
    }
    hide NotOne, InOrder, Times;
  }

  /** How often the extent occurs. */
  function Times(n: nat, ds: seq<nat>): nat {
    if ds == [] then 0 else (if ds[0] == n then 1 else 0) + Times(n, ds[1..])
  }

  /** The first sequence is the second without some of its elements. */
  predicate InOrder(r: seq<nat>, ds: seq<nat>) {
    r == [] || (ds != [] && if r[0] == ds[0] then InOrder(r[1..], ds[1..]) else InOrder(r, ds[1..]))
  }

  lemma NotOneStep(ds: seq<nat>)
    requires ds != []
    ensures if ds[0] == 1 then NotOne(ds) == NotOne(ds[1..])
            else NotOne(ds) != [] && NotOne(ds)[0] == ds[0] && NotOne(ds)[1..] == NotOne(ds[1..])
  {}

  lemma {:induction false} NotOneHasNone(ds: seq<nat>)
    ensures forall j :: 0 <= j < |NotOne(ds)| ==> NotOne(ds)[j] != 1
    ensures NotOne(ds) == [] <==> forall j :: 0 <= j < |ds| ==> ds[j] == 1
  {
    if ds != [] {
      NotOneHasNone(ds[1..]);
      forall j | 1 <= j < |ds| ensures ds[j] == ds[1..][j - 1] {}
    }
  }

  lemma {:induction false} NotOneKeeps(ds: seq<nat>, n: nat)
    requires n != 1
    ensures Times(n, NotOne(ds)) == Times(n, ds)
  {
    if ds != [] {
      NotOneKeeps(ds[1..], n);
      NotOneStep(ds);
    }
  }

  lemma {:induction false} NotOneInOrder(ds: seq<nat>)
    ensures InOrder(NotOne(ds), ds)
  {
    if ds != [] {
      NotOneInOrder(ds[1..]);
      NotOneHasNone(ds[1..]);
      var r := NotOne(ds[1..]);
      NotOneStep(ds);
      if ds[0] == 1 {
        assert InOrder(r, ds[1..]) && (r == [] || r[0] != 1);
      }
    }
  }

  lemma {:induction false} NotOneProd(ds: seq<nat>)
    ensures Prod(NotOne(ds)) == Prod(ds)
  {
    if ds != [] {
      NotOneProd(ds[1..]);
      if ds[0] == 1 {
        assert NotOne(ds) == NotOne(ds[1..]);
      } else {
        assert NotOne(ds)[1..] == NotOne(ds[1..]);
      }
    }
  }

  lemma DroppedProd(ds: seq<nat>, drop: bool, dropfirst: nat)
    ensures Prod(Dropped(ds, drop, dropfirst)) == Prod(ds)
  {
    if drop && dropfirst < |ds| {
      var kept := ds[..dropfirst] + NotOne(ds[dropfirst..]);
      NotOneProd(ds[dropfirst..]);
      ProdSplit(ds, dropfirst);
      ProdSplit(kept, dropfirst);
      assert kept[..dropfirst] == ds[..dropfirst] && kept[dropfirst..] == NotOne(ds[dropfirst..]);
    }
  }

  /** Unless the first dimension itself goes, dropping leaves the columns as they are. */
  lemma DroppedColumns(ds: seq<nat>, drop: bool, dropfirst: nat)
    requires ds != [] && !(drop && dropfirst == 0 && ds[0] == 1)
    ensures var r := Dropped(ds, drop, dropfirst); r[0] == ds[0] && Prod(r[1..]) == Prod(ds[1..])
  {
    var r := Dropped(ds, drop, dropfirst);
    if drop && dropfirst < |ds| {
      if dropfirst == 0 {
        NotOneProd(ds[1..]);
        assert r[1..] == NotOne(ds[1..]);
      } else {
        DroppedProd(ds[1..], drop, dropfirst - 1);
        assert r[1..] == ds[1..][..dropfirst - 1] + NotOne(ds[1..][dropfirst - 1..]);
        NotOneProd(ds[1..][dropfirst - 1..]);
        ProdSplit(r[1..], dropfirst - 1);
        ProdSplit(ds[1..], dropfirst - 1);
        assert r[1..][..dropfirst - 1] == ds[1..][..dropfirst - 1];
      }
    }
  }

  method SubsetListed<T>(vi: seq<nat>, col: seq<T>) returns (r: Option<seq<T>>)
    ensures r == if Within(vi, |col|) then Some(Picked(col, vi)) else None
  {
    var rv := [];
    for j := 0 to |vi|
      invariant Within(vi[..j], |col|) && rv == Picked(col, vi[..j])
    {
      if vi[j] >= |col| {
        return None;
      }
      rv := rv + [col[vi[j]]];
    }
    assert vi[..|vi|] == vi;
    r := Some(rv);
  }

  lemma ExclusionWithin(x: Index)
    requires Valid(x) && x.NegIx?
    ensures Within(Elems(x), x.sz)
  {
    NegativeIsComplement(x);
    forall k | 0 <= k < |Elems(x)| ensures Elems(x)[k] < x.sz { assert Elems(x)[k] in Elems(x); }
  }

  method SubsetExcluding<T>(vi: seq<nat>, sz: nat, col: seq<T>) returns (rv: seq<T>)
    requires Valid(NegIx(vi, sz)) && sz == |col|
    ensures Within(Remaining(vi, 0, 0, sz), sz) && rv == Picked(col, Remaining(vi, 0, 0, sz))
  {
    ghost var es := Remaining(vi, 0, 0, sz);
    ExclusionWithin(NegIx(vi, sz));
    rv := [];
    var ii := 0;
    for j := 0 to sz
      invariant |rv| <= |es| && Remaining(vi, ii, j, sz) == es[|rv|..]
      invariant forall k :: 0 <= k < |rv| ==> rv[k] == col[es[k]]
    {
      if ii < |vi| && vi[ii] == j {
        ii := ii + 1;
      } else {
        assert es[|rv|..][0] == j && es[|rv|..][1..] == es[|rv| + 1..];
        rv := rv + [col[j]];
      }
    }
  }

  /** One column through one index. */
  method SubsetColumn<T>(x: Index, col: seq<T>) returns (r: Option<seq<T>>)
    requires Valid(x) && (!x.IntIx? ==> x.sz == |col|)
    ensures r == if Within(Elems(x), |col|) then Some(Picked(col, Elems(x))) else None
  {
    match x {
      case NullIx(sz) =>
        assert Picked(col, Iota(sz)) == col;
        r := Some(col);
      case IntIx(vi, _, _) =>
        r := SubsetListed(vi, col);
      case NegIx(vi, sz) =>
        var rv := SubsetExcluding(vi, sz, col);
        r := Some(rv);
    }
  }

  lemma ConcatPush<T>(vs: seq<seq<T>>, j: nat, x: T)
    requires j < |vs| && forall k :: j < k < |vs| ==> vs[k] == []
    ensures Concat(vs[j := vs[j] + [x]]) == Concat(vs) + [x]
  {
    var ws := vs[j := vs[j] + [x]];
    var t := vs[j + 1..];
    ConcatEmpty(t);
    assert vs == vs[..j] + ([vs[j]] + t) && ws == vs[..j] + ([ws[j]] + t);
    ConcatSplit(vs[..j], [vs[j]] + t);
    ConcatSplit(vs[..j], [ws[j]] + t);
    assert ([vs[j]] + t)[1..] == t && ([ws[j]] + t)[1..] == t;
    ConcatAssoc(Concat(vs[..j]), vs[j], [x]);
  }

  lemma {:induction false} ConcatEmpty<T>(vs: seq<seq<T>>)
    requires forall k :: 0 <= k < |vs| ==> vs[k] == []
    ensures Concat(vs) == []
  {
    if vs != [] {
      ConcatEmpty(vs[1..]);
    }
  }

  /** When a subset is refused: an index leaves the array in a column that is visited. */
  predicate Refused(dim: seq<nat>, ixs: seq<Index>, drop: bool, dropfirst: nat)
    requires dim != [] && |ixs| == |dim|
  {
    if drop && dropfirst == 0 && |Elems(ixs[0])| == 1 then
      Elems(ixs[0])[0] >= dim[0] || (Prod(Counts(ixs[1..])) != 0 && !AllWithin(dim, ixs, 1))
    else
      Prod(Counts(ixs[1..])) != 0 && !AllWithin(dim, ixs, 0)
  }

  /** The walk over the columns met a position outside the array. */
  lemma StoppedOutside(dim: seq<nat>, ixs: seq<Index>, p: nat)
    requires dim != [] && |ixs| == |dim| && p < Prod(Counts(ixs[1..])) && !ColumnAt(dim, ixs, p).Col?
    ensures !AllWithin(dim, ixs, 1) && !AllWithin(dim, ixs, 0)
  {
    if AllWithin(dim, ixs, 1) {
      ColumnWithin(dim, ixs, p);
    }
  }

  /** The walk over the columns met none. */
  lemma WalkedInside(dim: seq<nat>, ixs: seq<Index>)
    requires dim != [] && |ixs| == |dim|
    requires forall p :: 0 <= p < Prod(Counts(ixs[1..])) ==> ColumnAt(dim, ixs, p).Col?
    ensures Prod(Counts(ixs[1..])) == 0 || AllWithin(dim, ixs, 1)
  {
    if 0 < Prod(Counts(ixs[1..])) && !AllWithin(dim, ixs, 1) {
      OutsideIsReached(dim, ixs);
    }
  }

  /** A visited column that is inside the outer extents is one of the array's. */
  lemma ColumnExists(dim: seq<nat>, vs: seq<nat>)
    requires dim != [] && |vs| == |dim| - 1 && CellAt(dim, vs).Col?
    ensures CellAt(dim, vs).col < Prod(dim[1..])
  {
    FlatBound(dim[1..], vs);
  }

  /** The walk over the selected columns has `p` columns behind it, and `c` is what comes next. */
  ghost predicate Walking(dim: seq<nat>, ixs: seq<Index>, val: seq<nat>, pi: seq<nat>, c: Cell, p: nat)
    requires dim != [] && |ixs| == |dim|
  {
    var n := Prod(Counts(ixs[1..]));
    && p <= n && (c == End <==> p == n)
    && (p < n ==> c == ColumnAt(dim, ixs, p) && Positioned(ixs, val, pi, Digits(ixs, p)))
    && forall q :: 0 <= q < p ==> ColumnAt(dim, ixs, q).Col?
  }

  lemma WalkFacts(dim: seq<nat>, ixs: seq<Index>, val: seq<nat>, pi: seq<nat>, c: Cell, p: nat)
    requires dim != [] && |ixs| == |dim| && Walking(dim, ixs, val, pi, c, p)
    ensures p <= Prod(Counts(ixs[1..])) && (c == End <==> p == Prod(Counts(ixs[1..])))
    ensures p < Prod(Counts(ixs[1..])) ==> c == ColumnAt(dim, ixs, p)
    ensures forall q :: 0 <= q < p ==> ColumnAt(dim, ixs, q).Col?
  {}

  method StartWalk(val: array<nat>, pi: array<nat>, ixs: seq<Index>, dim: seq<nat>) returns (c: Cell)
    requires dim != [] && |ixs| == |dim| == val.Length == pi.Length && val != pi && Fits(dim, ixs)
    modifies val, pi
    ensures Walking(dim, ixs, val[..], pi[..], c, 0)
  {
    c := GetFirstCol(val, pi, ixs, dim);
  }

  method StepWalk(val: array<nat>, pi: array<nat>, ixs: seq<Index>, dim: seq<nat>, c0: Cell, ghost p: nat) returns (c: Cell)
    requires dim != [] && |ixs| == |dim| == val.Length == pi.Length && val != pi && Fits(dim, ixs)
    requires Walking(dim, ixs, val[..], pi[..], c0, p) && c0.Col?
    modifies val, pi
    ensures Walking(dim, ixs, val[..], pi[..], c, p + 1)
  {
    hide ColumnAt, Digits, Prod, Counts;
    c := GetNextCol(val, pi, ixs, dim, p);
  }

  /** A column met on the walk through the first index. */
  method CutColumn<T>(a: Array<T>, ixs: seq<Index>, c: Cell, ghost p: nat) returns (s: Option<seq<T>>)
    requires a.Value().Valid() && a.dim != [] && Fits(a.dim, ixs)
    requires p < Prod(Counts(ixs[1..])) && c == ColumnAt(a.dim, ixs, p)
    ensures s == None ==> !AllWithin(a.dim, ixs, 0)
    ensures s.Some? ==> c.Col? && Within(Elems(ixs[0]), a.dim[0]) && s.value == SelectedColumn(a.Value(), ixs, p)
  {
    if c == OutOfBounds {
      StoppedOutside(a.dim, ixs, p);
      return None;
    }
    ColumnExists(a.dim, Values(ixs[1..], Unflat(Counts(ixs[1..]), p)));
    s := SubsetColumn(ixs[0], a.v[c.col]);
  }

  /** The walk has `p` columns behind it, and these are cut. */
  ghost predicate Cutting<T>(a: Arr<T>, ixs: seq<Index>, val: seq<nat>, pi: seq<nat>, c: Cell, p: nat, rv: seq<seq<T>>)
    requires a.dim != [] && |ixs| == |a.dim|
  {
    && Walking(a.dim, ixs, val, pi, c, p) && |rv| == Prod(Counts(ixs[1..]))
    && (forall q :: 0 <= q < p ==> rv[q] == SelectedColumn(a, ixs, q))
    && (0 < p ==> Within(Elems(ixs[0]), a.dim[0]))
  }

  /** Cuts one column, and moves to the next. */
  method CutNext<T>(a: Array<T>, ixs: seq<Index>, val: array<nat>, pi: array<nat>, c0: Cell, rv0: seq<seq<T>>, rcol: nat)
    returns (rv: Option<seq<seq<T>>>, c: Cell)
    requires a.Value().Valid() && a.dim != [] && Fits(a.dim, ixs) && |ixs| == val.Length == pi.Length && val != pi
    requires c0 != End && Cutting(a.Value(), ixs, val[..], pi[..], c0, rcol, rv0)
    modifies val, pi
    ensures rcol < Prod(Counts(ixs[1..]))
    ensures rv == None ==> !AllWithin(a.dim, ixs, 0)
    ensures rv.Some? ==> Cutting(a.Value(), ixs, val[..], pi[..], c, rcol + 1, rv.value)
  {
    hide Prod, Elems, Counts, SelectedColumn, Valid, Walking, ColumnAt;
    WalkFacts(a.dim, ixs, val[..], pi[..], c0, rcol);
    var s := CutColumn(a, ixs, c0, rcol);
    if s == None {
      return None, c0;
    }
    rv := Some(rv0[rcol := s.value]);
    c := StepWalk(val, pi, ixs, a.dim, c0, rcol);
  }

  lemma AllCut<T>(a: Arr<T>, ixs: seq<Index>, val: seq<nat>, pi: seq<nat>, c: Cell, p: nat, rv: seq<seq<T>>)
    requires a.dim != [] && |ixs| == |a.dim| && Cutting(a, ixs, val, pi, c, p, rv)
    ensures p <= |rv| == Prod(Counts(ixs[1..])) && (c == End <==> p == |rv|)
    ensures c == End ==> rv == Selection(a, ixs).v && (|rv| == 0 || AllWithin(a.dim, ixs, 0))
  {
    WalkFacts(a.dim, ixs, val, pi, c, p);
    if c == End {
      WalkedInside(a.dim, ixs);
      assert rv == Selection(a, ixs).v;
    }
  }

  /** The usual walk: every selected column is cut by the first index. */
  method SubsetColumns<T>(a: Array<T>, ixs: seq<Index>, rncols: nat) returns (r: Option<seq<seq<T>>>)
    requires a.Value().Valid() && a.dim != [] && Fits(a.dim, ixs)
    requires rncols == Prod(Counts(ixs[1..]))
    ensures r == None <==> rncols != 0 && !AllWithin(a.dim, ixs, 0)
    ensures r.Some? ==> r.value == Selection(a.Value(), ixs).v
  {
    var val, pi := new nat[|a.dim|](_ => 0), new nat[|a.dim|](_ => 0);
    var rv := seq(rncols, _ => []);
    var c := StartWalk(val, pi, ixs, a.dim);
    var rcol := 0;
    assert Cutting(a.Value(), ixs, val[..], pi[..], c, 0, rv);
    hide Cutting, Selection, AllWithin, Fits, Prod;
    AllCut(a.Value(), ixs, val[..], pi[..], c, 0, rv);
    while c != End
      invariant Cutting(a.Value(), ixs, val[..], pi[..], c, rcol, rv) && rcol <= rncols
      decreases rncols - rcol
    {
      var s, next := CutNext(a, ixs, val, pi, c, rv, rcol);
      if s == None {
        return None;
      }
      rv, c := s.value, next;
      rcol := rcol + 1;
    }
    AllCut(a.Value(), ixs, val[..], pi[..], c, rcol, rv);
    r := Some(rv);
  }

  /** Adds an element to the column being filled, and turns to the next column when it is full. */
  method Refill<T>(rv: seq<seq<T>>, rcol: nat, e: T, rlen: nat, ghost p: nat) returns (r: seq<seq<T>>, j: nat)
    requires Filling(rv, rcol, rlen, p) && p < rlen * |rv|
    ensures |r| == |rv| && Filling(r, j, rlen, p + 1) && Concat(r) == Concat(rv) + [e]
  {
    NextFits(rlen, rcol, |rv|, p);
    ConcatPush(rv, rcol, e);
    MulStep(rlen, rcol);
    r, j := rv[rcol := rv[rcol] + [e]], rcol;
    if |r[j]| == rlen {
      j := j + 1;
    }
  }

  /** `p` elements fill the columns of length `rlen` before `rcol` and part of that one. */
  ghost predicate Filling<T>(rv: seq<seq<T>>, rcol: nat, rlen: nat, p: nat) {
    && rcol <= |rv|
    && (forall j :: 0 <= j < rcol ==> |rv[j]| == rlen)
    && (forall j :: rcol < j < |rv| ==> rv[j] == [])
    && if rcol < |rv| then p == rlen * rcol + |rv[rcol]| && (0 < rlen ==> |rv[rcol]| < rlen) else p == rlen * rcol
  }

  lemma Filled<T>(rv: seq<seq<T>>, rcol: nat, rlen: nat)
    requires Filling(rv, rcol, rlen, rlen * |rv|)
    ensures forall j :: 0 <= j < |rv| ==> |rv[j]| == rlen
  {
    AllFull(rlen, rcol, |rv|, if rcol < |rv| then |rv[rcol]| else 0);
  }

  /** A column met on the walk at the one position of the first index. */
  method CutElement<T>(a: Array<T>, ixs: seq<Index>, c: nat, uidx: nat, ghost p: nat) returns (e: T)
    requires a.Value().Valid() && a.dim != [] && |ixs| == |a.dim|
    requires p < Prod(Counts(ixs[1..])) && Col(c) == ColumnAt(a.dim, ixs, p)
    requires |Elems(ixs[0])| == 1 && uidx == Elems(ixs[0])[0] && uidx < a.dim[0]
    ensures SelectedColumn(a.Value(), ixs, p) == [e]
  {
    ColumnExists(a.dim, Values(ixs[1..], Unflat(Counts(ixs[1..]), p)));
    e := a.v[c][uidx];
  }

  /** The walk when the first dimension is dropped: one element per selected column, refilled into the new columns. */
  method RefillWalk<T>(a: Array<T>, ixs: seq<Index>, uidx: nat, rlen: nat, rncols: nat) returns (r: Option<seq<seq<T>>>)
    requires a.Value().Valid() && a.dim != [] && Fits(a.dim, ixs)
    requires |Elems(ixs[0])| == 1 && uidx == Elems(ixs[0])[0] && uidx < a.dim[0]
    requires rlen * rncols == Prod(Counts(ixs[1..]))
    ensures r == None <==> Prod(Counts(ixs[1..])) != 0 && !AllWithin(a.dim, ixs, 1)
    ensures r.Some? ==> |r.value| == rncols && forall j :: 0 <= j < rncols ==> |r.value[j]| == rlen
    ensures r.Some? ==> Concat(r.value) == Contents(Selection(a.Value(), ixs))
  {
    hide Digits, ColumnAt, StandsAt, Elems, SelectedColumn, Counts, AllWithin;
    var val, pi := new nat[|a.dim|](_ => 0), new nat[|a.dim|](_ => 0);
    var rv: seq<seq<T>> := seq(rncols, _ => []);
    ConcatEmpty(rv);
    var c := StartWalk(val, pi, ixs, a.dim);
    var rcol := 0;
    ghost var p := 0;
    ghost var sv := Selection(a.Value(), ixs).v;
    while c != End
      invariant Walking(a.dim, ixs, val[..], pi[..], c, p)
      invariant |rv| == rncols && Filling(rv, rcol, rlen, p)
      invariant Concat(rv) == Concat(sv[..p])
      decreases |sv| - p
    {
      hide Filling;
      if c == OutOfBounds {
        StoppedOutside(a.dim, ixs, p);
        return None;
      }
      var e := CutElement(a, ixs, c.col, uidx, p);
      ConcatNext(sv, p, e);
      rv, rcol := Refill(rv, rcol, e, rlen, p);
      c := StepWalk(val, pi, ixs, a.dim, c, p);
      p := p + 1;
    }
    WalkedInside(a.dim, ixs);
    assert sv[..p] == sv;
    Filled(rv, rcol, rlen);
    r := Some(rv);
  }

  method SubsetRow<T>(a: Array<T>, ixs: seq<Index>, rlen: nat, rncols: nat) returns (r: Option<seq<seq<T>>>)
    requires a.Value().Valid() && a.dim != [] && Fits(a.dim, ixs)
    requires |Elems(ixs[0])| == 1 && rlen * rncols == Prod(Counts(ixs[1..]))
    ensures r == None <==> Elems(ixs[0])[0] >= a.dim[0] || (Prod(Counts(ixs[1..])) != 0 && !AllWithin(a.dim, ixs, 1))
    ensures r.Some? ==> |r.value| == rncols && forall j :: 0 <= j < rncols ==> |r.value[j]| == rlen
    ensures r.Some? ==> Concat(r.value) == Contents(Selection(a.Value(), ixs))
  {
    var ok, uidx, pidx := GetFirst(ixs[0], 0, 0);
    if uidx >= a.dim[0] {
      return None;
    }
    r := RefillWalk(a, ixs, uidx, rlen, rncols);
  }

  lemma ConcatNext<T>(vs: seq<seq<T>>, p: nat, e: T)
    requires p < |vs| && vs[p] == [e]
    ensures Concat(vs[..p + 1]) == Concat(vs[..p]) + [e]
  {
    assert vs[..p + 1] == vs[..p] + [[e]];
    ConcatSplit(vs[..p], [[e]]);
    assert Concat([[e]]) == [e] + Concat([[e]][1..]);
  }

  lemma NextFits(rlen: nat, rcol: nat, rncols: nat, p: nat)
    requires p < rlen * rncols && rcol <= rncols
    requires rcol == rncols ==> p == rlen * rcol
    ensures rcol < rncols && 0 < rlen
  {
    MulStrict(rlen, 0, rncols);
  }

  lemma AllFull(rlen: nat, rcol: nat, rncols: nat, q: nat)
    requires rcol <= rncols && rlen * rncols == rlen * rcol + q
    requires 0 < rlen ==> q < rlen
    ensures rcol == rncols || (rlen == 0 && q == 0)
  {
    MulStep(rlen, rcol);
    if rcol < rncols {
      MulMono(rlen, rcol + 1, rncols);
    }
  }

  datatype Outcome<T> = Selected(b: Arr<T>) | WrongDimensions | OutOfRange

  /**
   * Subset by one index per dimension, dropping extents of one from `dropfirst` on when `drop` is set.
   * Dropping changes the shape and not the contents.
   */
  method Subset<T>(a: Array<T>, ixs: seq<Index>, drop: bool, dropfirst: nat) returns (r: Outcome<T>)
    requires a.Value().Valid() && a.dim != []
    requires |ixs| == |a.dim| ==> Fits(a.dim, ixs)
    ensures r == WrongDimensions <==> |ixs| != |a.dim|
    ensures |ixs| == |a.dim| ==> (r == OutOfRange <==> Refused(a.dim, ixs, drop, dropfirst))
    ensures r.Selected? ==>
              && r.b.Valid() && r.b.dim == Dropped(Counts(ixs), drop, dropfirst)
              && Contents(r.b) == Contents(Selection(a.Value(), ixs))
  {
    if |ixs| != |a.dim| {
      return WrongDimensions;
    }
    var rdim := [];
    for k := 0 to |ixs|
      invariant rdim == Counts(ixs)[..k]
    {
      var n := TrueSize(ixs[k]);
      rdim := rdim + [n];
    }
    var undropped := rdim;
    assert undropped == Counts(ixs) && undropped[1..] == Counts(ixs[1..]);
    rdim := Dropped(undropped, drop, dropfirst);
    var rncols := if |rdim| == 1 then 1 else Prod(rdim[1..]);
    assert rncols == Prod(rdim[1..]);
    var rv: Option<seq<seq<T>>>;
    if drop && dropfirst == 0 && undropped[0] == 1 {
      DroppedProd(undropped, drop, dropfirst);
      rv := SubsetRow(a, ixs, rdim[0], rncols);
    } else {
      DroppedColumns(undropped, drop, dropfirst);
      rv := SubsetColumns(a, ixs, rncols);
      if rv.Some? {
        SelectionValid(a.Value(), ixs);
      }
    }
    if rv == None {
      return OutOfRange;
    }
    r := Selected(Arr(rdim, rv.value));
  }

  /** Element by element, with or without dropping: position `c` of the result is position `c` of the selection. */
  lemma DropKeepsContents<T>(a: Arr<T>, ixs: seq<Index>, b: Arr<T>, c: nat)
    requires a.Valid() && a.dim != [] && |ixs| == |a.dim| && AllWithin(a.dim, ixs, 0)
    requires b.Valid() && b.dim != [] && Prod(b.dim) == Prod(Counts(ixs)) && c < Prod(b.dim)
    requires Contents(b) == Contents(Selection(a, ixs))
    ensures var k := Unflat(Counts(ixs), c);
            InRange(a.dim, Values(ixs, k)) && At(b, Unflat(b.dim, c)) == At(a, Values(ixs, k))
  {
    var k := Unflat(Counts(ixs), c);
    ElementLaw(a, ixs, k);
    FlatUnflat(b.dim, c);
    FlatUnflat(Counts(ixs), c);
    ContentsAt(b, Unflat(b.dim, c));
    ContentsAt(Selection(a, ixs), k);
  }
}
