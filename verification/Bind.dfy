/** Arrays stored as columns, and the in-place binding of one array to another along any dimension. */
module Bind {
  import opened Wrappers
  import opened MixedRadix

  /** Contents of an array: no dimension at all is the null array; the columns are in column-major order. */
  datatype Arr<T> = Arr(dim: seq<nat>, v: seq<seq<T>>) {
    ghost predicate Valid() {
      if dim == [] then v == [] else |v| == Prod(dim[1..]) && forall j :: 0 <= j < |v| ==> |v[j]| == dim[0]
    }
  }

  /** The element at a multi-index. */
  function At<T>(a: Arr<T>, ix: seq<nat>): T
    requires a.Valid() && a.dim != [] && InRange(a.dim, ix)
  {
    FlatBound(a.dim[1..], ix[1..]);
    a.v[Flat(a.dim[1..], ix[1..])][ix[0]]
  }

  /** Extent in dimension `j`; dimensions beyond the last have extent one. */
  function Extent(ds: seq<nat>, j: nat): nat {
    if j < |ds| then ds[j] else 1
  }

  function Max(m: nat, n: nat): nat {
    if m < n then n else m
  }

  /** All extents agree except in dimension `d`; a null array goes with anything. */
  predicate Compatible(ds: seq<nat>, us: seq<nat>, d: nat) {
    ds == [] || us == [] || forall j :: 0 <= j < Max(|ds|, |us|) ==> j == d || Extent(ds, j) == Extent(us, j)
  }

  /** A vector seen as a row. */
  function AsRow<T>(a: Arr<T>): (r: Arr<T>)
    requires a.Valid()
    ensures r.Valid()
  {
    if |a.dim| == 1 then
      var col := a.v[0];
      UnitProd([|col|], 1);
      assert [1, |col|][1..] == [|col|];
      Arr([1, |col|], seq(|col|, j requires 0 <= j < |col| => [col[j]]))
    else
      a
  }

  function Ones(n: nat): (r: seq<nat>)
    ensures |r| == n
  {
    seq(n, _ => 1)
  }

  /** Extents of the receiver once it has a dimension `d` (extent 0 there when it holds no column). */
  function Prepared<T>(a: Arr<T>, us: seq<nat>, d: nat): (r: seq<nat>)
    ensures d < |r|
  {
    var p := if a.dim != [] then a.dim else if d < |us| then us[d := 0] else us;
    if d < |p| then p else p + Ones(d - |p|) + [if a.v == [] then 0 else 1]
  }

  /** Extents cut or padded with ones to `k` dimensions, and a multi-index cut or padded to match. */
  function Fit(ds: seq<nat>, k: nat): (r: seq<nat>)
    ensures |r| == k
  {
    if k <= |ds| then ds[..k] else ds + Ones(k - |ds|)
  }

  function FitIndex(ix: seq<nat>, k: nat): (r: seq<nat>)
    ensures |r| == k
  {
    if k <= |ix| then ix[..k] else ix + seq(k - |ix|, _ => 0)
  }

  /** Number of columns in one slice of dimension `d`, counted on the operand's own extents. */
  function SliceColumns(ds: seq<nat>, d: nat): nat
    requires ds != []
  {
    if d < |ds| then Prod(ds[1..d + 1]) else Prod(ds[1..])
  }

  /** `n` blocks, each made of the next `ac` elements of `a` and the next `uc` elements of `u`. */
  function Interleave<X>(a: seq<X>, u: seq<X>, ac: nat, uc: nat, n: nat): (r: seq<X>)
    requires |a| == n * ac && |u| == n * uc
    ensures |r| == n * (ac + uc)
  {
    if n == 0 then [] else
      LastBlock(n, ac);
      LastBlock(n, uc);
      LastBlock(n, ac + uc);
      Interleave(a[..(n - 1) * ac], u[..(n - 1) * uc], ac, uc, n - 1) + a[(n - 1) * ac..] + u[(n - 1) * uc..]
  }

  lemma LastBlock(n: nat, c: nat)
    requires 0 < n
    ensures 0 <= (n - 1) * c <= n * c && n * c == (n - 1) * c + c
  {}

  /** Where the columns of each operand end up. */
  lemma {:induction false} InterleaveAt<X>(a: seq<X>, u: seq<X>, ac: nat, uc: nat, n: nat, b: nat, c: nat)
    requires |a| == n * ac && |u| == n * uc && b < n && c < ac + uc
    ensures Interleave(a, u, ac, uc, n)[Slot(b, n, ac + uc, c)]
            == if c < ac then a[Slot(b, n, ac, c)] else u[Slot(b, n, uc, c - ac)]
  {
    LastBlock(n, ac);
    LastBlock(n, uc);
    var i, j := (n - 1) * ac, (n - 1) * uc;
    var front := Interleave(a[..i], u[..j], ac, uc, n - 1);
    assert Interleave(a, u, ac, uc, n) == front + a[i..] + u[j..];
    if b == n - 1 {
      assert |front| == b * (ac + uc);
    } else {
      InterleaveAt(a[..i], u[..j], ac, uc, n - 1, b, c);
      assert Slot(b, n, ac + uc, c) == Slot(b, n - 1, ac + uc, c) < |front|;
    }
  }

  lemma LastBlocks<X>(a: seq<X>, u: seq<X>, ac: nat, uc: nat, n: nat) returns (i: nat, j: nat)
    requires |a| == n * ac && |u| == n * uc && 0 < n
    ensures i == (n - 1) * ac <= |a| && j == (n - 1) * uc <= |u|
    ensures Interleave(a, u, ac, uc, n) == Interleave(a[..i], u[..j], ac, uc, n - 1) + a[i..] + u[j..]
  {
    LastBlock(n, ac);
    LastBlock(n, uc);
    i, j := (n - 1) * ac, (n - 1) * uc;
  }

  /** No column is lost or duplicated. */
  lemma {:induction false} InterleaveConserves<X>(a: seq<X>, u: seq<X>, ac: nat, uc: nat, n: nat)
    requires |a| == n * ac && |u| == n * uc
    ensures multiset(Interleave(a, u, ac, uc, n)) == multiset(a) + multiset(u)
  {
    if n == 0 {
    } else {
      var i, j := LastBlocks(a, u, ac, uc, n);
      InterleaveConserves(a[..i], u[..j], ac, uc, n - 1);
      hide Interleave;
      Regrouped(Interleave(a[..i], u[..j], ac, uc, n - 1), a, u, i, j);
    }
  }

  lemma Regrouped<X>(x: seq<X>, a: seq<X>, u: seq<X>, i: nat, j: nat)
    requires i <= |a| && j <= |u| && multiset(x) == multiset(a[..i]) + multiset(u[..j])
    ensures multiset(x + a[i..] + u[j..]) == multiset(a) + multiset(u)
  {
    assert a == a[..i] + a[i..] && u == u[..j] + u[j..];
  }

  /** The operands of a bind along `d`, once vectors bound along dimension 0 are rows. */
  ghost predicate Bindable<T>(a: Arr<T>, u: Arr<T>, d: nat) {
    && a.Valid() && u.Valid() && u.dim != []
    && Compatible(a.dim, u.dim, d)
    && (d == 0 ==> |a.dim| != 1 && |u.dim| != 1)
  }

  /** The bound array. */
  function Bound<T>(a: Arr<T>, u: Arr<T>, d: nat): Arr<T>
    requires Bindable(a, u, d)
  {
    var pd := Prepared(a, u.dim, d);
    var dim := pd[d := pd[d] + Extent(u.dim, d)];
    if d == 0 then
      Arr(dim, seq(|u.v|, j requires 0 <= j < |u.v| => (if j < |a.v| then a.v[j] else []) + u.v[j]))
    else
      BlockShapes(a, u, d);
      Arr(dim, Interleave(a.v, u.v, Prod(pd[1..d + 1]), SliceColumns(u.dim, d), Prod(pd[d + 1..])))
  }

  lemma FitProd(ds: seq<nat>, k: nat)
    requires ds != [] && 0 < k
    requires forall j :: k <= j < |ds| ==> ds[j] == 1
    ensures Prod(ds[1..]) == Prod(Fit(ds, k)[1..])
  {
    var f := Fit(ds, k);
    if k <= |ds| {
      UnitProd(ds[1..], k - 1);
      assert ds[1..][..k - 1] == f[1..];
    } else {
      UnitProd(f[1..], |ds| - 1);
      assert f[1..][..|ds| - 1] == ds[1..];
    }
  }

  /** The prepared receiver and the fitted operand have the same extents except in dimension `d`. */
  lemma PreparedAgrees<T>(a: Arr<T>, u: Arr<T>, d: nat)
    requires Bindable(a, u, d)
    ensures var pd := Prepared(a, u.dim, d); var ue := Fit(u.dim, |pd|);
            && (forall j :: 0 <= j < |pd| && j != d ==> pd[j] == ue[j])
            && ue[d] == Extent(u.dim, d)
            && (forall j :: |pd| <= j < |u.dim| ==> u.dim[j] == 1)
            && (0 < d ==> |a.v| == Prod(pd[1..]))
            && |u.v| == Prod(ue[1..])
  {
    var pd := Prepared(a, u.dim, d);
    var ue := Fit(u.dim, |pd|);
    forall j | 0 <= j < |pd| && j != d ensures pd[j] == ue[j] {
      if a.dim != [] { assert Extent(a.dim, j) == Extent(u.dim, j) by { if j < Max(|a.dim|, |u.dim|) {} } }
    }
    forall j | |pd| <= j < |u.dim| ensures u.dim[j] == 1 {
      assert Extent(a.dim, j) == Extent(u.dim, j);
    }
    FitProd(u.dim, |pd|);
    if pd[d] == 0 && (a.dim == [] || d >= |a.dim|) {
      PreparedEmpty(a, u, d);
    } else if d < |a.dim| {
    } else {
      FitProd(a.dim, |pd|);
      assert Fit(a.dim, |pd|) == pd;
    }
  }

  lemma PreparedEmpty<T>(a: Arr<T>, u: Arr<T>, d: nat)
    requires Bindable(a, u, d)
    requires a.dim == [] || d >= |a.dim|
    requires Prepared(a, u.dim, d)[d] == 0
    ensures a.v == []
    ensures 0 < d ==> Prod(Prepared(a, u.dim, d)[1..]) == 0
  {
    if 0 < d { ProdZero(Prepared(a, u.dim, d)[1..], d - 1); }
  }

  lemma SliceSplit(ds: seq<nat>, d: nat)
    requires 0 < d < |ds|
    ensures Prod(ds[1..]) == Prod(ds[d + 1..]) * Prod(ds[1..d + 1])
  {
    var t := ds[1..];
    var lo, hi := t[..d], t[d..];
    ProdSplit(t, d);
    MulCommutes(Prod(lo), Prod(hi));
    assert lo == ds[1..d + 1];
    assert hi == ds[d + 1..];
  }

  lemma MulCommutes(x: int, y: int)
    ensures x * y == y * x
  {}

  lemma SliceFit(ds: seq<nat>, d: nat, k: nat)
    requires ds != [] && 0 < d < k
    ensures SliceColumns(ds, d) == Prod(Fit(ds, k)[1..d + 1])
  {
    var f := Fit(ds, k);
    if d < |ds| {
      assert f[1..d + 1] == ds[1..d + 1];
    } else {
      UnitProd(f[1..d + 1], |ds| - 1);
      assert f[1..d + 1][..|ds| - 1] == ds[1..];
    }
  }

  lemma BlockShapes<T>(a: Arr<T>, u: Arr<T>, d: nat)
    requires Bindable(a, u, d) && 0 < d
    ensures var pd := Prepared(a, u.dim, d);
            && |a.v| == Prod(pd[d + 1..]) * Prod(pd[1..d + 1])
            && |u.v| == Prod(pd[d + 1..]) * SliceColumns(u.dim, d)
  {
    var pd := Prepared(a, u.dim, d);
    var ue := Fit(u.dim, |pd|);
    PreparedAgrees(a, u, d);
    SliceSplit(pd, d);
    SliceSplit(ue, d);
    SliceFit(u.dim, d, |pd|);
    assert ue[d + 1..] == pd[d + 1..];
  }

  lemma SliceExtent(ds: seq<nat>, d: nat)
    requires 0 < d < |ds|
    ensures Prod(ds[1..d + 1]) == Prod(ds[1..d]) * ds[d]
  {
    var t := ds[1..d + 1];
    ProdSplit(t, d - 1);
    assert t[..d - 1] == ds[1..d] && t[d - 1..] == [ds[d]];
  }

  /** Extents of the same length that differ at most in dimension `d`. */
  ghost predicate Alike(ad: seq<nat>, ud: seq<nat>, d: nat) {
    && |ad| == |ud| && d < |ad|
    && forall j :: 0 <= j < |ad| && j != d ==> ad[j] == ud[j]
  }

  function Joined(ad: seq<nat>, ud: seq<nat>, d: nat): (r: seq<nat>)
    requires |ad| == |ud| && d < |ad|
    ensures |r| == |ad|
  {
    ad[d := ad[d] + ud[d]]
  }

  /** Only the slice up to `d` grows, by the operand's. */
  lemma JoinedSlices(ad: seq<nat>, ud: seq<nat>, d: nat)
    requires Alike(ad, ud, d) && 0 < d
    ensures var r := Joined(ad, ud, d);
            && r[1..d] == ad[1..d] == ud[1..d]
            && r[d + 1..] == ad[d + 1..] == ud[d + 1..]
            && Prod(r[1..d + 1]) == Prod(ad[1..d + 1]) + Prod(ud[1..d + 1])
  {
    var r := Joined(ad, ud, d);
    assert r[1..d] == ad[1..d] == ud[1..d];
    var p := Prod(ad[1..d]);
    SliceExtent(ad, d);
    SliceExtent(ud, d);
    SliceExtent(r, d);
    Distribute(p, ad[d], ud[d]);
  }

  lemma Distribute(p: int, x: int, y: int)
    ensures p * (x + y) == p * x + p * y
  {}

  lemma JoinedProd(ad: seq<nat>, ud: seq<nat>, d: nat)
    requires Alike(ad, ud, d) && 0 < d
    ensures Prod(Joined(ad, ud, d)[1..]) == Prod(ad[d + 1..]) * (Prod(ad[1..d + 1]) + Prod(ud[1..d + 1]))
  {
    JoinedSlices(ad, ud, d);
    SliceSplit(Joined(ad, ud, d), d);
  }

  /** What binding along `d > 0` is, on prepared extents. */
  lemma BoundIs<T>(a: Arr<T>, u: Arr<T>, d: nat)
    requires Bindable(a, u, d) && 0 < d
    ensures var pd := Prepared(a, u.dim, d); var ue := Fit(u.dim, |pd|);
            var n, ac, uc := Prod(pd[d + 1..]), Prod(pd[1..d + 1]), Prod(ue[1..d + 1]);
            && Alike(pd, ue, d)
            && |a.v| == n * ac && |u.v| == n * uc
            && Bound(a, u, d) == Arr(Joined(pd, ue, d), Interleave(a.v, u.v, ac, uc, n))
  {
    PreparedAgrees(a, u, d);
    BlockShapes(a, u, d);
    SliceFit(u.dim, d, |Prepared(a, u.dim, d)|);
  }

  /** The bound array is well formed. */
  lemma BoundValid<T>(a: Arr<T>, u: Arr<T>, d: nat)
    requires Bindable(a, u, d)
    ensures Bound(a, u, d).Valid()
  {
    PreparedAgrees(a, u, d);
    var pd := Prepared(a, u.dim, d);
    var ue := Fit(u.dim, |pd|);
    if d == 0 {
      assert Bound(a, u, d).dim[1..] == pd[1..] == ue[1..];
    } else {
      BoundIs(a, u, d);
      JoinedValid(pd, ue, d, a.v, u.v);
    }
  }

  lemma JoinedValid<T>(ad: seq<nat>, ud: seq<nat>, d: nat, av: seq<seq<T>>, uv: seq<seq<T>>)
    requires Alike(ad, ud, d) && 0 < d
    requires |av| == Prod(ad[d + 1..]) * Prod(ad[1..d + 1]) && |uv| == Prod(ad[d + 1..]) * Prod(ud[1..d + 1])
    requires forall j :: 0 <= j < |av| ==> |av[j]| == ad[0]
    requires forall j :: 0 <= j < |uv| ==> |uv[j]| == ad[0]
    ensures Arr(Joined(ad, ud, d), Interleave(av, uv, Prod(ad[1..d + 1]), Prod(ud[1..d + 1]), Prod(ad[d + 1..]))).Valid()
  {
    JoinedProd(ad, ud, d);
    InterleaveLengths(av, uv, Prod(ad[1..d + 1]), Prod(ud[1..d + 1]), Prod(ad[d + 1..]), ad[0]);
  }

  lemma InterleaveLengths<T>(a: seq<seq<T>>, u: seq<seq<T>>, ac: nat, uc: nat, n: nat, len: nat)
    requires |a| == n * ac && |u| == n * uc
    requires forall j :: 0 <= j < |a| ==> |a[j]| == len
    requires forall j :: 0 <= j < |u| ==> |u[j]| == len
    ensures forall j :: 0 <= j < n * (ac + uc) ==> |Interleave(a, u, ac, uc, n)[j]| == len
  {
    InterleaveConserves(a, u, ac, uc, n);
    var r := Interleave(a, u, ac, uc, n);
    forall j | 0 <= j < |r| ensures |r[j]| == len {
      assert r[j] in multiset(r);
      assert r[j] in a || r[j] in u;
    }
  }

  /** Column number of a multi-index, by the slice of dimension `d` it lies in. */
  lemma ColumnSplit(ds: seq<nat>, ix: seq<nat>, d: nat)
    requires InRange(ds, ix) && 0 < d < |ds|
    ensures Flat(ds[1..], ix[1..])
            == Flat(ds[1..d], ix[1..d]) + Prod(ds[1..d]) * (ix[d] + ds[d] * Flat(ds[d + 1..], ix[d + 1..]))
  {
    var t, x := ds[1..], ix[1..];
    FlatSplit(t, x, d - 1);
    assert t[..d - 1] == ds[1..d] && x[..d - 1] == ix[1..d];
    var t', x' := t[d - 1..], x[d - 1..];
    assert t'[0] == ds[d] && x'[0] == ix[d];
    assert t'[1..] == ds[d + 1..] && x'[1..] == ix[d + 1..];
  }

  /** The same, as a place inside a block of `p * ds[d]` columns. */
  lemma ColumnSlot(ds: seq<nat>, ix: seq<nat>, d: nat)
    requires InRange(ds, ix) && 0 < d < |ds|
    ensures var lo := Flat(ds[1..d], ix[1..d]); var b := Flat(ds[d + 1..], ix[d + 1..]);
            && lo < Prod(ds[1..d]) && b < Prod(ds[d + 1..])
            && lo + Prod(ds[1..d]) * ix[d] < Prod(ds[1..d + 1])
            && Flat(ds[1..], ix[1..]) == Slot(b, Prod(ds[d + 1..]), Prod(ds[1..d + 1]), lo + Prod(ds[1..d]) * ix[d])
  {
    hide Prod, Flat;
    var lo, p, b := Flat(ds[1..d], ix[1..d]), Prod(ds[1..d]), Flat(ds[d + 1..], ix[d + 1..]);
    FlatBound(ds[1..d], ix[1..d]);
    FlatBound(ds[d + 1..], ix[d + 1..]);
    ColumnSplit(ds, ix, d);
    SliceExtent(ds, d);
    Expand(p, ix[d], ds[d], b);
    MulMono(p, ix[d] + 1, ds[d]);
    assert p * (ix[d] + 1) == p * ix[d] + p;
  }

  lemma Expand(p: int, i: int, e: int, b: int)
    ensures p * (i + e * b) == b * (p * e) + p * i
  {}

  lemma TailOfFront<X>(s: seq<X>, k: nat)
    requires 0 < k <= |s|
    ensures s[1..][..k - 1] == s[..k][1..]
  {}

  /** Reading an array under extents cut or padded to `k` dimensions is reading the array. */
  lemma FitAt(ds: seq<nat>, k: nat, ix: seq<nat>)
    requires ds != [] && 0 < k && |ix| == k
    requires forall j :: k <= j < |ds| ==> ds[j] == 1
    requires InRange(Fit(ds, k), ix)
    ensures InRange(ds, FitIndex(ix, |ds|))
    ensures Flat(ds[1..], FitIndex(ix, |ds|)[1..]) == Flat(Fit(ds, k)[1..], ix[1..])
  {
    var f, jx := Fit(ds, k), FitIndex(ix, |ds|);
    if k <= |ds| {
      assert InRange(ds, jx);
      UnitTail(ds[1..], jx[1..], k - 1);
      assert jx[..k] == ix;
      TailOfFront(ds, k);
      TailOfFront(jx, k);
    } else {
      assert forall j :: 0 <= j < |ds| ==> f[j] == ds[j];
      UnitTail(f[1..], ix[1..], |ds| - 1);
      assert f[..|ds|] == ds;
      TailOfFront(f, |ds|);
      TailOfFront(ix, |ds|);
    }
  }

  lemma ShiftedSlot(ad: seq<nat>, ud: seq<nat>, d: nat, ix: seq<nat>)
    requires Alike(ad, ud, d) && 0 < d && InRange(Joined(ad, ud, d), ix) && ad[d] <= ix[d]
    ensures var lo, b := Flat(ad[1..d], ix[1..d]), Flat(ad[d + 1..], ix[d + 1..]);
            var c := lo + Prod(ad[1..d]) * ix[d] - Prod(ad[1..d + 1]);
            && b < Prod(ad[d + 1..]) && 0 <= c < Prod(ud[1..d + 1])
            && Flat(ud[1..], ix[d := ix[d] - ad[d]][1..]) == Slot(b, Prod(ad[d + 1..]), Prod(ud[1..d + 1]), c)
  {
    hide Prod, Flat;
    var kx := ix[d := ix[d] - ad[d]];
    assert kx[1..d] == ix[1..d] && kx[d + 1..] == ix[d + 1..];
    assert ud[1..d] == ad[1..d] && ud[d + 1..] == ad[d + 1..];
    assert InRange(ud, kx);
    ColumnSlot(ud, kx, d);
    SliceExtent(ad, d);
    Distribute(Prod(ad[1..d]), ad[d], kx[d]);
  }

  /** The column a multi-index reads after the bind. */
  lemma JoinedColumn<X>(ad: seq<nat>, ud: seq<nat>, d: nat, av: seq<X>, uv: seq<X>, ix: seq<nat>)
    requires Alike(ad, ud, d) && 0 < d && InRange(Joined(ad, ud, d), ix)
    requires |av| == Prod(ad[d + 1..]) * Prod(ad[1..d + 1]) && |uv| == Prod(ad[d + 1..]) * Prod(ud[1..d + 1])
    ensures var c := Flat(Joined(ad, ud, d)[1..], ix[1..]);
            var v := Interleave(av, uv, Prod(ad[1..d + 1]), Prod(ud[1..d + 1]), Prod(ad[d + 1..]));
            && c < |v|
            && if ix[d] < ad[d] then
                 var i := Flat(ad[1..], ix[1..]);
                 i < |av| && v[c] == av[i]
               else
                 var j := Flat(ud[1..], ix[d := ix[d] - ad[d]][1..]);
                 j < |uv| && v[c] == uv[j]
  {
    var rd := Joined(ad, ud, d);
    JoinedSlices(ad, ud, d);
    assert ix[d] < ad[d] ==> InRange(ad, ix);
    hide Prod, Flat, Interleave, InRange, Alike;
    var p, n := Prod(ad[1..d]), Prod(ad[d + 1..]);
    var lo, b := Flat(ad[1..d], ix[1..d]), Flat(ad[d + 1..], ix[d + 1..]);
    var ac, uc := Prod(ad[1..d + 1]), Prod(ud[1..d + 1]);
    ColumnSlot(rd, ix, d);
    InterleaveAt(av, uv, ac, uc, n, b, lo + p * ix[d]);
    if ix[d] < ad[d] {
      ColumnSlot(ad, ix, d);
    } else {
      ShiftedSlot(ad, ud, d, ix);
    }
  }

  /** The element of `r` at `rx` is the one of `a` at `ix` when `a` is given the extents `f`. */
  ghost predicate SameElement<T>(r: Arr<T>, rx: seq<nat>, a: Arr<T>, f: seq<nat>, ix: seq<nat>)
    requires r.dim != [] && f != [] && InRange(r.dim, rx) && InRange(f, ix)
  {
    var c := Flat(r.dim[1..], rx[1..]);
    var i := Flat(f[1..], ix[1..]);
    && c < |r.v| && i < |a.v| && rx[0] < |r.v[c]| && ix[0] < |a.v[i]|
    && r.v[c][rx[0]] == a.v[i][ix[0]]
  }

  /** An element read through fitted extents. */
  lemma FitRead<T>(r: Arr<T>, rx: seq<nat>, a: Arr<T>, f: seq<nat>, ix: seq<nat>)
    requires r.Valid() && r.dim != [] && InRange(r.dim, rx)
    requires a.Valid() && a.dim != [] && f != [] && f == Fit(a.dim, |f|) && InRange(f, ix)
    requires forall j :: |f| <= j < |a.dim| ==> a.dim[j] == 1
    requires SameElement(r, rx, a, f, ix)
    ensures InRange(a.dim, FitIndex(ix, |a.dim|))
    ensures At(r, rx) == At(a, FitIndex(ix, |a.dim|))
  {
    FitAt(a.dim, |f|, ix);
  }

  /** Along dimension 0 every column of the receiver is followed by the operand's. */
  lemma RowLaw<T>(a: Arr<T>, u: Arr<T>, ix: seq<nat>)
    requires Bindable(a, u, 0) && InRange(Bound(a, u, 0).dim, ix) && Bound(a, u, 0).Valid()
    ensures var pd := Prepared(a, u.dim, 0); var ue := Fit(u.dim, |pd|); var r := Bound(a, u, 0);
            var c := Flat(r.dim[1..], ix[1..]);
            var kx := if ix[0] < pd[0] then ix else ix[0 := ix[0] - pd[0]];
            && c < |r.v| && c < |u.v| && c == Flat(pd[1..], ix[1..]) && c == Flat(ue[1..], kx[1..])
            && if ix[0] < pd[0] then c < |a.v| && r.v[c][ix[0]] == a.v[c][ix[0]]
               else kx[0] < |u.v[c]| && r.v[c][ix[0]] == u.v[c][kx[0]]
  {
    PreparedAgrees(a, u, 0);
    var pd, r := Prepared(a, u.dim, 0), Bound(a, u, 0);
    var ue := Fit(u.dim, |pd|);
    assert r.dim[1..] == pd[1..];
    assert pd[1..] == ue[1..];
    FlatBound(r.dim[1..], ix[1..]);
    var kx := if ix[0] < pd[0] then ix else ix[0 := ix[0] - pd[0]];
    assert kx[1..] == ix[1..];
  }

  /** Along a later dimension, the element's column is the one `JoinedColumn` names. */
  lemma ColumnLaw<T>(a: Arr<T>, u: Arr<T>, d: nat, ix: seq<nat>)
    requires Bindable(a, u, d) && 0 < d && InRange(Bound(a, u, d).dim, ix)
    ensures var pd := Prepared(a, u.dim, d); var ue := Fit(u.dim, |pd|); var r := Bound(a, u, d);
            var c := Flat(r.dim[1..], ix[1..]);
            && c < |r.v|
            && if ix[d] < pd[d] then
                 var i := Flat(pd[1..], ix[1..]);
                 i < |a.v| && r.v[c] == a.v[i]
               else
                 var j := Flat(ue[1..], ix[d := ix[d] - pd[d]][1..]);
                 j < |u.v| && r.v[c] == u.v[j]
  {
    var pd := Prepared(a, u.dim, d);
    BoundIs(a, u, d);
    JoinedColumn(pd, Fit(u.dim, |pd|), d, a.v, u.v, ix);
  }

  lemma PlaceLaw<T>(a: Arr<T>, u: Arr<T>, d: nat, ix: seq<nat>)
    requires Bindable(a, u, d) && InRange(Bound(a, u, d).dim, ix) && Bound(a, u, d).Valid()
    ensures var pd := Prepared(a, u.dim, d); var ue := Fit(u.dim, |pd|); var r := Bound(a, u, d);
            if ix[d] < pd[d] then InRange(pd, ix) && SameElement(r, ix, a, pd, ix)
            else var kx := ix[d := ix[d] - pd[d]]; InRange(ue, kx) && SameElement(r, ix, u, ue, kx)
  {
    PreparedAgrees(a, u, d);
    if d == 0 {
      RowLaw(a, u, ix);
    } else {
      ColumnLaw(a, u, d, ix);
    }
  }

  /**
   * Binding along any dimension: below the receiver's old extent an element comes from the receiver,
   * at or above it from the operand, at the same place with the receiver's extent taken off.
   */
  lemma ElementLaw<T>(a: Arr<T>, u: Arr<T>, d: nat, ix: seq<nat>)
    requires Bindable(a, u, d) && InRange(Bound(a, u, d).dim, ix)
    ensures Bound(a, u, d).Valid()
    ensures var was := Prepared(a, u.dim, d)[d];
            if ix[d] < was then
              && a.dim != [] && InRange(a.dim, FitIndex(ix, |a.dim|))
              && At(Bound(a, u, d), ix) == At(a, FitIndex(ix, |a.dim|))
            else
              var jx := FitIndex(ix[d := ix[d] - was], |u.dim|);
              InRange(u.dim, jx) && At(Bound(a, u, d), ix) == At(u, jx)
  {
    assert d < |Bound(a, u, d).dim| == |ix|;
    hide *;
    BoundValid(a, u, d);
    PlaceLaw(a, u, d, ix);
    if ix[d] < Prepared(a, u.dim, d)[d] {
      FromReceiver(a, u, d, ix);
    } else {
      FromOperand(a, u, d, ix);
    }
  }

  lemma FromReceiver<T>(a: Arr<T>, u: Arr<T>, d: nat, ix: seq<nat>)
    requires Bindable(a, u, d) && Bound(a, u, d).Valid() && InRange(Bound(a, u, d).dim, ix)
    requires var pd := Prepared(a, u.dim, d); ix[d] < pd[d] && InRange(pd, ix) && SameElement(Bound(a, u, d), ix, a, pd, ix)
    ensures a.dim != [] && InRange(a.dim, FitIndex(ix, |a.dim|)) && At(Bound(a, u, d), ix) == At(a, FitIndex(ix, |a.dim|))
  {
    var pd := Prepared(a, u.dim, d);
    assert a.dim != [] && pd == Fit(a.dim, |pd|) && |a.dim| <= |pd|;
    hide Bound, Prepared, Fit, Flat, Prod, At, SameElement, InRange, FitIndex;
    FitRead(Bound(a, u, d), ix, a, pd, ix);
  }

  lemma FromOperand<T>(a: Arr<T>, u: Arr<T>, d: nat, ix: seq<nat>)
    requires Bindable(a, u, d) && Bound(a, u, d).Valid() && InRange(Bound(a, u, d).dim, ix)
    requires var pd := Prepared(a, u.dim, d); pd[d] <= ix[d]
    requires var pd := Prepared(a, u.dim, d); var kx := ix[d := ix[d] - pd[d]];
             InRange(Fit(u.dim, |pd|), kx) && SameElement(Bound(a, u, d), ix, u, Fit(u.dim, |pd|), kx)
    ensures var jx := FitIndex(ix[d := ix[d] - Prepared(a, u.dim, d)[d]], |u.dim|);
            InRange(u.dim, jx) && At(Bound(a, u, d), ix) == At(u, jx)
  {
    PreparedAgrees(a, u, d);
    var pd := Prepared(a, u.dim, d);
    hide Bound, Prepared, Fit, Flat, Prod, At, SameElement, InRange, FitIndex;
    FitRead(Bound(a, u, d), ix, u, Fit(u.dim, |pd|), ix[d := ix[d] - pd[d]]);
  }

  /** Extent of the receiver in `d`; a dimension it lacks has extent one, or none when it holds no column. */
  function ReceiverExtent<T>(a: Arr<T>, d: nat): nat {
    if a.dim == [] then 0 else if d < |a.dim| then a.dim[d] else if a.v == [] then 0 else 1
  }

  /** The extents of the bound array: both operands' together in `d`, the receiver's (or, for null, the operand's) elsewhere. */
  lemma BoundShape<T>(a: Arr<T>, u: Arr<T>, d: nat)
    requires Bindable(a, u, d)
    ensures var r := Bound(a, u, d).dim; var was := if a.dim == [] then u.dim else a.dim;
            && |r| == Max(|was|, d + 1)
            && r[d] == ReceiverExtent(a, d) + (if d < |u.dim| then u.dim[d] else 1)
            && forall j :: 0 <= j < |r| && j != d ==> r[j] == if j < |was| then was[j] else 1
  {
    hide Interleave;
    BoundValid(a, u, d);
  }

  /** Every element of the receiver is found at its own place in the bound array. */
  lemma ReceiverKept<T>(a: Arr<T>, u: Arr<T>, d: nat, ix: seq<nat>)
    requires Bindable(a, u, d) && a.dim != [] && InRange(a.dim, ix)
    ensures var r := Bound(a, u, d); var rx := FitIndex(ix, |r.dim|);
            r.Valid() && |ix| <= |rx| && InRange(r.dim, rx) && At(r, rx) == At(a, ix)
  {
    BoundShape(a, u, d);
    FlatBound(a.dim[1..], ix[1..]);
    var r := Bound(a, u, d);
    var rx := FitIndex(ix, |r.dim|);
    var was := Prepared(a, u.dim, d)[d];
    assert was == ReceiverExtent(a, d) && rx[d] < was;
    hide Bound, Prepared, Flat, Prod;
    ElementLaw(a, u, d, rx);
    assert FitIndex(rx, |a.dim|) == ix;
  }

  lemma OperandInRange<T>(a: Arr<T>, u: Arr<T>, d: nat, ix: seq<nat>)
    requires Bindable(a, u, d) && InRange(u.dim, ix)
    ensures var r := Bound(a, u, d).dim; var jx := FitIndex(ix, |r|);
            d < |r| && InRange(r, jx[d := ReceiverExtent(a, d) + jx[d]])
  {
    BoundShape(a, u, d);
    hide Bound, ReceiverExtent;
    var r := Bound(a, u, d).dim;
    var jx := FitIndex(ix, |r|);
    forall k | 0 <= k < |r| ensures jx[k] < Extent(u.dim, k) && (k != d ==> r[k] == Extent(u.dim, k)) {
      if k != d && a.dim != [] {
        assert r[k] == Extent(a.dim, k);
        if k < Max(|a.dim|, |u.dim|) { assert Extent(a.dim, k) == Extent(u.dim, k); }
      }
    }
  }

  /** A multi-index cut where the extents are one, or padded, and back. */
  lemma FitBack(ds: seq<nat>, ix: seq<nat>, k: nat)
    requires InRange(ds, ix) && forall j :: k <= j < |ds| ==> ds[j] == 1
    ensures FitIndex(FitIndex(ix, k), |ds|) == ix
  {}

  lemma OperandTail<T>(a: Arr<T>, u: Arr<T>, d: nat)
    requires Bindable(a, u, d)
    ensures forall j :: |Bound(a, u, d).dim| <= j < |u.dim| ==> u.dim[j] == 1
  {
    BoundShape(a, u, d);
    hide Bound;
    forall j | |Bound(a, u, d).dim| <= j < |u.dim| ensures u.dim[j] == 1 {
      assert Extent(a.dim, j) == Extent(u.dim, j);
    }
  }

  lemma MovedBack(jx: seq<nat>, d: nat, was: nat)
    requires d < |jx|
    ensures var rx := jx[d := was + jx[d]]; d < |rx| && was <= rx[d] && rx[d := rx[d] - was] == jx
  {}

  lemma PreparedExtent<T>(a: Arr<T>, us: seq<nat>, d: nat)
    requires a.Valid()
    ensures Prepared(a, us, d)[d] == ReceiverExtent(a, d)
  {}

  lemma OperandRead<T>(a: Arr<T>, u: Arr<T>, d: nat, rx: seq<nat>)
    requires Bindable(a, u, d) && InRange(Bound(a, u, d).dim, rx) && d < |rx| && ReceiverExtent(a, d) <= rx[d]
    ensures Bound(a, u, d).Valid()
    ensures var kx := FitIndex(rx[d := rx[d] - ReceiverExtent(a, d)], |u.dim|);
            InRange(u.dim, kx) && At(Bound(a, u, d), rx) == At(u, kx)
  {
    PreparedExtent(a, u.dim, d);
    hide *;
    ElementLaw(a, u, d, rx);
  }

  /** Every element of the operand is found behind the receiver's in `d`, at its own place in the other dimensions. */
  lemma OperandPlaced<T>(a: Arr<T>, u: Arr<T>, d: nat, ix: seq<nat>)
    requires Bindable(a, u, d) && InRange(u.dim, ix)
    ensures var r := Bound(a, u, d); var jx := FitIndex(ix, |r.dim|);
            && r.Valid() && d < |jx|
            && var rx := jx[d := ReceiverExtent(a, d) + jx[d]]; InRange(r.dim, rx) && At(r, rx) == At(u, ix)
  {
    hide *;
    OperandTail(a, u, d);
    OperandInRange(a, u, d, ix);
    var jx := FitIndex(ix, |Bound(a, u, d).dim|);
    MovedBack(jx, d, ReceiverExtent(a, d));
    OperandRead(a, u, d, jx[d := ReceiverExtent(a, d) + jx[d]]);
    FitBack(u.dim, ix, |Bound(a, u, d).dim|);
  }

  /** A vector of `n` elements as a row: one by `n`, the elements in order. */
  lemma AsRowAt<T>(a: Arr<T>, j: nat)
    requires a.Valid() && |a.dim| == 1 && j < a.dim[0]
    ensures var r := AsRow(a); r.Valid() && r.dim == [1, a.dim[0]] && At(r, [0, j]) == At(a, [j])
  {
    var r := AsRow(a);
    assert [j][1..] == [] && [0, j][1..] == [j] && a.dim[1..] == [] && r.dim[1..] == [a.dim[0]];
    assert Flat([a.dim[0]], [j]) == j + a.dim[0] * Flat([], []);
  }

  lemma OneMore(ds: seq<nat>, ix: seq<nat>, k: nat)
    requires |ds| == |ix| && 1 <= k < |ds|
    ensures Prod(ds[1..k + 1]) == Prod(ds[1..k]) * ds[k]
    ensures Flat(ds[1..k + 1], ix[1..k + 1]) == Flat(ds[1..k], ix[1..k]) + ix[k] * Prod(ds[1..k])
  {
    var t, x := ds[1..k + 1], ix[1..k + 1];
    assert Flat([ds[k]], [ix[k]]) == ix[k] + ds[k] * Flat([], []);
    hide Prod, Flat;
    SliceExtent(ds, k);
    FlatSplit(t, x, k - 1);
    MulCommutes(ix[k], Prod(ds[1..k]));
    assert t[..k - 1] == ds[1..k] && x[..k - 1] == ix[1..k];
    assert t[k - 1..] == [ds[k]] && x[k - 1..] == [ix[k]];
  }

  lemma RowCounts<T>(a: Arr<T>, u: Arr<T>)
    requires Bindable(a, u, 0)
    ensures |a.v| <= |u.v|
  {
    PreparedAgrees(a, u, 0);
    var pd := Prepared(a, u.dim, 0);
    assert pd[1..] == Fit(u.dim, |pd|)[1..];
  }

  lemma ConcatAssoc<X>(x: seq<X>, y: seq<X>, z: seq<X>)
    ensures (x + y) + z == x + (y + z)
  {}

  lemma LastSlice<X>(a: seq<X>, u: seq<X>, ac: nat, uc: nat, j: nat, la: nat, lu: nat)
    requires 0 < j && la == j * ac <= |a| && lu == j * uc <= |u|
    ensures 0 <= la - ac == (j - 1) * ac && 0 <= lu - uc == (j - 1) * uc
    ensures 0 < uc && lu <= uc ==> j == 1
    ensures Interleave(a[..la], u[..lu], ac, uc, j)
            == Interleave(a[..la - ac], u[..lu - uc], ac, uc, j - 1) + (a[la - ac..la] + u[lu - uc..lu])
  {
    LastBlock(j, ac);
    LastBlock(j, uc);
    if 0 < uc && lu <= uc && 1 < j {
      MulStrict(j - 1, 0, uc);
    }
    assert a[..la][..la - ac] == a[..la - ac] && a[..la][la - ac..] == a[la - ac..la];
    assert u[..lu][..lu - uc] == u[..lu - uc] && u[..lu][lu - uc..] == u[lu - uc..lu];
  }

  /** `j` slices of each operand, of sizes `la` and `lu` together, are still to be interleaved in front of `tail`. */
  ghost predicate ToSpread<X>(a: seq<X>, u: seq<X>, ac: nat, uc: nat, n: nat, j: nat, la: int, lu: int, tail: seq<X>) {
    && |a| == n * ac && |u| == n * uc && la == j * ac && lu == j * uc && la <= |a| && lu <= |u|
    && Interleave(a, u, ac, uc, n) == Interleave(a[..la], u[..lu], ac, uc, j) + tail
  }

  lemma SpreadStarts<X>(a: seq<X>, u: seq<X>, ac: nat, uc: nat, n: nat)
    requires |a| == n * ac && |u| == n * uc
    ensures ToSpread(a, u, ac, uc, n, n, |a|, |u|, [])
  {
    assert a[..|a|] == a && u[..|u|] == u;
  }

  lemma SpreadSizes<X>(a: seq<X>, u: seq<X>, ac: nat, uc: nat, n: nat, j: nat, la: int, lu: int, tail: seq<X>)
    requires ToSpread(a, u, ac, uc, n, j, la, lu, tail)
    ensures 0 <= la <= |a| && 0 <= lu <= |u|
    ensures j == 0 ==> la == 0 && lu == 0 && tail == Interleave(a, u, ac, uc, n)
  {}

  lemma SpreadStep<X>(a: seq<X>, u: seq<X>, ac: nat, uc: nat, n: nat, j: nat, la: int, lu: int, tail: seq<X>)
    requires 0 < j && ToSpread(a, u, ac, uc, n, j, la, lu, tail)
    ensures 0 <= la - ac <= la <= |a| && 0 <= lu - uc <= lu <= |u|
    ensures 0 < uc && lu <= uc ==> la == ac
    ensures ToSpread(a, u, ac, uc, n, j - 1, la - ac, lu - uc, a[la - ac..la] + u[lu - uc..lu] + tail)
    ensures j > 1 && uc > 0 ==> uc < lu
  {
    LastSlice(a, u, ac, uc, j, la, lu);
    ConcatAssoc(Interleave(a[..la - ac], u[..lu - uc], ac, uc, j - 1), a[la - ac..la] + u[lu - uc..lu], tail);
  }

  /** Extents agree, a missing one counting as one, in every dimension but `d`; or one side is null. */
  lemma CompatibleIs(ds: seq<nat>, us: seq<nat>, d: nat)
    ensures Compatible(ds, us, d) <==>
            (ds == [] || us == [] ||
             forall j :: 0 <= j && j != d && (j < |ds| || j < |us|) ==>
               (if j < |ds| then ds[j] else 1) == (if j < |us| then us[j] else 1))
  {
    if Compatible(ds, us, d) && ds != [] && us != [] {
      forall j | 0 <= j && j != d && (j < |ds| || j < |us|)
        ensures (if j < |ds| then ds[j] else 1) == (if j < |us| then us[j] else 1)
      {
        assert Extent(ds, j) == Extent(us, j);
      }
    }
  }

  /** Whether arrays of these extents can be bound along dimension `i`. */
  method CheckDims(ds: seq<nat>, us: seq<nat>, i: nat) returns (ok: bool)
    ensures ok <==> Compatible(ds, us, i)
    ensures ok <==>
            (ds == [] || us == [] ||
             forall j :: 0 <= j && j != i && (j < |ds| || j < |us|) ==>
               (if j < |ds| then ds[j] else 1) == (if j < |us| then us[j] else 1))
  {
    CompatibleIs(ds, us, i);
    if |ds| == 0 || |us| == 0 {
      return true;
    }
    var up := if |ds| < |us| then |ds| else |us|;
    for j := 0 to up
      invariant forall k :: 0 <= k < j ==> k == i || Extent(ds, k) == Extent(us, k)
    {
      if j != i && ds[j] != us[j] {
        assert Extent(ds, j) != Extent(us, j);
        return false;
      }
    }
    for j := up to |ds|
      invariant forall k :: 0 <= k < j ==> k == i || Extent(ds, k) == Extent(us, k)
    {
      if j != i && ds[j] != 1 {
        assert Extent(ds, j) != Extent(us, j);
        return false;
      }
    }
    for j := up to |us|
      invariant forall k :: 0 <= k < j || k < |ds| ==> 0 <= k ==> k == i || Extent(ds, k) == Extent(us, k)
    {
      if j != i && us[j] != 1 {
        assert Extent(ds, j) != Extent(us, j);
        return false;
      }
    }
    return true;
  }

  function Gap<T>(n: nat): (g: seq<seq<T>>)
    ensures |g| == n
  {
    seq(n, _ => [])
  }

  /** Swapping the last column before the gap with the last column of the gap moves the gap left. */
  lemma SwapGap<T>(p: seq<seq<T>>, g: nat, t: seq<seq<T>>)
    requires 0 < |p|
    ensures var v, s := p + Gap(g) + t, |p| - 1;
            && (g != 0 ==> v[s + g] == [])
            && v[s := v[s + g]][s + g := v[s]] == p[..s] + Gap(g) + ([p[s]] + t)
  {
  }

  lemma FillGap<T>(p: seq<seq<T>>, g: nat, t: seq<seq<T>>, c: seq<T>)
    requires 0 < g
    ensures var v, e := p + Gap(g) + t, |p| + g - 1;
            v[e] == [] && v[e := c] == p + Gap(g - 1) + ([c] + t)
  {
  }

  lemma ReadStep(ds: seq<nat>, ix: seq<nat>, k: nat, col: nat, mul: nat)
    requires |ds| == |ix| && 1 <= k < |ds| && InRange(ds[..k], ix[..k])
    requires mul == Prod(ds[1..k]) && col == Flat(ds[1..k], ix[1..k])
    ensures if ix[k] >= ds[k] then !InRange(ds, ix) else InRange(ds[..k + 1], ix[..k + 1])
    ensures mul * ds[k] == Prod(ds[1..k + 1]) && col + ix[k] * mul == Flat(ds[1..k + 1], ix[1..k + 1])
  {
    hide Prod, Flat;
    OneMore(ds, ix, k);
  }

  lemma ReadOff<T>(a: Arr<T>, i: seq<nat>, col: nat)
    requires a.Valid() && a.dim != [] && |i| == |a.dim| && InRange(a.dim[..|a.dim|], i[..|a.dim|])
    requires col == Flat(a.dim[1..|a.dim|], i[1..|a.dim|])
    ensures InRange(a.dim, i) && col < |a.v| && i[0] < |a.v[col]| && a.v[col][i[0]] == At(a, i)
  {
    var n := |a.dim|;
    assert a.dim[..n] == a.dim && i[..n] == i && a.dim[1..n] == a.dim[1..] && i[1..n] == i[1..];
    hide Prod, Flat;
    FlatBound(a.dim[1..], i[1..]);
  }

  datatype Outcome = Done | SelfBind | Incompatible

  class Array<T> {
    var dim: seq<nat>
    var v: seq<seq<T>>

    constructor (dim: seq<nat>, v: seq<seq<T>>)
      requires Arr(dim, v).Valid()
      ensures Value() == Arr(dim, v)
    {
      this.dim, this.v := dim, v;
    }

    ghost function Value(): Arr<T>
      reads this
    {
      Arr(dim, v)
    }

    /** Element read: the column number is accumulated one dimension at a time. */
    method Get(i: seq<nat>) returns (r: Option<T>)
      requires Value().Valid() && dim != []
      ensures r == if InRange(dim, i) then Some(At(Value(), i)) else None
    {
      if |i| != |dim| || i[0] >= dim[0] {
        return None;
      }
      var col, mul := 0, 1;
      assert InRange(dim[..1], i[..1]);
      assert Prod(dim[1..1]) == 1 && Flat(dim[1..1], i[1..1]) == 0;
      hide Prod, Flat, At, InRange;
      for k := 1 to |dim|
        invariant InRange(dim[..k], i[..k])
        invariant mul == Prod(dim[1..k]) && col == Flat(dim[1..k], i[1..k])
      {
        ReadStep(dim, i, k, col, mul);
        if i[k] >= dim[k] {
          return None;
        }
        col := col + i[k] * mul;
        mul := mul * dim[k];
      }
      ReadOff(Value(), i, col);
      r := Some(v[col][i[0]]);
    }

    /** Copies a column, element by element, into an empty one. */
    method CopyColumn(c: seq<T>, dest: nat)
      requires dest < |v| && v[dest] == []
      modifies this`v
      ensures v == old(v)[dest := c]
    {
      for l := 0 to |c|
        invariant v == old(v)[dest := c[..l]]
      {
        v := v[dest := v[dest] + [c[l]]];
        assert c[..l + 1] == c[..l] + [c[l]];
      }
      assert c[..|c|] == c;
    }

    /** Copies the next `uc` columns of `uv`, from the last one down, into the end of the gap. */
    method CopySlice(uv: seq<seq<T>>, uc: nat, destoff: int, uoff: int,
                     ghost p: seq<seq<T>>, ghost g: nat, ghost t: seq<seq<T>>)
      returns (dest: int, uo: int, needSwap: bool)
      requires v == p + Gap(g) + t && uc <= g && destoff == |p| + g - 1
      requires uc - 1 <= uoff < |uv|
      modifies this`v
      ensures v == p + Gap(g - uc) + (uv[uoff + 1 - uc..uoff + 1] + t)
      ensures dest == destoff - uc
      ensures needSwap <==> uc == 0 || uc <= uoff
      ensures uo == if needSwap then uoff - uc else 0
    {
      dest, uo, needSwap := destoff, uoff, true;
      ghost var done := t;
      hide Gap;
      for k := 0 to uc
        invariant dest == destoff - k
        invariant needSwap <==> k == 0 || k <= uoff
        invariant uo == if needSwap then uoff - k else 0
        invariant done == uv[uoff + 1 - k..uoff + 1] + t
        invariant v == p + Gap(g - k) + done
      {
        FillGap(p, g - k, done, uv[uo]);
        CopyColumn(uv[uo], dest);
        done := [uv[uo]] + done;
        dest := dest - 1;
        if uo > 0 {
          uo := uo - 1;
        } else {
          needSwap := false;
        }
      }
    }

    /** Moves the `ac` columns before the gap to the end of the gap, from the last one down. */
    method MoveSlice(ac: nat, srcoff: int, destoff: int,
                     ghost p: seq<seq<T>>, ghost g: nat, ghost t: seq<seq<T>>)
      returns (src: int, dest: int)
      requires v == p + Gap(g) + t && ac <= |p|
      requires srcoff == |p| - 1 && destoff == srcoff + g
      modifies this`v
      ensures v == p[..|p| - ac] + Gap(g) + (p[|p| - ac..] + t)
      ensures src == srcoff - ac && dest == destoff - ac
    {
      src, dest := srcoff, destoff;
      ghost var done := t;
      assert p[..|p|] == p;
      for k := 0 to ac
        invariant src == srcoff - k && dest == destoff - k
        invariant done == p[|p| - k..] + t
        invariant v == p[..|p| - k] + Gap(g) + done
      {
        SwapGap(p[..|p| - k], g, done);
        assert v[src] == p[src] && p[src..] == [p[src]] + p[|p| - k..];
        done := [v[src]] + done;
        v := v[src := v[dest]][dest := v[src]];
        src, dest := src - 1, dest - 1;
      }
    }

    /** One block: the last `uc` columns of `u` still to place, then, unless none remains, the last `ac` old columns. */
    method SpreadBlock(uv: seq<seq<T>>, ac: nat, uc: nat, srcoff: int, destoff: int, uoff: int,
                       ghost p: seq<seq<T>>, ghost t: seq<seq<T>>)
      returns (src: int, dest: int, uo: int)
      requires uc - 1 <= uoff < |uv| && ac <= |p|
      requires 0 < uc && uoff + 1 <= uc ==> |p| == ac
      requires v == p + Gap(uoff + 1) + t
      requires srcoff == |p| - 1 && destoff == srcoff + uoff + 1
      modifies this`v
      ensures v == p[..|p| - ac] + Gap(uoff + 1 - uc) + (p[|p| - ac..] + uv[uoff + 1 - uc..uoff + 1] + t)
      ensures uc == 0 || uc <= uoff ==> src == srcoff - ac && dest == destoff - ac - uc && uo == uoff - uc
    {
      var needSwap: bool;
      dest, uo, needSwap := CopySlice(uv, uc, destoff, uoff, p, uoff + 1, t);
      ghost var filled := uv[uoff + 1 - uc..uoff + 1] + t;
      src := srcoff;
      if needSwap {
        src, dest := MoveSlice(ac, srcoff, dest, p, uoff + 1 - uc, filled);
      } else {
        assert p[..0] == [] && p[0..] == p;
      }
      assert p[|p| - ac..] + filled == p[|p| - ac..] + uv[uoff + 1 - uc..uoff + 1] + t;
    }

    /** Appends one empty column per column of `uv`, then interleaves from the last block down. */
    method SpreadColumns(uv: seq<seq<T>>, ac: nat, uc: nat, n: nat)
      requires |v| == n * ac && |uv| == n * uc
      modifies this`v
      ensures v == Interleave(old(v), uv, ac, uc, n)
    {
      hide Interleave;
      ghost var a := v;
      var origSize := |v|;
      for j := 0 to |uv|
        invariant v == a + Gap(j)
      {
        v := v + [[]];
      }
      assert Gap<T>(0) == [];
      hide Gap, ToSpread;
      var destoff: int := |v| - 1;
      var srcoff: int := origSize - 1;
      var uoff: int := |uv| - 1;
      var j := n;
      ghost var tail: seq<seq<T>> := [];
      ghost var la, lu := |a|, |uv|;
      SpreadStarts(a, uv, ac, uc, n);
      assert a[..la] == a;
      while j > 0
        invariant 0 <= j <= n && 0 <= la <= |a| && 0 <= lu <= |uv|
        invariant ToSpread(a, uv, ac, uc, n, j, la, lu, tail)
        invariant 0 < j ==> srcoff == la - 1 && destoff == la + lu - 1 && uoff == lu - 1
        invariant v == a[..la] + Gap(lu) + tail
      {
        SpreadStep(a, uv, ac, uc, n, j, la, lu, tail);
        ghost var p := a[..la];
        srcoff, destoff, uoff := SpreadBlock(uv, ac, uc, srcoff, destoff, uoff, p, tail);
        assert p[..la - ac] == a[..la - ac] && p[la - ac..] == a[la - ac..la];
        tail := a[la - ac..la] + uv[lu - uc..lu] + tail;
        la, lu := la - ac, lu - uc;
        j := j - 1;
      }
      SpreadSizes(a, uv, ac, uc, n, j, la, lu, tail);
    }

    /** Takes over the operand's extents when there is none, and adds the missing dimensions up to `d`. */
    method PrepareDims(us: seq<nat>, d: nat)
      requires us != []
      modifies this`dim
      ensures dim == Prepared(old(Value()), us, d)
    {
      if dim == [] {
        for j := 0 to |us|
          invariant |dim| == j && forall k :: 0 <= k < j ==> dim[k] == if k == d then 0 else us[k]
        {
          dim := dim + [if j == d then 0 else us[j]];
        }
        assert dim == if d < |us| then us[d := 0] else us;
      }
      ghost var p := dim;
      if d >= |dim| {
        for j := |dim| to d + 1
          invariant |dim| == j
          invariant dim == if j <= d then p + Ones(j - |p|) else p + Ones(d - |p|) + [if v == [] then 0 else 1]
        {
          dim := dim + [if |v| == 0 && j == d then 0 else 1];
        }
      }
    }

    /** Lengthens every column by the operand's. */
    method AppendRows(uv: seq<seq<T>>)
      requires |v| <= |uv|
      modifies this`v
      ensures |v| == |uv|
      ensures forall j :: 0 <= j < |v| ==> v[j] == (if j < |old(v)| then old(v)[j] else []) + uv[j]
    {
      ghost var a := v;
      for j := 0 to |uv|
        invariant |v| == Max(|a|, j)
        invariant forall k :: 0 <= k < j ==> v[k] == (if k < |a| then a[k] else []) + uv[k]
        invariant forall k :: j <= k < |a| ==> v[k] == a[k]
      {
        if j >= |v| {
          v := v + [[]];
        }
        ghost var before := v;
        for l := 0 to |uv[j]|
          invariant |v| == |before| && v[j] == before[j] + uv[j][..l]
          invariant forall k :: 0 <= k < |v| && k != j ==> v[k] == before[k]
        {
          v := v[j := v[j] + [uv[j][l]]];
          assert uv[j][..l + 1] == uv[j][..l] + [uv[j][l]];
        }
        assert uv[j][..|uv[j]|] == uv[j];
      }
    }

    /** Binds `w`, which is not this array, along `d`. */
    method BindValue(w: Arr<T>, d: nat) returns (o: Outcome)
      requires Value().Valid() && w.Valid() && w.dim != []
      requires d == 0 ==> |dim| != 1 && |w.dim| != 1
      modifies this
      ensures Value().Valid()
      ensures o == if Compatible(old(dim), w.dim, d) then Done else Incompatible
      ensures Value() == if o == Done then Bound(old(Value()), w, d) else old(Value())
    {
      var ok := CheckDims(dim, w.dim, d);
      if !ok {
        return Incompatible;
      }
      ghost var a := Value();
      BoundValid(a, w, d);
      PrepareDims(w.dim, d);
      assert dim == Prepared(a, w.dim, d);
      if d == 0 {
        RowCounts(a, w);
        AppendRows(w.v);
        assert v == Bound(a, w, d).v;
      } else {
        BlockShapes(a, w, d);
        SpreadColumns(w.v, Prod(dim[1..d + 1]), SliceColumns(w.dim, d), Prod(dim[d + 1..]));
      }
      dim := dim[d := dim[d] + (if d < |w.dim| then w.dim[d] else 1)];
      o := Done;
    }

    /** Vectors bound along dimension 0 are taken as rows; a refused bind can leave the receiver so transposed. */
    method Abind(u: Array<T>, d: nat) returns (o: Outcome)
      requires Value().Valid() && u.Value().Valid() && u.dim != []
      modifies this
      ensures Value().Valid()
      ensures u == this ==> o == SelfBind && Value() == old(Value())
      ensures u != this ==>
                var a := if d == 0 then AsRow(old(Value())) else old(Value());
                var w := if d == 0 then AsRow(u.Value()) else u.Value();
                if Compatible(a.dim, w.dim, d) then o == Done && Value() == Bound(a, w, d)
                else o == Incompatible && Value() == a
    {
      if u == this {
        return SelfBind;
      }
      if d == 0 {
        var a, w := AsRow(Arr(dim, v)), AsRow(Arr(u.dim, u.v));
        if |dim| == 1 {
          dim, v := a.dim, a.v;
        }
        o := BindValue(w, d);
      } else {
        o := BindValue(Arr(u.dim, u.v), d);
      }
    }
  }
}
