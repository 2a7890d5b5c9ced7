/** Assigning through one index per dimension, and reading the assigned elements back. */
module Subassign {
  import opened MixedRadix
  import opened Bind
  import opened Cursor
  import opened Odometer
  import opened Subset

  /** `after` is `before` with each position in `es` holding one of the values meant for it. */
  ghost predicate Assigned<T>(before: seq<T>, after: seq<T>, es: seq<nat>, us: seq<T>)
    requires |es| == |us|
  {
    && |after| == |before|
    && (forall p :: 0 <= p < |before| && p !in es ==> after[p] == before[p])
    && (forall p :: 0 <= p < |before| && p in es ==> exists j :: 0 <= j < |es| && es[j] == p && after[p] == us[j])
  }

  /** Positions written in the order `vidx`, each with the value that belongs to its place in the index. */
  method AssignListed<T>(x: Index, col: seq<T>, u: seq<T>, vj: nat) returns (r: seq<T>, uj: nat)
    requires Valid(x) && x.IntIx? && Subset.Within(x.vi, |col|) && vj + |x.vi| <= |u|
    ensures uj == vj + |x.vi| && Assigned(col, r, x.vi, u[vj..uj])
  {
    var n := |x.vi|;
    r := col;
    for j := 0 to n
      invariant |r| == |col|
      invariant forall p :: 0 <= p < |col| && p !in x.vidx[..j] ==> r[p] == col[p]
      invariant forall p :: 0 <= p < |col| && p in x.vidx[..j] ==>
                  exists k :: 0 <= k < n && x.vi[k] == p && r[p] == u[vj..vj + n][k]
    {
      assert x.vidx[j] == x.vi[x.uidx[j]];
      ghost var k := x.uidx[j];
      assert u[vj..vj + n][k] == u[vj + k];
      r := r[x.vidx[j] := u[vj + x.uidx[j]]];
    }
    uj := vj + n;
    SameElements(x);
    assert x.vidx[..n] == x.vidx;
  }

  lemma SameElements(x: Index)
    requires Valid(x) && x.IntIx?
    ensures forall p :: p in x.vidx <==> p in x.vi
  {
    Covers(x.uidx, |x.vi|);
    forall p | p in x.vi ensures p in x.vidx {
      var y :| 0 <= y < |x.vi| && x.vi[y] == p;
      assert y in x.uidx;
      var k :| 0 <= k < |x.uidx| && x.uidx[k] == y;
      assert x.vidx[k] == p;
    }
  }

  /** Positions written as the cursor enumerates them. */
  method AssignByCursor<T>(x: Index, col: seq<T>, u: seq<T>, vj: nat) returns (r: seq<T>, uj: nat)
    requires Valid(x) && Subset.Within(Elems(x), |col|) && vj + |Elems(x)| <= |u|
    ensures uj == vj + |Elems(x)| && Assigned(col, r, Elems(x), u[vj..uj])
  {
    r, uj := col, vj;
    ghost var es := Elems(x);
    ghost var us := u[vj..vj + |es|];
    AssignedNone(col, es, us);
    hide Elems, Assigned, Valid;
    var ok, j, ii := GetFirst(x, 0, 0);
    if !ok {
      assert es[..0] == es && us[..0] == us;
      return;
    }
    ghost var k := 0;
    while true
      invariant k < |es| && uj == vj + k && StandsAt(x, k, j, ii)
      invariant Assigned(col, r, es[..k], us[..k])
      decreases |es| - k
    {
      var more, nextj, nextii := GetNext(x, j, ii, k);
      assert us[k] == u[uj];
      AssignOne(col, r, es, us, k);
      r, uj := r[j := u[uj]], uj + 1;
      k := k + 1;
      if !more {
        assert es[..k] == es && us[..k] == us;
        return;
      }
      j, ii := nextj, nextii;
    }
  }

  lemma AssignedNone<T>(col: seq<T>, es: seq<nat>, us: seq<T>)
    requires |es| == |us|
    ensures Assigned(col, col, es[..0], us[..0])
  {
  }

  lemma AssignOne<T>(col: seq<T>, r: seq<T>, es: seq<nat>, us: seq<T>, k: nat)
    requires |es| == |us| && k < |es| && Assigned(col, r, es[..k], us[..k]) && es[k] < |col|
    ensures Assigned(col, r[es[k] := us[k]], es[..k + 1], us[..k + 1])
  {
    var s := r[es[k] := us[k]];
    var es', us' := es[..k + 1], us[..k + 1];
    assert es' == es[..k] + [es[k]];
    forall p | 0 <= p < |col| && p in es'
      ensures exists j :: 0 <= j < |es'| && es'[j] == p && s[p] == us'[j]
    {
      if p == es[k] {
        assert es'[k] == p && us'[k] == s[p];
      } else {
        var j :| 0 <= j < k && es[..k][j] == p && r[p] == us[..k][j];
        assert es'[j] == p && us'[j] == s[p];
      }
    }
  }

  /** One column through the first index. */
  method AssignColumn<T>(x: Index, col: seq<T>, u: seq<T>, vj: nat) returns (r: seq<T>, uj: nat)
    requires Valid(x) && (!x.IntIx? ==> x.sz == |col|) && Subset.Within(Elems(x), |col|) && vj + |Elems(x)| <= |u|
    ensures uj == vj + |Elems(x)| && Assigned(col, r, Elems(x), u[vj..uj])
  {
    match x {
      case NullIx(sz) =>
        r, uj := col, vj;
        for j := 0 to |col|
          invariant |r| == |col| && uj == vj + j
          invariant forall p :: 0 <= p < |col| ==> r[p] == if p < j then u[vj + p] else col[p]
        {
          r, uj := r[j := u[uj]], uj + 1;
        }
        WholeColumn(col, r, u[vj..uj]);
      case IntIx(_, _, _) =>
        r, uj := AssignListed(x, col, u, vj);
      case NegIx(_, _) =>
        r, uj := AssignByCursor(x, col, u, vj);
    }
  }

  lemma WholeColumn<T>(col: seq<T>, r: seq<T>, us: seq<T>)
    requires |r| == |col| == |us| && forall p :: 0 <= p < |col| ==> r[p] == us[p]
    ensures Assigned(col, r, Iota(|col|), us)
  {
    var es := Iota(|col|);
    forall p | 0 <= p < |col| ensures p in es && exists j :: 0 <= j < |es| && es[j] == p && r[p] == us[j] {
      assert es[p] == p;
    }
  }

  /** The columns in the order of the walk. */
  function Walk(dim: seq<nat>, ixs: seq<Index>): (w: seq<Cell>)
    requires dim != [] && |ixs| == |dim|
    ensures |w| == Prod(Counts(ixs[1..]))
  {
    seq(Prod(Counts(ixs[1..])), p requires 0 <= p < Prod(Counts(ixs[1..])) => ColumnAt(dim, ixs, p))
  }

  /** The elements of `u` cut into `n` runs, one for each column of the walk. */
  function Runs<T>(u: seq<T>, len: nat, n: nat): (us: seq<seq<T>>)
    requires |u| == n * len
    ensures |us| == n && forall q :: 0 <= q < n ==> |us[q]| == len
  {
    seq(n, q requires 0 <= q < n => Run(u, len, n, q))
  }

  function Run<T>(u: seq<T>, len: nat, n: nat, q: nat): (r: seq<T>)
    requires q < n && |u| == n * len
    ensures |r| == len
  {
    MulMono(len, q + 1, n);
    MulStep(len, q);
    u[q * len..q * len + len]
  }

  ghost predicate Shaped<T>(walk: seq<Cell>, es: seq<nat>, us: seq<seq<T>>) {
    |us| == |walk| && forall q :: 0 <= q < |us| ==> |us[q]| == |es|
  }

  /** The `q`-th visited column is `c`, and the first index sends `j` to row `r`. */
  ghost predicate Reaches(walk: seq<Cell>, es: seq<nat>, q: nat, j: nat, c: nat, r: nat)
    requires q < |walk| && j < |es|
  {
    walk[q] == Col(c) && es[j] == r
  }

  /** A cell reached by one of the first `p` columns of the walk holds a value meant for it; another is as before. */
  ghost predicate CellWritten<T>(walk: seq<Cell>, es: seq<nat>, us: seq<seq<T>>, p: nat, c: nat, r: nat, x: T, x': T)
    requires Shaped(walk, es, us) && p <= |walk|
  {
    || (exists q, j | 0 <= q < p && 0 <= j < |es| :: Reaches(walk, es, q, j, c, r) && x' == us[q][j])
    || (x' == x && forall q, j | 0 <= q < p && 0 <= j < |es| :: !Reaches(walk, es, q, j, c, r))
  }

  /** All cells after the first `p` columns of the walk. */
  ghost predicate Written<T>(walk: seq<Cell>, es: seq<nat>, us: seq<seq<T>>, p: nat, v: seq<seq<T>>, v': seq<seq<T>>)
    requires Shaped(walk, es, us) && p <= |walk|
  {
    && |v'| == |v|
    && (forall c :: 0 <= c < |v| ==> |v'[c]| == |v[c]|)
    && forall c, r :: 0 <= c < |v| && 0 <= r < |v[c]| ==> CellWritten(walk, es, us, p, c, r, v[c][r], v'[c][r])
  }

  lemma NothingWritten<T>(walk: seq<Cell>, es: seq<nat>, us: seq<seq<T>>, v: seq<seq<T>>)
    requires Shaped(walk, es, us)
    ensures Written(walk, es, us, 0, v, v)
  {
  }

  /** Assigning the walk's next column keeps every cell accounted for. */
  lemma WrittenStep<T>(walk: seq<Cell>, es: seq<nat>, us: seq<seq<T>>, p: nat,
                       v: seq<seq<T>>, v': seq<seq<T>>, k: nat, col: seq<T>)
    requires Shaped(walk, es, us) && p < |walk| && walk[p] == Col(k) && k < |v|
    requires Written(walk, es, us, p, v, v') && Assigned(v'[k], col, es, us[p])
    ensures Written(walk, es, us, p + 1, v, v'[k := col])
  {
    forall c, r | 0 <= c < |v| && 0 <= r < |v[c]|
      ensures CellWritten(walk, es, us, p + 1, c, r, v[c][r], v'[k := col][c][r])
    {
      if c == k && r in es {
        var j :| 0 <= j < |es| && es[j] == r && col[r] == us[p][j];
        assert Reaches(walk, es, p, j, c, r);
      } else {
        assert CellWritten(walk, es, us, p, c, r, v[c][r], v'[c][r]);
        assert forall j | 0 <= j < |es| :: !Reaches(walk, es, p, j, c, r);
      }
    }
  }

  lemma ProductNext(cs: seq<nat>, d: nat, n0: nat)
    requires 0 < d < |cs|
    ensures Prod(cs[1..d + 1]) * n0 == Prod(cs[1..d]) * n0 * cs[d]
  {
    hide Prod;
    SliceExtent(cs, d);
    MulAssoc(Prod(cs[1..d]), cs[d], n0);
    MulAssoc(Prod(cs[1..d]), n0, cs[d]);
  }

  /** Number of elements the indices select. */
  method Selected(ixs: seq<Index>) returns (nelts: nat)
    requires ixs != [] && forall k :: 0 <= k < |ixs| ==> Valid(ixs[k])
    ensures nelts == Prod(Counts(ixs[1..])) * |Elems(ixs[0])|
  {
    var n0 := TrueSize(ixs[0]);
    nelts := n0;
    ghost var cs := Counts(ixs);
    assert Prod(cs[1..1]) == 1;
    hide Prod, Elems, Valid;
    for d := 1 to |ixs|
      invariant nelts == Prod(cs[1..d]) * n0
    {
      var n := TrueSize(ixs[d]);
      ProductNext(cs, d, n0);
      nelts := nelts * n;
    }
    assert cs[1..|ixs|] == cs[1..] == Counts(ixs[1..]);
  }

  datatype Ending = AllAssigned | WrongIndexCount | WrongLength | HitOutside

  /** The next column of the walk is there. */
  lemma NextColumn<T>(a: Arr<T>, ixs: seq<Index>, c: nat, p: nat)
    requires a.Valid() && a.dim != [] && |ixs| == |a.dim| && p < |Walk(a.dim, ixs)| && Walk(a.dim, ixs)[p] == Col(c)
    ensures c < |a.v| && |a.v[c]| == a.dim[0]
  {
    var vs := Values(ixs[1..], Unflat(Counts(ixs[1..]), p));
    hide Prod, Flat, Unflat, Elems;
    ColumnExists(a.dim, vs);
  }

  /** So is its run of elements, from `uj` on. */
  lemma NextRun<T>(u: seq<T>, len: nat, n: nat, p: nat, uj: nat)
    requires |u| == n * len && p < n && uj == p * len
    ensures uj + len == (p + 1) * len <= |u| && Runs(u, len, n)[p] == u[uj..uj + len]
  {
    MulMono(len, p + 1, n);
    MulStep(len, p);
  }

  /** One column of the walk. */
  method AssignNext<T>(a: Array<T>, ixs: seq<Index>, u: seq<T>, c: nat, uj: nat, ghost p: nat, ghost v0: seq<seq<T>>)
    returns (vj: nat)
    requires a.Value().Valid() && a.dim != [] && Fits(a.dim, ixs) && Subset.Within(Elems(ixs[0]), a.dim[0])
    requires |u| == |Walk(a.dim, ixs)| * |Elems(ixs[0])|
    requires p < |Walk(a.dim, ixs)| && Walk(a.dim, ixs)[p] == Col(c) && uj == p * |Elems(ixs[0])|
    requires var walk := Walk(a.dim, ixs);
             Written(walk, Elems(ixs[0]), Runs(u, |Elems(ixs[0])|, |walk|), p, v0, a.v)
    modifies a`v
    ensures a.Value().Valid() && vj == (p + 1) * |Elems(ixs[0])|
    ensures var walk := Walk(a.dim, ixs);
            Written(walk, Elems(ixs[0]), Runs(u, |Elems(ixs[0])|, |walk|), p + 1, v0, a.v)
  {
    ghost var walk, es := Walk(a.dim, ixs), Elems(ixs[0]);
    NextColumn(a.Value(), ixs, c, p);
    NextRun(u, |es|, |walk|, p, uj);
    hide Prod, Elems, Counts, CellWritten, Walk, Runs, Written;
    var col: seq<T>;
    col, vj := AssignColumn(ixs[0], a.v[c], u, uj);
    WrittenStep(walk, es, Runs(u, |es|, |walk|), p, v0, a.v, c, col);
    a.v := a.v[c := col];
  }

  /** The walk of an assignment, column by column. */
  method AssignWalk<T>(a: Array<T>, ixs: seq<Index>, u: seq<T>) returns (o: Ending, ghost p: nat)
    requires a.Value().Valid() && a.dim != [] && Fits(a.dim, ixs) && Subset.Within(Elems(ixs[0]), a.dim[0])
    requires |u| == Prod(Counts(ixs[1..])) * |Elems(ixs[0])|
    modifies a`v
    ensures a.Value().Valid()
    ensures o == AllAssigned || o == HitOutside
    ensures var walk := Walk(a.dim, ixs);
            && p <= |walk| && (forall q :: 0 <= q < p ==> walk[q].Col?)
            && (if o == AllAssigned then p == |walk| else p < |walk| && walk[p] == OutOfBounds)
            && Written(walk, Elems(ixs[0]), Runs(u, |Elems(ixs[0])|, |walk|), p, old(a.v), a.v)
  {
    hide Digits, ColumnAt, Counts, Elems, Run, CellWritten, StandsAt;
    var val, pi := new nat[|a.dim|](_ => 0), new nat[|a.dim|](_ => 0);
    ghost var walk, es, v0 := Walk(a.dim, ixs), Elems(ixs[0]), a.v;
    NothingWritten(walk, es, Runs(u, |es|, |walk|), a.v);
    var c := StartWalk(val, pi, ixs, a.dim);
    var uj := 0;
    p := 0;
    while c != End
      invariant a.Value().Valid()
      invariant Walking(a.dim, ixs, val[..], pi[..], c, p)
      invariant uj == p * |es|
      invariant Written(walk, es, Runs(u, |es|, |walk|), p, v0, a.v)
      decreases |walk| - p
    {
      if c == OutOfBounds {
        return HitOutside, p;
      }
      uj := AssignNext(a, ixs, u, c.col, uj, p, v0);
      c := StepWalk(val, pi, ixs, a.dim, c, p);
      p := p + 1;
    }
    o := AllAssigned;
  }

  /**
   * Assigns the elements of `u`, taken in column-major order.  A position outside an outer dimension
   * stops the walk with the columns before it already assigned.
   */
  method Subassign<T>(a: Array<T>, ixs: seq<Index>, u: seq<T>) returns (o: Ending, ghost p: nat)
    requires a.Value().Valid() && a.dim != []
    requires |ixs| == |a.dim| ==> Fits(a.dim, ixs) && Subset.Within(Elems(ixs[0]), a.dim[0])
    modifies a`v
    ensures a.Value().Valid()
    ensures o == WrongIndexCount <==> |ixs| != |a.dim|
    ensures o == WrongLength <==> |ixs| == |a.dim| && |u| != Prod(Counts(ixs[1..])) * |Elems(ixs[0])|
    ensures o == WrongIndexCount || o == WrongLength ==> a.v == old(a.v)
    ensures o == AllAssigned || o == HitOutside ==>
              var walk := Walk(a.dim, ixs);
              && (o == AllAssigned <==> |walk| == 0 || AllWithin(a.dim, ixs, 1))
              && p <= |walk| && (forall q :: 0 <= q < p ==> walk[q].Col?)
              && (if o == AllAssigned then p == |walk| else p < |walk| && walk[p] == OutOfBounds)
              && Written(walk, Elems(ixs[0]), Runs(u, |Elems(ixs[0])|, |walk|), p, old(a.v), a.v)
  {
    p := 0;
    if |ixs| != |a.dim| {
      return WrongIndexCount, p;
    }
    var nelts := Selected(ixs);
    if nelts != |u| {
      return WrongLength, p;
    }
    o, p := AssignWalk(a, ixs, u);
    ghost var walk := Walk(a.dim, ixs);
    if o == HitOutside {
      StoppedOutside(a.dim, ixs, p);
    } else {
      assert forall q :: 0 <= q < |walk| ==> walk[q] == ColumnAt(a.dim, ixs, q);
      WalkedInside(a.dim, ixs);
    }
  }

  ghost predicate AllDistinct(ixs: seq<Index>) {
    forall k :: 0 <= k < |ixs| ==> Distinct(Elems(ixs[k]))
  }

  /** Without repetition, an index over everything or an exclusion included, different digits pick different values. */
  lemma ValuesInjective(ixs: seq<Index>, ds: seq<nat>, es: seq<nat>)
    requires InRange(Counts(ixs), ds) && InRange(Counts(ixs), es) && AllDistinct(ixs)
    requires Values(ixs, ds) == Values(ixs, es)
    ensures ds == es
  {
    forall k | 0 <= k < |ixs| ensures ds[k] == es[k] {
      assert Distinct(Elems(ixs[k]));
      assert Values(ixs, ds)[k] == Values(ixs, es)[k];
    }
  }

  lemma FlatInjective(ds: seq<nat>, x: seq<nat>, y: seq<nat>)
    requires InRange(ds, x) && InRange(ds, y) && Flat(ds, x) == Flat(ds, y)
    ensures x == y
  {
    UnflatFlat(ds, x);
    UnflatFlat(ds, y);
  }

  /** The walk visits a column at most once. */
  lemma WalkInjective(dim: seq<nat>, ixs: seq<Index>, p: nat, q: nat)
    requires dim != [] && |ixs| == |dim| && AllDistinct(ixs[1..])
    requires p < |Walk(dim, ixs)| && q < |Walk(dim, ixs)|
    requires Walk(dim, ixs)[p] == Walk(dim, ixs)[q] && Walk(dim, ixs)[p].Col?
    ensures p == q
  {
    var cs, t := Counts(ixs[1..]), ixs[1..];
    var ds, es := Unflat(cs, p), Unflat(cs, q);
    FlatInjective(dim[1..], Values(t, ds), Values(t, es));
    ValuesInjective(t, ds, es);
    FlatUnflat(cs, p);
    FlatUnflat(cs, q);
  }

  lemma {:induction false} ConcatRuns<T>(u: seq<T>, len: nat, n: nat)
    requires |u| == n * len
    ensures Concat(Runs(u, len, n)) == u
  {
    if n != 0 {
      var us := Runs(u, len, n);
      MulStep(len, n - 1);
      var w := u[..(n - 1) * len];
      ConcatRuns(w, len, n - 1);
      LastRun(u, len, n);
      ConcatSplit(Runs(w, len, n - 1), [us[n - 1]]);
      assert Concat([us[n - 1]]) == us[n - 1] + Concat([us[n - 1]][1..]);
    }
  }

  lemma RunPrefix<T>(u: seq<T>, len: nat, n: nat, q: nat)
    requires q + 1 < n && |u| == n * len
    ensures 0 <= (n - 1) * len <= |u| && Run(u, len, n, q) == Run(u[..(n - 1) * len], len, n - 1, q)
  {
    MulStep(len, n - 1);
    MulMono(len, q + 1, n - 1);
    MulStep(len, q);
    var i, l := q * len, (n - 1) * len;
    assert u[i..i + len] == u[..l][i..i + len];
  }

  lemma LastRun<T>(u: seq<T>, len: nat, n: nat)
    requires 0 < n && |u| == n * len
    ensures 0 <= (n - 1) * len <= |u|
    ensures Runs(u, len, n) == Runs(u[..(n - 1) * len], len, n - 1) + [u[(n - 1) * len..]]
  {
    MulStep(len, n - 1);
    var l := (n - 1) * len;
    assert Run(u, len, n, n - 1) == u[l..];
    hide Run;
    forall q | 0 <= q < n - 1 ensures Run(u, len, n, q) == Run(u[..l], len, n - 1, q) {
      RunPrefix(u, len, n, q);
    }
    assert Runs(u, len, n) == Runs(u[..l], len, n - 1) + [u[l..]];
  }

  /** The value at a cell that was assigned. */
  lemma AssignedCell<T>(dim: seq<nat>, ixs: seq<Index>, u: seq<T>, v: seq<seq<T>>, v': seq<seq<T>>, p: nat, j: nat)
    requires dim != [] && |ixs| == |dim| && AllDistinct(ixs) && Arr(dim, v).Valid()
    requires |u| == |Walk(dim, ixs)| * |Elems(ixs[0])|
    requires Written(Walk(dim, ixs), Elems(ixs[0]), Runs(u, |Elems(ixs[0])|, |Walk(dim, ixs)|), |Walk(dim, ixs)|, v, v')
    requires p < |Walk(dim, ixs)| && j < |Elems(ixs[0])| && Walk(dim, ixs)[p].Col?
    requires Walk(dim, ixs)[p].col < |v| && Elems(ixs[0])[j] < dim[0]
    ensures v'[Walk(dim, ixs)[p].col][Elems(ixs[0])[j]] == Run(u, |Elems(ixs[0])|, |Walk(dim, ixs)|, p)[j]
  {
    hide Run, ColumnAt;
    var walk, es := Walk(dim, ixs), Elems(ixs[0]);
    var us := Runs(u, |es|, |walk|);
    var c, r := walk[p].col, es[j];
    assert Reaches(walk, es, p, j, c, r);
    assert CellWritten(walk, es, us, |walk|, c, r, v[c][r], v'[c][r]);
    var q, i :| 0 <= q < |walk| && 0 <= i < |es| && Reaches(walk, es, q, i, c, r) && v'[c][r] == us[q][i];
    assert Distinct(es);
    assert AllDistinct(ixs[1..]);
    WalkInjective(dim, ixs, p, q);
  }

  /** Reading the assigned positions back gives what was assigned, in column-major order. */
  lemma ReadBack<T>(a: Arr<T>, ixs: seq<Index>, u: seq<T>, v': seq<seq<T>>)
    requires a.Valid() && a.dim != [] && |ixs| == |a.dim| && AllWithin(a.dim, ixs, 0) && AllDistinct(ixs)
    requires |u| == |Walk(a.dim, ixs)| * |Elems(ixs[0])|
    requires var walk := Walk(a.dim, ixs);
             Written(walk, Elems(ixs[0]), Runs(u, |Elems(ixs[0])|, |walk|), |walk|, a.v, v')
    ensures Contents(Selection(Arr(a.dim, v'), ixs)) == u
  {
    var walk, es, b := Walk(a.dim, ixs), Elems(ixs[0]), Arr(a.dim, v');
    var sv, us := Selection(b, ixs).v, Runs(u, |es|, |walk|);
    forall p | 0 <= p < |walk| ensures sv[p] == us[p] {
      ColumnWithin(a.dim, ixs, p);
      assert Subset.Within(es, a.dim[0]);
      forall j | 0 <= j < |es| ensures sv[p][j] == us[p][j] {
        AssignedCell(a.dim, ixs, u, a.v, v', p, j);
      }
    }
    assert sv == us;
    ConcatRuns(u, |es|, |walk|);
  }

  /** An element that some index does not select is not touched, however far the walk got. */
  lemma Untouched<T>(a: Arr<T>, ixs: seq<Index>, u: seq<T>, p: nat, v': seq<seq<T>>, m: seq<nat>, k: nat)
    requires a.Valid() && a.dim != [] && |ixs| == |a.dim| && InRange(a.dim, m)
    requires k < |m| && m[k] !in Elems(ixs[k])
    requires |u| == |Walk(a.dim, ixs)| * |Elems(ixs[0])| && p <= |Walk(a.dim, ixs)|
    requires var walk := Walk(a.dim, ixs);
             Written(walk, Elems(ixs[0]), Runs(u, |Elems(ixs[0])|, |walk|), p, a.v, v')
    ensures Arr(a.dim, v').Valid() && At(Arr(a.dim, v'), m) == At(a, m)
  {
    var walk, es := Walk(a.dim, ixs), Elems(ixs[0]);
    var c, r := Flat(a.dim[1..], m[1..]), m[0];
    FlatBound(a.dim[1..], m[1..]);
    forall q, j | 0 <= q < p && 0 <= j < |es| ensures !Reaches(walk, es, q, j, c, r) {
      if 0 < k {
        NotReached(a.dim, ixs, q, m, k);
      }
    }
    assert CellWritten(walk, es, Runs(u, |es|, |walk|), p, c, r, a.v[c][r], v'[c][r]);
  }

  lemma NotReached(dim: seq<nat>, ixs: seq<Index>, q: nat, m: seq<nat>, k: nat)
    requires dim != [] && |ixs| == |dim| && InRange(dim, m) && q < |Walk(dim, ixs)|
    requires 0 < k < |m| && m[k] !in Elems(ixs[k])
    ensures Walk(dim, ixs)[q] != Col(Flat(dim[1..], m[1..]))
  {
    var ds := Unflat(Counts(ixs[1..]), q);
    assert ixs[1..][k - 1] == ixs[k] && m[1..][k - 1] == m[k];
    NotPicked(ixs[1..], ds, m[1..], k - 1);
    hide Unflat, Prod;
    if InRange(dim[1..], Values(ixs[1..], ds)) {
      FlatDiffers(dim[1..], Values(ixs[1..], ds), m[1..]);
    }
  }

  lemma NotPicked(ixs: seq<Index>, ds: seq<nat>, m: seq<nat>, k: nat)
    requires InRange(Counts(ixs), ds) && k < |m| == |ixs| && m[k] !in Elems(ixs[k])
    ensures Values(ixs, ds) != m
  {
    assert Values(ixs, ds)[k] in Elems(ixs[k]);
  }

  lemma FlatDiffers(ds: seq<nat>, x: seq<nat>, y: seq<nat>)
    requires InRange(ds, x) && InRange(ds, y) && x != y
    ensures Flat(ds, x) != Flat(ds, y)
  {
    if Flat(ds, x) == Flat(ds, y) {
      FlatInjective(ds, x, y);
    }
  }

  /** A repeated position reads the same value at both its places, so no assignment can be read back there. */
  lemma RepetitionCollides<T>(b: Arr<T>, ixs: seq<Index>, ds: seq<nat>, d: nat, i: nat, j: nat)
    requires b.Valid() && b.dim != [] && |ixs| == |b.dim| && AllWithin(b.dim, ixs, 0)
    requires InRange(Counts(ixs), ds) && d < |ixs|
    requires i < j < |Elems(ixs[d])| && Elems(ixs[d])[i] == Elems(ixs[d])[j]
    ensures Selection(b, ixs).Valid()
    ensures At(Selection(b, ixs), ds[d := i]) == At(Selection(b, ixs), ds[d := j])
  {
    Subset.ElementLaw(b, ixs, ds[d := i]);
    Subset.ElementLaw(b, ixs, ds[d := j]);
    assert Values(ixs, ds[d := i]) == Values(ixs, ds[d := j]);
  }

  // ----- When everything assigned can be read back -----

  /** No list of positions repeats one. */
  ghost predicate ListedOnce(ixs: seq<Index>) {
    forall k :: 0 <= k < |ixs| && ixs[k].IntIx? ==> Distinct(ixs[k].vi)
  }

  /** An index over everything and an exclusion never repeat a position. */
  lemma NeverRepeats(x: Index)
    requires Valid(x) && !x.IntIx?
    ensures Distinct(Elems(x))
  {
    if x.NegIx? {
      NegativeIsComplement(x);
    }
  }

  lemma ListedOnceIs(ixs: seq<Index>)
    requires forall k :: 0 <= k < |ixs| ==> Valid(ixs[k])
    ensures ListedOnce(ixs) <==> AllDistinct(ixs)
  {
    forall k | 0 <= k < |ixs| ensures !ixs[k].IntIx? ==> Distinct(Elems(ixs[k])) {
      if !ixs[k].IntIx? { NeverRepeats(ixs[k]); }
    }
    if AllDistinct(ixs) {
      forall k | 0 <= k < |ixs| && ixs[k].IntIx? ensures Distinct(ixs[k].vi) {
        assert Distinct(Elems(ixs[k]));
      }
    }
  }

  /** `v'` is what assigning `u` through the indices can leave. */
  ghost predicate AllWritten<T>(a: Arr<T>, ixs: seq<Index>, u: seq<T>, v': seq<seq<T>>)
    requires a.dim != [] && |ixs| == |a.dim|
  {
    var walk, es := Walk(a.dim, ixs), Elems(ixs[0]);
    |u| == |walk| * |es| && Written(walk, es, Runs(u, |es|, |walk|), |walk|, a.v, v')
  }

  /** Whatever is assigned through the indices is read back through them. */
  ghost predicate ReadsBack<T(!new)>(a: Arr<T>, ixs: seq<Index>)
    requires a.dim != [] && |ixs| == |a.dim|
  {
    forall u: seq<T>, v': seq<seq<T>> :: AllWritten(a, ixs, u, v') ==> Contents(Selection(Arr(a.dim, v'), ixs)) == u
  }

  ghost function CellValue<T>(walk: seq<Cell>, es: seq<nat>, us: seq<seq<T>>, c: nat, r: nat, x: T): (x': T)
    requires Shaped(walk, es, us)
    ensures CellWritten(walk, es, us, |walk|, c, r, x, x')
  {
    if q: nat, j: nat :| q < |walk| && j < |es| && Reaches(walk, es, q, j, c, r) then us[q][j] else x
  }

  lemma SomethingWritten<T>(a: Arr<T>, ixs: seq<Index>, u: seq<T>) returns (v': seq<seq<T>>)
    requires a.dim != [] && |ixs| == |a.dim| && |u| == |Walk(a.dim, ixs)| * |Elems(ixs[0])|
    ensures AllWritten(a, ixs, u, v')
  {
    var walk, es := Walk(a.dim, ixs), Elems(ixs[0]);
    var us := Runs(u, |es|, |walk|);
    hide Walk, Elems, Runs, CellWritten;
    v' := seq(|a.v|, c requires 0 <= c < |a.v| =>
            seq(|a.v[c]|, r requires 0 <= r < |a.v[c]| => CellValue(walk, es, us, c, r, a.v[c][r])));
  }

  lemma CountsRest(ixs: seq<Index>)
    requires ixs != []
    ensures Counts(ixs)[0] == |Elems(ixs[0])| && Counts(ixs)[1..] == Counts(ixs[1..])
  {
    hide Elems;
  }

  lemma ProductFirst(cs: seq<nat>)
    requires cs != []
    ensures Prod(cs) == Prod(cs[1..]) * cs[0]
  {}

  lemma CountProduct(ixs: seq<Index>)
    requires ixs != []
    ensures Counts(ixs)[1..] == Counts(ixs[1..]) && Prod(Counts(ixs)) == Prod(Counts(ixs[1..])) * |Elems(ixs[0])|
  {
    hide Prod, Elems, Counts;
    CountsRest(ixs);
    ProductFirst(Counts(ixs));
  }

  /** The two places of a repeated position, in column-major order. */
  lemma TwoPlaces(ixs: seq<Index>, d: nat, i: nat, j: nat) returns (ds: seq<nat>, f: nat, g: nat)
    requires (forall k :: 0 <= k < |ixs| ==> Elems(ixs[k]) != []) && d < |ixs| && i < j < |Elems(ixs[d])|
    ensures |ds| == |ixs| && InRange(Counts(ixs), ds[d := i]) && InRange(Counts(ixs), ds[d := j]) && InRange(Counts(ixs), ds)
    ensures f == Flat(Counts(ixs), ds[d := i]) && g == Flat(Counts(ixs), ds[d := j])
    ensures f != g && f < Prod(Counts(ixs)) && g < Prod(Counts(ixs))
  {
    var cs := Counts(ixs);
    ds := seq(|ixs|, k => 0);
    f, g := Flat(cs, ds[d := i]), Flat(cs, ds[d := j]);
    assert ds[d := i][d] != ds[d := j][d];
    FlatDiffers(cs, ds[d := i], ds[d := j]);
    FlatBound(cs, ds[d := i]);
    FlatBound(cs, ds[d := j]);
  }

  lemma PlacesAlike<T>(b: Arr<T>, ixs: seq<Index>, ds: seq<nat>, d: nat, i: nat, j: nat)
    requires b.Valid() && b.dim != [] && |ixs| == |b.dim| && AllWithin(b.dim, ixs, 0) && d < |ixs| && InRange(Counts(ixs), ds)
    requires InRange(Counts(ixs), ds[d := i]) && InRange(Counts(ixs), ds[d := j])
    requires i < j < |Elems(ixs[d])| && Elems(ixs[d])[i] == Elems(ixs[d])[j]
    ensures var f, g := Flat(Counts(ixs), ds[d := i]), Flat(Counts(ixs), ds[d := j]); var w := Contents(Selection(b, ixs));
            f < |w| && g < |w| && w[f] == w[g]
  {
    hide Prod, Flat, Elems, Contents;
    RepetitionCollides(b, ixs, ds, d, i, j);
    SelectionDim(b, ixs);
    hide Selection;
    ContentsAt(Selection(b, ixs), ds[d := i]);
    ContentsAt(Selection(b, ixs), ds[d := j]);
  }

  /** A repeated position: what holds different values at its two places is not read back. */
  lemma RepetitionLoses<T(!new)>(a: Arr<T>, ixs: seq<Index>, d: nat, i: nat, j: nat, x: T, y: T)
    requires x != y && a.Valid() && a.dim != [] && |ixs| == |a.dim| && AllWithin(a.dim, ixs, 0)
    requires forall k :: 0 <= k < |ixs| ==> Elems(ixs[k]) != []
    requires d < |ixs| && i < j < |Elems(ixs[d])| && Elems(ixs[d])[i] == Elems(ixs[d])[j]
    ensures !ReadsBack(a, ixs)
  {
    var ds, f, g := TwoPlaces(ixs, d, i, j);
    CountProduct(ixs);
    var u := seq(Prod(Counts(ixs)), k => if k == f then x else y);
    hide Prod, Flat, Walk, Written, Selection, Contents;
    var v' := SomethingWritten(a, ixs, u);
    StillValid(a, ixs, u, v');
    PlacesAlike(Arr(a.dim, v'), ixs, ds, d, i, j);
    assert u[f] != u[g];
  }

  lemma SelectionDim<T>(b: Arr<T>, ixs: seq<Index>)
    requires b.dim != [] && |ixs| == |b.dim|
    ensures Selection(b, ixs).dim == Counts(ixs)
  {}

  lemma StillValid<T>(a: Arr<T>, ixs: seq<Index>, u: seq<T>, v': seq<seq<T>>)
    requires a.Valid() && a.dim != [] && |ixs| == |a.dim| && AllWritten(a, ixs, u, v')
    ensures Arr(a.dim, v').Valid()
  {}

  /** Nothing selected is nothing assigned. */
  lemma NothingToRead<T>(a: Arr<T>, ixs: seq<Index>, k: nat, u: seq<T>, v': seq<seq<T>>)
    requires a.Valid() && a.dim != [] && |ixs| == |a.dim| && AllWithin(a.dim, ixs, 0) && AllWritten(a, ixs, u, v')
    requires k < |ixs| && Elems(ixs[k]) == []
    ensures u == [] == Contents(Selection(Arr(a.dim, v'), ixs))
  {
    var cs := Counts(ixs);
    CountProduct(ixs);
    ZeroProduct(cs, k);
    StillValid(a, ixs, u, v');
    var b := Selection(Arr(a.dim, v'), ixs);
    SelectionValid(Arr(a.dim, v'), ixs);
    ConcatLength(b.v, b.dim[0]);
  }

  lemma {:induction false} ZeroProduct(cs: seq<nat>, k: nat)
    requires k < |cs| && cs[k] == 0
    ensures Prod(cs) == 0
  {
    if k > 0 { ZeroProduct(cs[1..], k - 1); }
  }

  /**
   * For elements of which there are two: whatever is assigned is read back if and only if no listed position is
   * repeated or nothing is selected.
   */
  lemma ReadBackIsExact<T(!new)>(a: Arr<T>, ixs: seq<Index>, x: T, y: T)
    requires x != y && a.Valid() && a.dim != [] && Fits(a.dim, ixs) && AllWithin(a.dim, ixs, 0)
    ensures ReadsBack(a, ixs) <==> ListedOnce(ixs) || exists k :: 0 <= k < |ixs| && Elems(ixs[k]) == []
  {
    ListedOnceIs(ixs);
    if k :| 0 <= k < |ixs| && Elems(ixs[k]) == [] {
      forall u: seq<T>, v': seq<seq<T>> | AllWritten(a, ixs, u, v')
        ensures Contents(Selection(Arr(a.dim, v'), ixs)) == u
      {
        NothingToRead(a, ixs, k, u, v');
      }
    } else if ListedOnce(ixs) {
      forall u: seq<T>, v': seq<seq<T>> | AllWritten(a, ixs, u, v')
        ensures Contents(Selection(Arr(a.dim, v'), ixs)) == u
      {
        ReadBack(a, ixs, u, v');
      }
    } else {
      var d :| 0 <= d < |ixs| && ixs[d].IntIx? && !Distinct(ixs[d].vi);
      var i, j :| 0 <= i < j < |ixs[d].vi| && ixs[d].vi[i] == ixs[d].vi[j];
      RepetitionLoses(a, ixs, d, i, j, x, y);
    }
  }
}
