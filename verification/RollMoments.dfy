/** Rolling variance and covariance by running sums and a ring of past values. */
module RollMoments {
  import opened Wrappers
  import opened MixedRadix

  type Double = Option<real>

  function Pow2(k: nat): (p: nat)
    ensures 0 < p
  {
    if k == 0 then 1 else 2 * Pow2(k - 1)
  }

  ghost predicate IsPow2(n: nat) {
    exists k: nat :: n == Pow2(k)
  }

  /** The smallest power of two that holds a window. */
  method RingSize(window: nat) returns (ringsz: nat)
    requires 0 < window
    ensures window <= ringsz && IsPow2(ringsz)
    ensures ringsz == window <==> IsPow2(window)
  {
    ringsz := 1;
    ghost var k: nat := 0;
    while ringsz < window
      invariant ringsz == Pow2(k) && (k == 0 || Pow2(k - 1) < window)
      decreases window - ringsz
    {
      ringsz := 2 * ringsz;
      k := k + 1;
    }
    if IsPow2(window) {
      var j: nat :| window == Pow2(j);
      Pow2Between(j, k);
    }
  }

  lemma {:induction false} Pow2Mono(j: nat, k: nat)
    requires j <= k
    ensures Pow2(j) <= Pow2(k)
    decreases k - j
  {
    if j < k { Pow2Mono(j, k - 1); }
  }

  /** No power of two lies strictly between one and its half. */
  lemma Pow2Between(j: nat, k: nat)
    requires Pow2(j) <= Pow2(k) && (k == 0 || Pow2(k - 1) < Pow2(j))
    ensures Pow2(j) == Pow2(k)
  {
    if j < k {
      Pow2Mono(j, k - 1);
    } else {
      Pow2Mono(k, j);
    }
  }

  /** What the ring gives back at row `q`: the input `ringsz` rows before, or what was there when the column began. */
  function Given(xs: seq<real>, ring0: seq<real>, q: nat): real
    requires ring0 != [] && q < |xs|
  {
    if q < |ring0| then ring0[q] else xs[q - |ring0|]
  }

  /** What row `q` takes off the sum. */
  function Leaving(xs: seq<real>, ring0: seq<real>, window: nat, q: nat): real
    requires ring0 != [] && q < |xs|
  {
    if q >= window then Given(xs, ring0, q) else 0.0
  }

  /** The running sum after `r` rows. */
  function RunSum(xs: seq<real>, ring0: seq<real>, window: nat, r: nat): real
    requires ring0 != [] && r <= |xs|
  {
    if r == 0 then 0.0
    else RunSum(xs, ring0, window, r - 1) + xs[r - 1] - Leaving(xs, ring0, window, r - 1)
  }

  /** Number of rows in the window that ends at row `r`. */
  function Rows(window: nat, r: nat): nat {
    if r < window then r + 1 else window
  }

  /** Multiplication and division, named so that proofs can leave them alone. */
  function Times(x: real, y: real): real {
    x * y
  }

  function Over(x: real, y: real): real
    requires y != 0.0
  {
    x / y
  }

  function Formula(sx: real, sy: real, sxy: real, n: nat): real
    requires 1 < n
  {
    Over(sxy - Over(Times(sx, sy), n as real), n as real - 1.0)
  }

  function Products(xs: seq<real>, ys: seq<real>): (ps: seq<real>)
    requires |xs| == |ys|
    ensures |ps| == |xs|
  {
    seq(|xs|, k requires 0 <= k < |xs| => Times(xs[k], ys[k]))
  }

  /** The three rings when a column begins. */
  datatype Rings = Rings(x: seq<real>, y: seq<real>, xy: seq<real>)

  ghost predicate Fit(g: Rings, ringsz: nat) {
    |g.x| == |g.y| == |g.xy| == ringsz && 0 < ringsz
  }

  /** What the running sums give at row `r`. */
  function Computed(xs: seq<real>, ys: seq<real>, g: Rings, window: nat, nbvalid: nat, r: nat): Double
    requires r < |xs| == |ys| && Fit(g, |g.x|) && 1 < nbvalid <= window
  {
    var n := Rows(window, r);
    if n < nbvalid then None
    else Some(Formula(RunSum(xs, g.x, window, r + 1), RunSum(ys, g.y, window, r + 1),
                      RunSum(Products(xs, ys), g.xy, window, r + 1), n))
  }

  /** The ring after `r` rows: the latest inputs in their slots, the rest untouched. */
  ghost predicate RingHolds(ring: seq<real>, ring0: seq<real>, xs: seq<real>, r: nat)
    requires r <= |xs|
  {
    && |ring| == |ring0| && 0 < |ring|
    && (forall q :: 0 <= q < r && r <= q + |ring| ==> ring[q % |ring|] == xs[q])
    && (forall s :: r <= s < |ring| ==> ring[s] == ring0[s])
  }

  lemma SlotOf(q: nat, n: nat)
    requires 0 < n
    ensures q < n ==> q % n == q
    ensures n <= q ==> (q - n) % n == q % n
  {
    if n <= q {
      var t := (q - n) / n;
      DigitUnique(n, (q - n) % n, t + 1);
      MulStep(n, t);
    }
  }

  /** Slots repeat only after a whole turn of the ring. */
  lemma SlotsDiffer(p: nat, q: nat, n: nat)
    requires 0 < n && p < q < p + n
    ensures p % n != q % n
  {
    if p % n == q % n {
      var a, b := p / n, q / n;
      assert q - p == n * (b - a) by { assert p == n * a + p % n && q == n * b + q % n; MulSub(n, b, a); }
      MulStrict(n, 0, b - a);
      MulStrict(n, b - a, 1);
      assert false;
    }
  }

  lemma MulSub(d: int, b: int, a: int)
    ensures d * (b - a) == d * b - d * a
  {}

  lemma RingGives(ring: seq<real>, ring0: seq<real>, xs: seq<real>, r: nat)
    requires r < |xs| && RingHolds(ring, ring0, xs, r)
    ensures ring[r % |ring|] == Given(xs, ring0, r)
  {
    SlotOf(r, |ring|);
    if |ring| <= r {
      assert ring[(r - |ring|) % |ring|] == xs[r - |ring|];
    }
  }

  lemma RingTakes(ring: seq<real>, ring0: seq<real>, xs: seq<real>, r: nat)
    requires r < |xs| && RingHolds(ring, ring0, xs, r)
    ensures RingHolds(ring[r % |ring| := xs[r]], ring0, xs, r + 1)
  {
    var n := |ring|;
    SlotOf(r, n);
    var next := ring[r % n := xs[r]];
    forall q | 0 <= q < r + 1 && r + 1 <= q + n ensures next[q % n] == xs[q] {
      if q < r {
        SlotsDiffer(q, r, n);
      }
    }
    forall s | r + 1 <= s < n ensures next[s] == ring0[s] {}
  }

  /** Adds the input of row `r` to a sum, puts it in its slot, and takes what was there off again once the window is full. */
  method Roll(sum: real, ring: array<real>, window: nat, r: nat, x: real, ghost ring0: seq<real>, ghost xs: seq<real>)
    returns (next: real)
    requires r < |xs| && x == xs[r] && Rolling(sum, ring[..], ring0, xs, window, r)
    modifies ring
    ensures Rolling(next, ring[..], ring0, xs, window, r + 1)
  {
    RingGives(ring[..], ring0, xs, r);
    RingTakes(ring[..], ring0, xs, r);
    var outvalue := ring[r % ring.Length];
    ghost var before := ring[..];
    next := sum + x;
    ring[r % ring.Length] := x;
    assert ring[..] == before[r % ring.Length := x];
    if r >= window {
      next := next - outvalue;
    }
  }

  /** A sum and its ring after `r` rows of a column. */
  ghost predicate Rolling(sum: real, ring: seq<real>, ring0: seq<real>, xs: seq<real>, window: nat, r: nat) {
    r <= |xs| && RingHolds(ring, ring0, xs, r) && sum == RunSum(xs, ring0, window, r)
  }

  lemma RollingStarts(ring: seq<real>, xs: seq<real>, window: nat)
    requires ring != []
    ensures Rolling(0.0, ring, ring, xs, window, 0)
  {}

  function Cell(sx: real, sy: real, sxy: real, n: nat, nbvalid: nat): Double
    requires 1 < nbvalid
  {
    if n < nbvalid then None else Some(Formula(sx, sy, sxy, n))
  }

  /** Number of rows counted before row `r`. */
  function Counted(window: nat, r: nat): nat {
    if r < window then r else window
  }

  method Count(nbv0: nat, window: nat, r: nat) returns (nbv: nat)
    requires nbv0 == Counted(window, r)
    ensures nbv == Rows(window, r) == Counted(window, r + 1)
  {
    nbv := nbv0 + 1;
    if r >= window {
      nbv := nbv - 1;
    }
  }

  lemma ProductAt(xs: seq<real>, ys: seq<real>, r: nat)
    requires r < |xs| == |ys|
    ensures Products(xs, ys)[r] == Times(xs[r], ys[r])
  {}

  /** One row of a pair of columns. */
  method CovRow(xs: seq<real>, ys: seq<real>, ringX: array<real>, ringY: array<real>, ringXY: array<real>, window: nat, nbvalid: nat,
                r: nat, nbv0: nat, sx0: real, sy0: real, sxy0: real, ghost g: Rings)
    returns (z: Double, nbv: nat, sumX: real, sumY: real, sumXY: real)
    requires r < |xs| == |ys| && 1 < nbvalid <= window && Fit(g, |g.x|)
    requires ringX != ringY && ringX != ringXY && ringY != ringXY && nbv0 == Counted(window, r)
    requires Rolling(sx0, ringX[..], g.x, xs, window, r) && Rolling(sy0, ringY[..], g.y, ys, window, r)
    requires Rolling(sxy0, ringXY[..], g.xy, Products(xs, ys), window, r)
    modifies ringX, ringY, ringXY
    ensures z == Computed(xs, ys, g, window, nbvalid, r) && nbv == Counted(window, r + 1)
    ensures Rolling(sumX, ringX[..], g.x, xs, window, r + 1) && Rolling(sumY, ringY[..], g.y, ys, window, r + 1)
    ensures Rolling(sumXY, ringXY[..], g.xy, Products(xs, ys), window, r + 1)
  {
    hide *;
    ProductAt(xs, ys, r);
    sumX := Roll(sx0, ringX, window, r, xs[r], g.x, xs);
    sumY := Roll(sy0, ringY, window, r, ys[r], g.y, ys);
    sumXY := Roll(sxy0, ringXY, window, r, Times(xs[r], ys[r]), g.xy, Products(xs, ys));
    nbv := Count(nbv0, window, r);
    ComputedIs(xs, ys, g, window, nbvalid, r, sumX, ringX[..], sumY, ringY[..], sumXY, ringXY[..]);
    z := Cell(sumX, sumY, sumXY, nbv, nbvalid);
  }

  /** One pair of columns; the rings may hold anything when it begins. */
  method CovColumn(xs: seq<real>, ys: seq<real>, ringX: array<real>, ringY: array<real>, ringXY: array<real>, window: nat, nbvalid: nat)
    returns (z: seq<Double>)
    requires |xs| == |ys| && 1 < nbvalid <= window <= ringX.Length == ringY.Length == ringXY.Length
    requires ringX != ringY && ringX != ringXY && ringY != ringXY
    modifies ringX, ringY, ringXY
    ensures |z| == |xs|
    ensures var g := Rings(old(ringX[..]), old(ringY[..]), old(ringXY[..]));
            forall r :: 0 <= r < |xs| ==> z[r] == Computed(xs, ys, g, window, nbvalid, r)
  {
    ghost var g := Rings(ringX[..], ringY[..], ringXY[..]);
    var nbv: nat, sumX, sumY, sumXY := 0, 0.0, 0.0, 0.0;
    RollingStarts(g.x, xs, window);
    RollingStarts(g.y, ys, window);
    RollingStarts(g.xy, Products(xs, ys), window);
    z := [];
    hide Products, Rolling, Computed;
    for r := 0 to |xs|
      invariant |z| == r && forall q :: 0 <= q < r ==> z[q] == Computed(xs, ys, g, window, nbvalid, q)
      invariant nbv == Counted(window, r)
      invariant Rolling(sumX, ringX[..], g.x, xs, window, r)
      invariant Rolling(sumY, ringY[..], g.y, ys, window, r)
      invariant Rolling(sumXY, ringXY[..], g.xy, Products(xs, ys), window, r)
    {
      var c;
      c, nbv, sumX, sumY, sumXY := CovRow(xs, ys, ringX, ringY, ringXY, window, nbvalid, r, nbv, sumX, sumY, sumXY, g);
      z := z + [c];
    }
  }

  lemma ComputedIs(xs: seq<real>, ys: seq<real>, g: Rings, window: nat, nbvalid: nat, r: nat,
                   sx: real, rx: seq<real>, sy: real, ry: seq<real>, sxy: real, rxy: seq<real>)
    requires r < |xs| == |ys| && Fit(g, |g.x|) && 1 < nbvalid <= window
    requires Rolling(sx, rx, g.x, xs, window, r + 1) && Rolling(sy, ry, g.y, ys, window, r + 1)
    requires Rolling(sxy, rxy, g.xy, Products(xs, ys), window, r + 1)
    ensures Computed(xs, ys, g, window, nbvalid, r) == Cell(sx, sy, sxy, Rows(window, r), nbvalid)
  {
    hide RingHolds, RunSum, Formula;
  }

  lemma RunSumNext(xs: seq<real>, ring0: seq<real>, window: nat, r: nat)
    requires ring0 != [] && r < |xs|
    ensures RunSum(xs, ring0, window, r + 1)
            == RunSum(xs, ring0, window, r) + xs[r] - Leaving(xs, ring0, window, r)
  {}

  /** One row of a column; a negative result, impossible without rounding, is set to zero. */
  method VarRow(a: array<Double>, ring: array<real>, ring2: array<real>, window: nat, nbvalid: nat,
                r: nat, nbv0: nat, s0: real, ss0: real, ghost g: Rings, ghost xs: seq<real>)
    returns (nbv: nat, sum: real, sum2: real)
    requires r < |xs| == a.Length && 1 < nbvalid <= window && Fit(g, |g.x|) && g.x == g.y
    requires ring != ring2 && nbv0 == Counted(window, r) && a[r] == Some(xs[r])
    requires Rolling(s0, ring[..], g.x, xs, window, r) && Rolling(ss0, ring2[..], g.xy, Products(xs, xs), window, r)
    modifies a, ring, ring2
    ensures a[r] == Clamped(Computed(xs, xs, g, window, nbvalid, r)) && nbv == Counted(window, r + 1)
    ensures forall q :: 0 <= q < a.Length && q != r ==> a[q] == old(a[q])
    ensures Rolling(sum, ring[..], g.x, xs, window, r + 1) && Rolling(sum2, ring2[..], g.xy, Products(xs, xs), window, r + 1)
  {
    hide Rolling, Computed, Products, Formula, Times, Rows, Counted;
    ProductAt(xs, xs, r);
    var x := a[r].value;
    sum := Roll(s0, ring, window, r, x, g.x, xs);
    sum2 := Roll(ss0, ring2, window, r, Times(x, x), g.xy, Products(xs, xs));
    nbv := Count(nbv0, window, r);
    ComputedIs(xs, xs, g, window, nbvalid, r, sum, ring[..], sum, ring[..], sum2, ring2[..]);
    if nbv >= nbvalid {
      a[r] := Some(Formula(sum, sum, sum2, nbv));
      if a[r].value < 0.0 {
        a[r] := Some(0.0);
      }
    } else {
      a[r] := None;
    }
  }

  /** One column in place. */
  method VarColumn(a: array<Double>, ring: array<real>, ring2: array<real>, window: nat, nbvalid: nat, ghost xs: seq<real>)
    requires |xs| == a.Length && 1 < nbvalid <= window <= ring.Length == ring2.Length && ring != ring2
    requires forall r :: 0 <= r < a.Length ==> a[r] == Some(xs[r])
    modifies a, ring, ring2
    ensures var g := Rings(old(ring[..]), old(ring[..]), old(ring2[..]));
            forall r :: 0 <= r < a.Length ==> a[r] == Clamped(Computed(xs, xs, g, window, nbvalid, r))
  {
    ghost var g := Rings(ring[..], ring[..], ring2[..]);
    var nbv: nat, sum, sum2 := 0, 0.0, 0.0;
    RollingStarts(g.x, xs, window);
    RollingStarts(g.xy, Products(xs, xs), window);
    hide Products, Rolling, Computed, Clamped;
    for r := 0 to a.Length
      invariant forall q :: 0 <= q < r ==> a[q] == Clamped(Computed(xs, xs, g, window, nbvalid, q))
      invariant forall q :: r <= q < a.Length ==> a[q] == Some(xs[q])
      invariant nbv == Counted(window, r)
      invariant Rolling(sum, ring[..], g.x, xs, window, r)
      invariant Rolling(sum2, ring2[..], g.xy, Products(xs, xs), window, r)
    {
      nbv, sum, sum2 := VarRow(a, ring, ring2, window, nbvalid, r, nbv, sum, sum2, g, xs);
    }
  }

  function Clamped(d: Double): Double {
    if d.Some? && d.value < 0.0 then Some(0.0) else d
  }

  // ----- What the estimator should be -----

  function Sum(xs: seq<real>): real {
    if xs == [] then 0.0 else xs[0] + Sum(xs[1..])
  }

  /** Sum of the products of the distances from `a` and `b`. */
  function Centred(xs: seq<real>, ys: seq<real>, a: real, b: real): real
    requires |xs| == |ys|
  {
    if xs == [] then 0.0 else Times(xs[0] - a, ys[0] - b) + Centred(xs[1..], ys[1..], a, b)
  }

  function Mean(xs: seq<real>): real
    requires xs != []
  {
    Over(Sum(xs), |xs| as real)
  }

  /** The unbiased estimator of the covariance. */
  function Covariance(xs: seq<real>, ys: seq<real>): real
    requires 1 < |xs| == |ys|
  {
    Over(Centred(xs, ys, Mean(xs), Mean(ys)), |xs| as real - 1.0)
  }

  /** The rows of the window that ends at row `r`. */
  function Window(xs: seq<real>, window: nat, r: nat): (w: seq<real>)
    requires r < |xs| && 0 < window
    ensures |w| == Rows(window, r)
  {
    xs[r + 1 - Rows(window, r)..r + 1]
  }

  function Expected(xs: seq<real>, ys: seq<real>, window: nat, nbvalid: nat, r: nat): Double
    requires r < |xs| == |ys| && 1 < nbvalid <= window
  {
    if r + 1 < nbvalid then None else Some(Covariance(Window(xs, window, r), Window(ys, window, r)))
  }

  lemma ProductsTail(xs: seq<real>, ys: seq<real>)
    requires |xs| == |ys| && xs != []
    ensures Products(xs, ys) == [Times(xs[0], ys[0])] + Products(xs[1..], ys[1..])
    ensures Products(xs, ys)[1..] == Products(xs[1..], ys[1..])
  {
    hide Times;
  }

  /** The sum of `(x - a) * (y - b)` over the pairs, expanded. */
  function Expanded(sxy: real, sx: real, sy: real, n: real, a: real, b: real): real {
    sxy - Times(a, sy) - Times(b, sx) + Times(n, Times(a, b))
  }

  lemma {:induction false} CentredExpands(xs: seq<real>, ys: seq<real>, a: real, b: real)
    requires |xs| == |ys|
    ensures Centred(xs, ys, a, b) == Expanded(Sum(Products(xs, ys)), Sum(xs), Sum(ys), |xs| as real, a, b)
  {
    if xs != [] {
      hide Times, Expanded;
      var u, v := xs[1..], ys[1..];
      CentredExpands(u, v, a, b);
      ProductsTail(xs, ys);
      ExpandOne(xs[0], ys[0], a, b, Sum(Products(u, v)), Sum(u), Sum(v), |u| as real);
    } else {
      assert Sum(Products(xs, ys)) == 0.0;
    }
  }

  lemma ExpandOne(x: real, y: real, a: real, b: real, p: real, sx: real, sy: real, n: real)
    ensures Times(x - a, y - b) + Expanded(p, sx, sy, n, a, b) == Expanded(Times(x, y) + p, x + sx, y + sy, n + 1.0, a, b)
  {}

  /** The formula on the sums is the estimator. */
  lemma FormulaIsCovariance(xs: seq<real>, ys: seq<real>)
    requires 1 < |xs| == |ys|
    ensures Formula(Sum(xs), Sum(ys), Sum(Products(xs, ys)), |xs|) == Covariance(xs, ys)
  {
    hide Times, Over, Expanded, Sum, Centred, Products;
    CentredExpands(xs, ys, Mean(xs), Mean(ys));
    MeansCancel(Sum(Products(xs, ys)), Sum(xs), Sum(ys), |xs| as real);
  }

  /** The sum over all pairs of one element of `us` and one of `xs` of the products of their distances. */
  function PairSum(us: seq<real>, vs: seq<real>, xs: seq<real>, ys: seq<real>): real
    requires |us| == |vs| && |xs| == |ys|
  {
    if us == [] then 0.0 else Distances(us[0], vs[0], xs, ys) + PairSum(us[1..], vs[1..], xs, ys)
  }

  function Distances(u: real, v: real, xs: seq<real>, ys: seq<real>): real
    requires |xs| == |ys|
  {
    if xs == [] then 0.0 else (u - xs[0]) * (v - ys[0]) + Distances(u, v, xs[1..], ys[1..])
  }

  lemma {:induction false} DistancesAre(u: real, v: real, xs: seq<real>, ys: seq<real>)
    requires |xs| == |ys|
    ensures Distances(u, v, xs, ys) == Centred(xs, ys, u, v)
  {
    if xs != [] {
      DistancesAre(u, v, xs[1..], ys[1..]);
      assert (u - xs[0]) * (v - ys[0]) == Times(xs[0] - u, ys[0] - v);
    }
  }

  /** What the pair sum comes to, for the sums of one side and of the other. */
  function Paired(m: real, su: real, sv: real, suv: real, n: real, sx: real, sy: real, sxy: real): real {
    m * sxy - su * sy - sv * sx + n * suv
  }

  lemma PairedOne(m: real, su: real, sv: real, suv: real, n: real, sx: real, sy: real, sxy: real, u: real, v: real)
    ensures Expanded(sxy, sx, sy, n, u, v) + Paired(m, su, sv, suv, n, sx, sy, sxy)
            == Paired(m + 1.0, u + su, v + sv, Times(u, v) + suv, n, sx, sy, sxy)
  {
    assert n * (u * v + suv) == n * (u * v) + n * suv;
  }

  lemma {:induction false} PairSumIs(us: seq<real>, vs: seq<real>, xs: seq<real>, ys: seq<real>)
    requires |us| == |vs| && |xs| == |ys|
    ensures PairSum(us, vs, xs, ys) == Paired(|us| as real, Sum(us), Sum(vs), Sum(Products(us, vs)),
                                              |xs| as real, Sum(xs), Sum(ys), Sum(Products(xs, ys)))
  {
    if us == [] {
      assert Products(us, vs) == [];
    } else {
      PairSumIs(us[1..], vs[1..], xs, ys);
      DistancesAre(us[0], vs[0], xs, ys);
      CentredExpands(xs, ys, us[0], vs[0]);
      ProductsTail(us, vs);
      PairedOne(|us[1..]| as real, Sum(us[1..]), Sum(vs[1..]), Sum(Products(us[1..], vs[1..])),
                |xs| as real, Sum(xs), Sum(ys), Sum(Products(xs, ys)), us[0], vs[0]);
      hide Paired, Expanded, Times, Products, Distances, Centred;
    }
  }

  /**
   * Why the estimator is unbiased: it is the mean, over all pairs of different rows, of half the product of their
   * distances in the one column and in the other.
   */
  lemma CovarianceIsPairMean(xs: seq<real>, ys: seq<real>)
    requires 1 < |xs| == |ys|
    ensures var n := |xs| as real; PairSum(xs, ys, xs, ys) == Times(Times(n, n - 1.0), 2.0 * Covariance(xs, ys))
  {
    var n, sx, sy, sxy, c := |xs| as real, Sum(xs), Sum(ys), Sum(Products(xs, ys)), Covariance(xs, ys);
    hide Covariance, PairSum, Sum, Products, Times, Over, Paired;
    PairSumIs(xs, ys, xs, ys);
    FormulaIsCovariance(xs, ys);
    assert Formula(sx, sy, sxy, |xs|) == Over(sxy - Over(Times(sx, sy), n), n - 1.0);
    TwiceTheFormula(sx, sy, sxy, n, c);
  }

  lemma TwiceTheFormula(sx: real, sy: real, sxy: real, n: real, c: real)
    requires n > 1.0 && c == Over(sxy - Over(Times(sx, sy), n), n - 1.0)
    ensures Paired(n, sx, sy, sxy, n, sx, sy, sxy) == Times(Times(n, n - 1.0), 2.0 * c)
  {
    var q := sx * sy / n;
    assert q * n == sx * sy;
    assert c * (n - 1.0) == sxy - q;
    assert n * (n - 1.0) * (2.0 * c) == 2.0 * n * (c * (n - 1.0)) == 2.0 * n * sxy - 2.0 * (q * n);
  }

  lemma MeansCancel(sxy: real, sx: real, sy: real, n: real)
    requires n > 0.0
    ensures Expanded(sxy, sx, sy, n, Over(sx, n), Over(sy, n)) == sxy - Over(Times(sx, sy), n)
  {
    var a, b := sx / n, sy / n;
    assert sx == n * a && sy == n * b;
    Cancel(a, b, n);
  }

  lemma Cancel(a: real, b: real, n: real)
    requires n > 0.0
    ensures (n * a) * (n * b) / n == n * (a * b)
    ensures a * (n * b) == n * (a * b) && b * (n * a) == n * (a * b)
  {
    assert (n * a) * (n * b) == n * (n * (a * b));
  }

  lemma {:induction false} SumSnoc(xs: seq<real>, x: real)
    ensures Sum(xs + [x]) == Sum(xs) + x
  {
    if xs == [] {
      assert [] + [x] == [x] && [x][1..] == [];
    } else {
      SumSnoc(xs[1..], x);
      assert (xs + [x])[1..] == xs[1..] + [x];
    }
  }

  /** While the ring gives back the input that leaves the window, the running sum is the window's sum. */
  lemma {:induction false} RunSumIsWindow(xs: seq<real>, ring0: seq<real>, window: nat, r: nat)
    requires r < |xs| && 0 < window && ring0 != [] && (|ring0| == window || r < window)
    ensures RunSum(xs, ring0, window, r + 1) == Sum(Window(xs, window, r))
  {
    hide *;
    if r == 0 {
      FirstRow(xs, ring0, window);
    } else {
      RunSumIsWindow(xs, ring0, window, r - 1);
      RunSumStep(xs, ring0, window, r);
    }
  }

  lemma RunSumStep(xs: seq<real>, ring0: seq<real>, window: nat, r: nat)
    requires 0 < r < |xs| && 0 < window && ring0 != [] && (|ring0| == window || r < window)
    requires RunSum(xs, ring0, window, r) == Sum(Window(xs, window, r - 1))
    ensures RunSum(xs, ring0, window, r + 1) == Sum(Window(xs, window, r))
  {
    hide *;
    RunSumNext(xs, ring0, window, r);
    WindowNext(xs, ring0, window, r);
  }

  lemma FirstRow(xs: seq<real>, ring0: seq<real>, window: nat)
    requires xs != [] && 0 < window && ring0 != []
    ensures RunSum(xs, ring0, window, 1) == Sum(Window(xs, window, 0))
  {
    assert Window(xs, window, 0) == [xs[0]] && [xs[0]][1..] == [];
    assert RunSum(xs, ring0, window, 0) == 0.0;
  }

  /** The window's sum gains the new row and loses the one that leaves. */
  lemma WindowNext(xs: seq<real>, ring0: seq<real>, window: nat, r: nat)
    requires 0 < r < |xs| && 0 < window && ring0 != [] && (|ring0| == window || r < window)
    ensures Sum(Window(xs, window, r)) == Sum(Window(xs, window, r - 1)) + xs[r] - Leaving(xs, ring0, window, r)
  {
    hide Sum;
    var v, w := Window(xs, window, r - 1), Window(xs, window, r);
    SumSnoc(v, xs[r]);
    if r < window {
      assert w == v + [xs[r]];
    } else {
      var t := v + [xs[r]];
      assert t == xs[r - window..r + 1] && w == xs[r - window + 1..r + 1];
      assert t[0] == xs[r - window] && t[1..] == w;
      SumFirst(t);
    }
  }

  lemma SumFirst(t: seq<real>)
    requires t != []
    ensures Sum(t) == t[0] + Sum(t[1..])
  {}

  /** The running sums give the estimator as long as the ring gives back the inputs that leave the window. */
  lemma ComputedIsExpected(xs: seq<real>, ys: seq<real>, g: Rings, window: nat, nbvalid: nat, r: nat)
    requires r < |xs| == |ys| && Fit(g, |g.x|) && 1 < nbvalid <= window && (|g.x| == window || r < window)
    ensures Computed(xs, ys, g, window, nbvalid, r) == Expected(xs, ys, window, nbvalid, r)
  {
    var ps, u, v := Products(xs, ys), Window(xs, window, r), Window(ys, window, r);
    RunSumIsWindow(xs, g.x, window, r);
    RunSumIsWindow(ys, g.y, window, r);
    RunSumIsWindow(ps, g.xy, window, r);
    WindowProducts(xs, ys, window, r);
    if nbvalid <= r + 1 {
      FormulaIsCovariance(u, v);
    }
    hide RunSum, Sum, Products, Formula, Covariance, Window;
  }

  lemma WindowProducts(xs: seq<real>, ys: seq<real>, window: nat, r: nat)
    requires r < |xs| == |ys| && 0 < window
    ensures Window(Products(xs, ys), window, r) == Products(Window(xs, window, r), Window(ys, window, r))
  {
    hide Times;
  }

  lemma {:induction false} CentredNotNegative(xs: seq<real>, a: real)
    ensures Centred(xs, xs, a, a) >= 0.0
  {
    if xs != [] {
      CentredNotNegative(xs[1..], a);
      Square(xs[0] - a);
    }
  }

  lemma Square(x: real)
    ensures Times(x, x) >= 0.0
  {}

  /** A variance is never negative, so that nothing is ever set to zero. */
  lemma VarianceNotNegative(xs: seq<real>)
    requires 1 < |xs|
    ensures Covariance(xs, xs) >= 0.0
  {
    CentredNotNegative(xs, Mean(xs));
    NotNegativeOver(Centred(xs, xs, Mean(xs), Mean(xs)), |xs| as real - 1.0);
  }

  lemma NotNegativeOver(x: real, y: real)
    requires x >= 0.0 && y > 0.0
    ensures Over(x, y) >= 0.0
  {}

  /** Right on every pair of columns of `n` rows, whatever an earlier column left in the rings. */
  ghost predicate AlwaysRight(n: nat, window: nat, nbvalid: nat, ringsz: nat)
    requires 1 < nbvalid <= window
  {
    forall xs: seq<real>, ys: seq<real>, g: Rings, r: nat ::
      |xs| == n && |ys| == n && r < n && Fit(g, ringsz) ==>
        Computed(xs, ys, g, window, nbvalid, r) == Expected(xs, ys, window, nbvalid, r)
  }

  function Zeros(n: nat): (z: seq<real>)
    ensures |z| == n
  {
    seq(n, _ => 0.0)
  }

  /** Right for the variance of every single column, with rings still at zero. */
  ghost predicate FirstVarianceRight(n: nat, window: nat, nbvalid: nat, ringsz: nat)
    requires 1 < nbvalid <= window && 0 < ringsz
  {
    forall xs: seq<real>, r: nat ::
      |xs| == n && r < n ==>
        Clamped(Computed(xs, xs, Rings(Zeros(ringsz), Zeros(ringsz), Zeros(ringsz)), window, nbvalid, r))
        == Expected(xs, xs, window, nbvalid, r)
  }

  function Spike(n: nat): (xs: seq<real>)
    requires 0 < n
    ensures |xs| == n
  {
    [1.0] + Zeros(n - 1)
  }

  lemma {:induction false} RunSumOfSpike(n: nat, ringsz: nat, window: nat, r: nat)
    requires 0 < r <= n && window < ringsz && r <= window + 1
    ensures RunSum(Spike(n), Zeros(ringsz), window, r) == 1.0
  {
    RunSumNext(Spike(n), Zeros(ringsz), window, r - 1);
    if r == 1 {
      assert RunSum(Spike(n), Zeros(ringsz), window, 0) == 0.0;
    } else {
      RunSumOfSpike(n, ringsz, window, r - 1);
    }
  }

  lemma {:induction false} SumOfZeros(n: nat)
    ensures Sum(Zeros(n)) == 0.0
  {
    if n != 0 {
      SumOfZeros(n - 1);
      assert Zeros(n)[1..] == Zeros(n - 1);
    }
  }

  /** With a window that the ring is too large for, a one before the window still counts. */
  lemma SpikeStays(n: nat, window: nat, nbvalid: nat, ringsz: nat)
    requires 1 < nbvalid <= window < ringsz && window < n
    ensures !FirstVarianceRight(n, window, nbvalid, ringsz)
  {
    var xs, z := Spike(n), Zeros(ringsz);
    SpikeSquared(n);
    RunSumOfSpike(n, ringsz, window, window + 1);
    var w := Window(xs, window, window);
    assert w == Zeros(window);
    SumOfZeros(window);
    ZerosSquared(window);
    FormulaIsCovariance(w, w);
    TwoFormulas(window);
    hide RunSum, Sum, Formula, Products, Covariance, Window, Zeros;
    assert Computed(xs, xs, Rings(z, z, z), window, nbvalid, window) == Some(Formula(1.0, 1.0, 1.0, window));
    assert Expected(xs, xs, window, nbvalid, window) == Some(Formula(0.0, 0.0, 0.0, window));
  }

  lemma SpikeSquared(n: nat)
    requires 0 < n
    ensures Products(Spike(n), Spike(n)) == Spike(n)
  {}

  lemma ZerosSquared(n: nat)
    ensures Products(Zeros(n), Zeros(n)) == Zeros(n)
  {}

  lemma TwoFormulas(n: nat)
    requires 1 < n
    ensures Formula(0.0, 0.0, 0.0, n) == 0.0 && Formula(1.0, 1.0, 1.0, n) > 0.0
  {
    var m := n as real;
    assert 1.0 / m < 1.0;
    assert Over(1.0 - Over(1.0, m), m - 1.0) > 0.0;
  }

  /**
   * The ring-buffer functions give the unbiased estimator on every input exactly when the window is a power
   * of two, or no longer than it takes to fill it once.
   */
  lemma RightExactlyWhen(n: nat, window: nat, nbvalid: nat, ringsz: nat)
    requires 1 < nbvalid <= window <= ringsz && (ringsz == window <==> IsPow2(window))
    ensures AlwaysRight(n, window, nbvalid, ringsz) <==> IsPow2(window) || n <= window
    ensures FirstVarianceRight(n, window, nbvalid, ringsz) <==> IsPow2(window) || n <= window
  {
    hide IsPow2;
    if ringsz == window || n <= window {
      AlwaysRightWhen(n, window, nbvalid, ringsz);
      VarianceFollows(n, window, nbvalid, ringsz);
    } else {
      SpikeStays(n, window, nbvalid, ringsz);
      if AlwaysRight(n, window, nbvalid, ringsz) {
        VarianceFollows(n, window, nbvalid, ringsz);
      }
    }
  }

  lemma AlwaysRightWhen(n: nat, window: nat, nbvalid: nat, ringsz: nat)
    requires 1 < nbvalid <= window <= ringsz && (ringsz == window || n <= window)
    ensures AlwaysRight(n, window, nbvalid, ringsz)
  {
    hide Computed, Expected;
    forall xs: seq<real>, ys: seq<real>, g: Rings, r: nat | |xs| == n && |ys| == n && r < n && Fit(g, ringsz)
      ensures Computed(xs, ys, g, window, nbvalid, r) == Expected(xs, ys, window, nbvalid, r)
    {
      ComputedIsExpected(xs, ys, g, window, nbvalid, r);
    }
  }

  lemma VarianceFollows(n: nat, window: nat, nbvalid: nat, ringsz: nat)
    requires 1 < nbvalid <= window <= ringsz && AlwaysRight(n, window, nbvalid, ringsz)
    ensures FirstVarianceRight(n, window, nbvalid, ringsz)
  {
    hide Computed;
    var z := Zeros(ringsz);
    forall xs: seq<real>, r: nat | |xs| == n && r < n
      ensures Clamped(Computed(xs, xs, Rings(z, z, z), window, nbvalid, r)) == Expected(xs, xs, window, nbvalid, r)
    {
      assert Fit(Rings(z, z, z), ringsz);
      assert Computed(xs, xs, Rings(z, z, z), window, nbvalid, r) == Expected(xs, xs, window, nbvalid, r);
      if nbvalid <= r + 1 {
        VarianceNotNegative(Window(xs, window, r));
      }
    }
  }

  /** Every column in place, with rings shared by all of them. */
  method RollVarInPlace(cols: seq<array<Double>>, rows: nat, window: nat, nbvalid: nat, ghost xss: seq<seq<real>>)
    requires 1 < nbvalid <= window <= rows && |xss| == |cols|
    requires forall c :: 0 <= c < |cols| ==> cols[c].Length == rows == |xss[c]|
    requires forall c, d :: 0 <= c < d < |cols| ==> cols[c] != cols[d]
    requires forall c, r :: 0 <= c < |cols| && 0 <= r < rows ==> cols[c][r] == Some(xss[c][r])
    modifies set c | c in cols
    ensures IsPow2(window) || rows <= window ==>
              forall c, r :: 0 <= c < |cols| && 0 <= r < rows ==> cols[c][r] == Expected(xss[c], xss[c], window, nbvalid, r)
  {
    var ringsz := RingSize(window);
    var ring, ring2 := new real[ringsz](_ => 0.0), new real[ringsz](_ => 0.0);
    ghost var good := IsPow2(window) || rows <= window;
    hide Expected, Computed, IsPow2;
    for c := 0 to |cols|
      invariant good ==> forall d, r :: 0 <= d < c && 0 <= r < rows ==> cols[d][r] == Expected(xss[d], xss[d], window, nbvalid, r)
      invariant forall d, r :: c <= d < |cols| && 0 <= r < rows ==> cols[d][r] == Some(xss[d][r])
    {
      ghost var g := Rings(ring[..], ring[..], ring2[..]);
      VarColumn(cols[c], ring, ring2, window, nbvalid, xss[c]);
      if good {
        forall r | 0 <= r < rows ensures cols[c][r] == Expected(xss[c], xss[c], window, nbvalid, r) {
          UnclampedIsExpected(xss[c], g, window, nbvalid, r);
        }
      }
    }
  }

  lemma UnclampedIsExpected(xs: seq<real>, g: Rings, window: nat, nbvalid: nat, r: nat)
    requires r < |xs| && Fit(g, |g.x|) && g.x == g.y && 1 < nbvalid <= window && (|g.x| == window || r < window)
    ensures Clamped(Computed(xs, xs, g, window, nbvalid, r)) == Expected(xs, xs, window, nbvalid, r)
  {
    hide Computed;
    ComputedIsExpected(xs, xs, g, window, nbvalid, r);
    if nbvalid <= r + 1 {
      VarianceNotNegative(Window(xs, window, r));
    }
  }

  /** Column `j` of block `i` is the rolling covariance of `xs` and `ys`. */
  ghost predicate IsCov(z: seq<seq<Double>>, i: nat, j: nat, xs: seq<real>, ys: seq<real>, n: nat, window: nat, nbvalid: nat)
    requires 1 < nbvalid <= window && |xs| == |ys|
  {
    i * n + j < |z| && |z[i * n + j]| == |xs| && forall r :: 0 <= r < |xs| ==> z[i * n + j][r] == Expected(xs, ys, window, nbvalid, r)
  }

  lemma ColumnIsCov(xs: seq<real>, ys: seq<real>, g: Rings, col: seq<Double>, z: seq<seq<Double>>, i: nat, j: nat, n: nat,
                    window: nat, nbvalid: nat)
    requires 1 < nbvalid <= window && |xs| == |ys| == |col| && |z| == i * n + j
    requires Fit(g, |g.x|) && (|g.x| == window || |xs| <= window)
    requires forall r :: 0 <= r < |xs| ==> col[r] == Computed(xs, ys, g, window, nbvalid, r)
    ensures IsCov(z + [col], i, j, xs, ys, n, window, nbvalid)
  {
    hide Expected, Computed, IsPow2;
    forall r | 0 <= r < |xs| ensures col[r] == Expected(xs, ys, window, nbvalid, r) {
      ComputedIsExpected(xs, ys, g, window, nbvalid, r);
    }
  }

  /** Every pair of columns, with rings shared by all of them; refused when the numbers of rows differ. */
  method RollCov(xss: seq<seq<real>>, yss: seq<seq<real>>, rowsX: nat, rowsY: nat, window: nat, nbvalid: nat)
    returns (zss: Option<seq<seq<Double>>>)
    requires 1 < nbvalid <= window
    requires forall c :: 0 <= c < |xss| ==> |xss[c]| == rowsX
    requires forall c :: 0 <= c < |yss| ==> |yss[c]| == rowsY
    ensures zss == None <==> rowsX != rowsY
    ensures zss.Some? ==> |zss.value| == |xss| * |yss|
    ensures zss.Some? && (IsPow2(window) || rowsX <= window) ==>
              forall i, j :: 0 <= i < |xss| && 0 <= j < |yss| ==> IsCov(zss.value, i, j, xss[i], yss[j], |yss|, window, nbvalid)
  {
    if rowsX != rowsY {
      return None;
    }
    var ringsz := RingSize(window);
    var ringX, ringY, ringXY := new real[ringsz](_ => 0.0), new real[ringsz](_ => 0.0), new real[ringsz](_ => 0.0);
    var z: seq<seq<Double>> := [];
    ghost var good := IsPow2(window) || rowsX <= window;
    hide Expected, Computed, IsPow2, IsCov;
    for i := 0 to |xss|
      invariant |z| == i * |yss|
      invariant good ==> forall k, j :: 0 <= k < i && 0 <= j < |yss| ==> IsCov(z, k, j, xss[k], yss[j], |yss|, window, nbvalid)
    {
      for j := 0 to |yss|
        invariant |z| == i * |yss| + j
        invariant good ==> forall k, l :: 0 <= k < i && 0 <= l < |yss| ==> IsCov(z, k, l, xss[k], yss[l], |yss|, window, nbvalid)
        invariant good ==> forall l :: 0 <= l < j ==> IsCov(z, i, l, xss[i], yss[l], |yss|, window, nbvalid)
      {
        ghost var g := Rings(ringX[..], ringY[..], ringXY[..]);
        var col := CovColumn(xss[i], yss[j], ringX, ringY, ringXY, window, nbvalid);
        if good { ColumnIsCov(xss[i], yss[j], g, col, z, i, j, |yss|, window, nbvalid); }
        z := z + [col];
      }
      MulStep(|yss|, i);
    }
    zss := Some(z);
  }
}
