/** Column-major positions: how a multi-index becomes the number of a column, and back. */
module MixedRadix {

  /** Number of positions of a space with the given extents. */
  function Prod(ds: seq<nat>): nat {
    if ds == [] then 1 else ds[0] * Prod(ds[1..])
  }

  /** Position of `ix` when the first index varies fastest. */
  function Flat(ds: seq<nat>, ix: seq<nat>): nat
    requires |ds| == |ix|
  {
    if ds == [] then 0 else ix[0] + ds[0] * Flat(ds[1..], ix[1..])
  }

  predicate InRange(ds: seq<nat>, ix: seq<nat>) {
    && |ds| == |ix|
    && forall k :: 0 <= k < |ds| ==> ix[k] < ds[k]
  }

  /** The multi-index found at position `c`. */
  function Unflat(ds: seq<nat>, c: nat): (ix: seq<nat>)
    requires c < Prod(ds)
    ensures InRange(ds, ix)
  {
    if ds == [] then
      []
    else
      QuotientBound(ds[0], Prod(ds[1..]), c);
      [c % ds[0]] + Unflat(ds[1..], c / ds[0])
  }

  lemma MulMono(d: int, a: int, b: int)
    requires 0 <= d && a <= b
    ensures d * a <= d * b
  {}

  lemma MulStep(d: int, c: int)
    ensures d * (c + 1) == d * c + d
  {}

  lemma MulStrict(d: int, a: int, b: int)
    requires 0 <= d && d * a < d * b
    ensures 0 < d && a < b
  {}

  lemma MulAssoc(a: int, b: int, c: int)
    ensures a * (b * c) == (a * b) * c
  {}

  lemma QuotientBound(d: nat, p: nat, c: nat)
    requires c < d * p
    ensures 0 < d && c / d < p && c == c % d + d * (c / d) && c % d < d
  {
    MulStrict(d, 0, p);
    MulStrict(d, c / d, p);
  }

  lemma DigitUnique(d: nat, r: nat, q: nat)
    requires r < d
    ensures (r + d * q) % d == r && (r + d * q) / d == q
  {
    var c := r + d * q;
    var t := c / d;
    assert c == c % d + d * t;
    assert d * (t + 1) == d * t + d && d * (q + 1) == d * q + d;
    MulStrict(d, t, q + 1);
    MulStrict(d, q, t + 1);
  }

  lemma {:induction false} FlatBound(ds: seq<nat>, ix: seq<nat>)
    requires InRange(ds, ix)
    ensures Flat(ds, ix) < Prod(ds)
  {
    if ds != [] {
      FlatBound(ds[1..], ix[1..]);
      var d, f := ds[0], Flat(ds[1..], ix[1..]);
      MulMono(d, f + 1, Prod(ds[1..]));
      assert d * (f + 1) == d * f + d;
    }
  }

  lemma {:induction false} FlatUnflat(ds: seq<nat>, c: nat)
    requires c < Prod(ds)
    ensures Flat(ds, Unflat(ds, c)) == c
  {
    if ds != [] {
      QuotientBound(ds[0], Prod(ds[1..]), c);
      FlatUnflat(ds[1..], c / ds[0]);
      assert Unflat(ds, c)[1..] == Unflat(ds[1..], c / ds[0]);
    }
  }

  /** With `FlatUnflat`: positions and multi-indices correspond one to one. */
  lemma {:induction false} UnflatFlat(ds: seq<nat>, ix: seq<nat>)
    requires InRange(ds, ix)
    ensures Flat(ds, ix) < Prod(ds) && Unflat(ds, Flat(ds, ix)) == ix
  {
    FlatBound(ds, ix);
    if ds != [] {
      UnflatFlat(ds[1..], ix[1..]);
      DigitUnique(ds[0], ix[0], Flat(ds[1..], ix[1..]));
    }
  }

  lemma {:induction false} ProdSplit(ds: seq<nat>, k: nat)
    requires k <= |ds|
    ensures Prod(ds) == Prod(ds[..k]) * Prod(ds[k..])
  {
    if k == 0 {
      assert ds[..0] == [] && ds[0..] == ds;
    } else {
      ProdSplit(ds[1..], k - 1);
      assert ds[..k][1..] == ds[1..][..k - 1] && ds[1..][k - 1..] == ds[k..];
      MulAssoc(ds[0], Prod(ds[1..][..k - 1]), Prod(ds[k..]));
    }
  }

  lemma {:induction false} ProdZero(ds: seq<nat>, k: nat)
    requires k < |ds| && ds[k] == 0
    ensures Prod(ds) == 0
  {
    if k != 0 {
      ProdZero(ds[1..], k - 1);
    }
  }

  /** Position `c` of block `b` among `n` blocks of `w`. */
  function Slot(b: nat, n: nat, w: nat, c: nat): (r: nat)
    requires b < n && c < w
    ensures r < n * w
  {
    MulMono(w, b + 1, n);
    b * w + c
  }

  /** The digits below `k` and the digits from `k` on contribute separately. */
  lemma {:induction false} FlatSplit(ds: seq<nat>, ix: seq<nat>, k: nat)
    requires |ds| == |ix| && k <= |ds|
    ensures Flat(ds, ix) == Flat(ds[..k], ix[..k]) + Prod(ds[..k]) * Flat(ds[k..], ix[k..])
  {
    if k == 0 {
      assert ds[..0] == [] && ds[0..] == ds && ix[0..] == ix;
    } else {
      FlatSplit(ds[1..], ix[1..], k - 1);
      assert ds[..k][1..] == ds[1..][..k - 1] && ds[1..][k - 1..] == ds[k..];
      assert ix[..k][1..] == ix[1..][..k - 1] && ix[1..][k - 1..] == ix[k..];
      HornerStep(ix[0], ds[0], Flat(ds[1..][..k - 1], ix[1..][..k - 1]), Prod(ds[1..][..k - 1]), Flat(ds[k..], ix[k..]));
    }
  }

  lemma HornerStep(i: int, d: int, lo: int, p: int, hi: int)
    ensures i + d * (lo + p * hi) == i + d * lo + d * p * hi
  {}

  /** Dimensions of extent one at the end change no position. */
  lemma {:induction false} UnitTail(ds: seq<nat>, ix: seq<nat>, k: nat)
    requires InRange(ds, ix) && k <= |ds|
    requires forall j :: k <= j < |ds| ==> ds[j] == 1
    ensures Flat(ds, ix) == Flat(ds[..k], ix[..k])
    decreases |ds| - k
  {
    if k == |ds| {
      assert ds[..k] == ds && ix[..k] == ix;
    } else {
      UnitTail(ds, ix, k + 1);
      FlatSplit(ds[..k + 1], ix[..k + 1], k);
      assert ds[..k + 1][..k] == ds[..k] && ix[..k + 1][..k] == ix[..k];
      assert ix[..k + 1][k..] == [0] && ds[..k + 1][k..] == [1];
    }
  }

  lemma {:induction false} UnitProd(ds: seq<nat>, k: nat)
    requires k <= |ds|
    requires forall j :: k <= j < |ds| ==> ds[j] == 1
    ensures Prod(ds) == Prod(ds[..k])
    decreases |ds| - k
  {
    if k == |ds| {
      assert ds[..k] == ds;
    } else {
      UnitProd(ds, k + 1);
      ProdSplit(ds[..k + 1], k);
      assert ds[..k + 1][..k] == ds[..k] && ds[..k + 1][k..] == [1];
    }
  }
}
