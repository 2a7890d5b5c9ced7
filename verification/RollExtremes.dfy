/** Rolling minimum and maximum over a column, in place, by a monotone deque. */
module RollExtremes {
  import opened Wrappers

  /** A double: missing when not a number. */
  type Double = Option<real>

  /** Whether `a` stands as the minimum (or maximum) before `b`. */
  predicate Wins(max: bool, a: real, b: real) {
    if max then a >= b else a <= b
  }

  /** `m` is the minimum (maximum) of `s`. */
  ghost predicate IsExtreme(max: bool, s: seq<real>, m: real) {
    m in s && forall k :: 0 <= k < |s| ==> Wins(max, m, s[k])
  }

  /** The minimum (maximum), by comparing one element after the other. */
  function Extreme(max: bool, s: seq<real>): real
    requires s != []
  {
    if |s| == 1 then s[0] else
      var m := Extreme(max, s[1..]);
      if Wins(max, s[0], m) then s[0] else m
  }

  lemma {:induction false} ExtremeIs(max: bool, s: seq<real>)
    requires s != []
    ensures IsExtreme(max, s, Extreme(max, s))
  {
    if |s| > 1 {
      ExtremeIs(max, s[1..]);
      forall k | 0 <= k < |s| ensures Wins(max, Extreme(max, s), s[k]) {
        if k > 0 { assert s[k] == s[1..][k - 1]; }
      }
    }
  }

  lemma ExtremeUnique(max: bool, s: seq<real>, m: real)
    requires s != [] && IsExtreme(max, s, m)
    ensures m == Extreme(max, s)
  {
    ExtremeIs(max, s);
    var e := Extreme(max, s);
    var i :| 0 <= i < |s| && s[i] == m;
    var j :| 0 <= j < |s| && s[j] == e;
    assert Wins(max, m, s[j]) && Wins(max, e, s[i]);
  }

  /** The last `window` inputs up to row `r`. */
  function Window(xs: seq<real>, window: nat, r: nat): (w: seq<real>)
    requires r < |xs| && 0 < window
    ensures w != []
  {
    xs[if r + 1 < window then 0 else r + 1 - window..r + 1]
  }

  /** The sliding window, computed naively. */
  function Rolled(max: bool, xs: seq<real>, window: nat, nbvalid: nat, r: nat): Double
    requires r < |xs| && 0 < window
  {
    if r + 1 < nbvalid then None else Some(Extreme(max, Window(xs, window, r)))
  }

  /** `v` wins against all inputs from row `from` to before row `r`. */
  ghost predicate Beats(max: bool, xs: seq<real>, v: real, from: nat, r: nat)
    requires r <= |xs|
  {
    forall p :: from <= p < r ==> Wins(max, v, xs[p])
  }

  /** The first row after the entry before `k`, or the start of the window for the first entry. */
  function After(dq: seq<(real, nat)>, front: nat, k: nat, lo: nat): nat
    requires front <= k <= |dq|
  {
    if k == front then lo else dq[k - 1].1 + 1
  }

  /**
   * Entries `front..back` of the deque: positions increase up to the last row read, each entry wins against
   * all inputs after the one before it, and the first one against all inputs from `lo` on.
   */
  ghost predicate Deque(max: bool, xs: seq<real>, dq: seq<(real, nat)>, front: nat, back: nat, lo: nat, r: nat) {
    && front <= back <= |dq| && r <= |xs|
    && (forall k :: front <= k < back ==> lo <= dq[k].1 < r && dq[k].0 == xs[dq[k].1])
    && (forall j, k :: front <= j < k < back ==> dq[j].1 < dq[k].1)
    && (forall k :: front <= k < back ==> Beats(max, xs, dq[k].0, After(dq, front, k, lo), r))
    && After(dq, front, back, lo) == r
  }

  /** Drops at the back the entries that the new input `x` wins against. */
  method PopBack(max: bool, minima: array<(real, nat)>, front: nat, back0: nat, x: real, ghost xs: seq<real>, ghost lo: nat, ghost r: nat)
    returns (back: nat)
    requires r < |xs| && x == xs[r] && Deque(max, xs, minima[..], front, back0, lo, r)
    ensures front <= back <= back0
    ensures back > front ==> !Wins(max, x, minima[back - 1].0)
    ensures Beats(max, xs, x, After(minima[..], front, back, lo), r)
  {
    hide Wins, Beats, After;
    ghost var dq := minima[..];
    back := back0;
    AtEnd(max, xs, dq, front, back0, lo, r, x);
    while back > front && Wins(max, x, minima[back - 1].0)
      invariant front <= back <= back0
      invariant Beats(max, xs, x, After(dq, front, back, lo), r)
    {
      assert minima[back - 1] == dq[back - 1];
      BeatsMore(max, xs, x, dq[back - 1].0, After(dq, front, back - 1, lo), r);
      back := back - 1;
    }
  }

  lemma AtEnd(max: bool, xs: seq<real>, dq: seq<(real, nat)>, front: nat, back: nat, lo: nat, r: nat, x: real)
    requires Deque(max, xs, dq, front, back, lo, r)
    ensures Beats(max, xs, x, After(dq, front, back, lo), r)
  {}

  /** Drops at the back what the input of row `r` wins against, and adds that input. */
  method Push(max: bool, minima: array<(real, nat)>, front: nat, back0: nat, r: nat, x: real, ghost xs: seq<real>, ghost lo: nat)
    returns (back: nat)
    requires r < |xs| && x == xs[r] && back0 <= r < minima.Length && lo <= r
    requires Deque(max, xs, minima[..], front, back0, lo, r)
    modifies minima
    ensures front < back <= r + 1 && minima[back - 1].1 == r
    ensures Deque(max, xs, minima[..], front, back, lo, r + 1)
  {
    hide Wins, Beats, After;
    ghost var dq := minima[..];
    back := PopBack(max, minima, front, back0, x, xs, lo, r);
    Pushed(max, xs, dq, front, back, lo, r);
    minima[back] := (x, r);
    hide Deque;
    assert minima[..] == dq[back := (x, r)];
    back := back + 1;
  }

  lemma BeatsMore(max: bool, xs: seq<real>, x: real, v: real, from: nat, r: nat)
    requires r <= |xs| && Beats(max, xs, v, from, r) && Wins(max, x, v)
    ensures Beats(max, xs, x, from, r)
  {
    forall p | from <= p < r ensures Wins(max, x, xs[p]) {
      assert Wins(max, v, xs[p]);
    }
  }

  lemma Pushed(max: bool, xs: seq<real>, dq: seq<(real, nat)>, front: nat, back: nat, lo: nat, r: nat)
    requires r < |xs| && front <= back < |dq| && lo <= r
    requires forall k :: front <= k < back ==> lo <= dq[k].1 < r && dq[k].0 == xs[dq[k].1]
    requires forall j, k :: front <= j < k < back ==> dq[j].1 < dq[k].1
    requires forall k :: front <= k < back ==> Beats(max, xs, dq[k].0, After(dq, front, k, lo), r)
    requires back > front ==> !Wins(max, xs[r], dq[back - 1].0)
    requires Beats(max, xs, xs[r], After(dq, front, back, lo), r)
    ensures Deque(max, xs, dq[back := (xs[r], r)], front, back + 1, lo, r + 1)
  {
    var d := dq[back := (xs[r], r)];
    hide Beats, Wins;
    forall k | front <= k < back + 1 ensures Beats(max, xs, d[k].0, After(d, front, k, lo), r + 1) {
      assert After(d, front, k, lo) == After(dq, front, k, lo);
      if k < back {
        KeptBeats(max, xs, dq, front, back, lo, r, k);
      } else {
        NewBeats(max, xs, xs[r], After(dq, front, back, lo), r);
      }
    }
  }

  /** An entry that stays wins against the new input too. */
  lemma KeptBeats(max: bool, xs: seq<real>, dq: seq<(real, nat)>, front: nat, back: nat, lo: nat, r: nat, k: nat)
    requires r < |xs| && front <= k < back < |dq|
    requires dq[back - 1].1 < r && dq[back - 1].0 == xs[dq[back - 1].1] && (k < back - 1 ==> dq[k].1 < dq[back - 1].1)
    requires Beats(max, xs, dq[k].0, After(dq, front, k, lo), r) && After(dq, front, k, lo) <= dq[k].1
    requires !Wins(max, xs[r], dq[back - 1].0)
    ensures Beats(max, xs, dq[k].0, After(dq, front, k, lo), r + 1)
  {
    hide Beats, Wins, After;
    LosesTo(max, xs, dq, front, back, lo, r, k);
    BeatsNext(max, xs, dq[k].0, After(dq, front, k, lo), r);
  }

  lemma NewBeats(max: bool, xs: seq<real>, v: real, from: nat, r: nat)
    requires r < |xs| && v == xs[r] && Beats(max, xs, v, from, r)
    ensures Beats(max, xs, v, from, r + 1)
  {
    BeatsNext(max, xs, v, from, r);
  }

  lemma BeatsNext(max: bool, xs: seq<real>, v: real, from: nat, r: nat)
    requires r < |xs| && Beats(max, xs, v, from, r) && Wins(max, v, xs[r])
    ensures Beats(max, xs, v, from, r + 1)
  {}

  /** Once the last entry wins against the new input, every entry before it does. */
  lemma LosesTo(max: bool, xs: seq<real>, dq: seq<(real, nat)>, front: nat, back: nat, lo: nat, r: nat, k: nat)
    requires r < |xs| && front <= k < back < |dq|
    requires dq[back - 1].1 < r && dq[back - 1].0 == xs[dq[back - 1].1]
    requires k < back - 1 ==> dq[k].1 < dq[back - 1].1
    requires Beats(max, xs, dq[k].0, After(dq, front, k, lo), r) && After(dq, front, k, lo) <= dq[k].1
    requires !Wins(max, xs[r], dq[back - 1].0)
    ensures Wins(max, dq[k].0, xs[r])
  {
    if k < back - 1 {
      assert Wins(max, dq[k].0, xs[dq[back - 1].1]);
    }
  }

  /** What is left of the deque once the window starts at `lo`, the entries before `front` being behind it. */
  lemma Dropped(max: bool, xs: seq<real>, dq: seq<(real, nat)>, front0: nat, front: nat, back: nat, lo: nat, r: nat)
    requires 0 < lo && Deque(max, xs, dq, front0, back, lo - 1, r) && front0 <= front < back
    requires lo <= dq[front].1 && forall k :: front0 <= k < front ==> dq[k].1 < lo
    ensures Deque(max, xs, dq, front, back, lo, r)
  {
    hide Wins;
    assert Beats(max, xs, dq[front].0, After(dq, front0, front, lo - 1), r);
    assert After(dq, front0, front, lo - 1) <= lo;
    forall k | front <= k < back ensures lo <= dq[k].1 && Beats(max, xs, dq[k].0, After(dq, front, k, lo), r) {
      assert Beats(max, xs, dq[k].0, After(dq, front0, k, lo - 1), r);
    }
  }

  /** Drops at the front what has left the window. */
  method PopFront(max: bool, minima: array<(real, nat)>, front0: nat, back: nat, lo: nat, ghost xs: seq<real>, ghost r: nat)
    returns (front: nat)
    requires front0 < back && 0 < lo <= r < |xs| && minima[..] != []
    requires Deque(max, xs, minima[..], front0, back, lo - 1, r + 1) && minima[back - 1].1 == r
    ensures front < back && Deque(max, xs, minima[..], front, back, lo, r + 1)
  {
    hide Beats, Wins;
    front := front0;
    while minima[front].1 <= lo - 1
      invariant front0 <= front < back
      invariant forall k :: front0 <= k < front ==> minima[k].1 < lo
      decreases back - front
    {
      front := front + 1;
    }
    Dropped(max, xs, minima[..], front0, front, back, lo, r + 1);
  }

  lemma TooFew(max: bool, xs: seq<real>, window: nat, nbvalid: nat, r: nat)
    requires r < |xs| && 0 < window && r + 1 < nbvalid
    ensures Rolled(max, xs, window, nbvalid, r) == None
  {}

  /** The first entry is the extreme of the window. */
  lemma FrontIsExtreme(max: bool, xs: seq<real>, dq: seq<(real, nat)>, front: nat, back: nat, window: nat, nbvalid: nat, r: nat)
    requires r < |xs| && 0 < window && front < back && nbvalid <= r + 1
    requires Deque(max, xs, dq, front, back, if r + 1 < window then 0 else r + 1 - window, r + 1)
    ensures Rolled(max, xs, window, nbvalid, r) == Some(dq[front].0)
  {
    var lo := if r + 1 < window then 0 else r + 1 - window;
    var w := Window(xs, window, r);
    assert w[dq[front].1 - lo] == dq[front].0;
    forall k | 0 <= k < |w| ensures Wins(max, dq[front].0, w[k]) {
      assert Beats(max, xs, dq[front].0, lo, r + 1);
      assert w[k] == xs[lo + k];
    }
    ExtremeUnique(max, w, dq[front].0);
  }

  /** The number of valid inputs that the counter holds before row `r`; the rows that were made missing are never taken off. */
  function Counted(window: nat, nbvalid: nat, r: nat): nat
    requires 1 < nbvalid
  {
    if r < window + nbvalid - 1 then r else window + nbvalid - 1
  }

  function Low(window: nat, r: nat): nat {
    if r < window then 0 else r - window
  }

  /** One row. */
  method RollRow(max: bool, a: array<Double>, minima: array<(real, nat)>, window: nat, nbvalid: nat,
                 r: nat, nbv0: nat, front0: nat, back0: nat, ghost xs: seq<real>)
    returns (nbv: nat, front: nat, back: nat)
    requires 1 < nbvalid <= window <= a.Length == minima.Length == |xs| && r < a.Length
    requires forall q :: 0 <= q < r ==> (a[q].Some? <==> nbvalid <= q + 1)
    requires a[r] == Some(xs[r]) && nbv0 == Counted(window, nbvalid, r)
    requires back0 <= r && Deque(max, xs, minima[..], front0, back0, Low(window, r), r)
    modifies a, minima
    ensures a[r] == Rolled(max, xs, window, nbvalid, r)
    ensures forall q :: 0 <= q < a.Length && q != r ==> a[q] == old(a[q])
    ensures nbv == Counted(window, nbvalid, r + 1)
    ensures back <= r + 1 && Deque(max, xs, minima[..], front, back, Low(window, r + 1), r + 1)
  {
    hide Deque, Rolled, After;
    nbv, front, back := nbv0, front0, back0;
    if a[r].Some? {
      back := Push(max, minima, front, back, r, a[r].value, xs, Low(window, r));
      nbv := nbv + 1;
    }
    if r >= window && a[r - window].Some? {
      nbv := nbv - 1;
    }
    if nbv >= nbvalid {
      if r >= window {
        front := PopFront(max, minima, front, back, r - window + 1, xs, r);
      }
      FrontIsExtreme(max, xs, minima[..], front, back, window, nbvalid, r);
      a[r] := Some(minima[front].0);
    } else {
      TooFew(max, xs, window, nbvalid, r);
      a[r] := None;
    }
  }

  /** `d` is missing with fewer than `nbvalid` rows, or else it is the least (greatest) input of the window of row `r`. */
  ghost predicate WindowExtreme(max: bool, xs: seq<real>, window: nat, nbvalid: nat, r: nat, d: Double)
    requires r < |xs|
  {
    && (d == None <==> r + 1 < nbvalid)
    && (d.Some? ==> exists p :: 0 <= p <= r < p + window && d.value == xs[p])
    && (d.Some? && !max ==> forall p :: 0 <= p <= r < p + window ==> d.value <= xs[p])
    && (d.Some? && max ==> forall p :: 0 <= p <= r < p + window ==> d.value >= xs[p])
  }

  lemma RolledIs(max: bool, xs: seq<real>, window: nat, nbvalid: nat, r: nat)
    requires r < |xs| && 0 < window
    ensures WindowExtreme(max, xs, window, nbvalid, r, Rolled(max, xs, window, nbvalid, r))
  {
    if nbvalid <= r + 1 {
      var w := Window(xs, window, r);
      var lo := if r + 1 < window then 0 else r + 1 - window;
      ExtremeIs(max, w);
      var m := Extreme(max, w);
      var k :| 0 <= k < |w| && w[k] == m;
      assert xs[lo + k] == m;
      forall p | 0 <= p <= r < p + window ensures Wins(max, m, xs[p]) {
        assert w[p - lo] == xs[p];
      }
    }
  }

  /** One column; `minima` is scratch space and may hold anything. */
  method RollColumn(max: bool, a: array<Double>, minima: array<(real, nat)>, window: nat, nbvalid: nat, ghost xs: seq<real>)
    requires 1 < nbvalid <= window <= a.Length == minima.Length
    requires |xs| == a.Length && forall r :: 0 <= r < a.Length ==> a[r] == Some(xs[r])
    modifies a, minima
    ensures forall r :: 0 <= r < a.Length ==> a[r] == Rolled(max, xs, window, nbvalid, r)
    ensures forall r :: 0 <= r < a.Length ==> (a[r] == None <==> r + 1 < nbvalid)
    ensures forall r :: 0 <= r < a.Length && a[r].Some? ==> exists p :: 0 <= p <= r < p + window && a[r].value == xs[p]
    ensures !max ==> forall p, r :: 0 <= p <= r < a.Length && r < p + window && a[r].Some? ==> a[r].value <= xs[p]
    ensures max ==> forall p, r :: 0 <= p <= r < a.Length && r < p + window && a[r].Some? ==> a[r].value >= xs[p]
  {
    var nbv: nat, front: nat, back: nat := 0, 0, 0;
    for r := 0 to a.Length
      invariant forall q :: 0 <= q < r ==> a[q] == Rolled(max, xs, window, nbvalid, q)
      invariant forall q :: r <= q < a.Length ==> a[q] == Some(xs[q])
      invariant nbv == Counted(window, nbvalid, r)
      invariant back <= r && Deque(max, xs, minima[..], front, back, Low(window, r), r)
    {
      hide Deque, Extreme, Window;
      nbv, front, back := RollRow(max, a, minima, window, nbvalid, r, nbv, front, back, xs);
    }
    forall r | 0 <= r < a.Length ensures WindowExtreme(max, xs, window, nbvalid, r, a[r]) {
      RolledIs(max, xs, window, nbvalid, r);
    }
    hide Rolled, Deque;
  }

  /** Every column in turn, with the same scratch space. */
  method RollInPlace(max: bool, cols: seq<array<Double>>, rows: nat, window: nat, nbvalid: nat, ghost xss: seq<seq<real>>)
    requires 1 < nbvalid <= window <= rows && |xss| == |cols|
    requires forall c :: 0 <= c < |cols| ==> cols[c].Length == rows == |xss[c]|
    requires forall c, d :: 0 <= c < d < |cols| ==> cols[c] != cols[d]
    requires forall c, r :: 0 <= c < |cols| && 0 <= r < rows ==> cols[c][r] == Some(xss[c][r])
    modifies set c | c in cols
    ensures forall c, r :: 0 <= c < |cols| && 0 <= r < rows ==> cols[c][r] == Rolled(max, xss[c], window, nbvalid, r)
    ensures forall c, r :: 0 <= c < |cols| && 0 <= r < rows ==> (cols[c][r] == None <==> r + 1 < nbvalid)
    ensures forall c, r :: 0 <= c < |cols| && 0 <= r < rows && cols[c][r].Some? ==>
              exists p :: 0 <= p <= r < p + window && cols[c][r].value == xss[c][p]
    ensures !max ==> forall c, p, r :: 0 <= c < |cols| && 0 <= p <= r < rows && r < p + window && cols[c][r].Some? ==>
              cols[c][r].value <= xss[c][p]
    ensures max ==> forall c, p, r :: 0 <= c < |cols| && 0 <= p <= r < rows && r < p + window && cols[c][r].Some? ==>
              cols[c][r].value >= xss[c][p]
  {
    var minima := new (real, nat)[rows](_ => (0.0, 0));
    for c := 0 to |cols|
      invariant forall d, r :: 0 <= d < c && 0 <= r < rows ==> cols[d][r] == Rolled(max, xss[d], window, nbvalid, r)
      invariant forall d, r :: c <= d < |cols| && 0 <= r < rows ==> cols[d][r] == Some(xss[d][r])
    {
      hide Rolled;
      RollColumn(max, cols[c], minima, window, nbvalid, xss[c]);
    }
    forall c, r | 0 <= c < |cols| && 0 <= r < rows ensures WindowExtreme(max, xss[c], window, nbvalid, r, cols[c][r]) {
      RolledIs(max, xss[c], window, nbvalid, r);
    }
    hide Rolled;
  }
}
