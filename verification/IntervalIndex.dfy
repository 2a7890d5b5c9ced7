/** Selecting the times of a vector that lie in some interval. */
module IntervalIndex {
  import opened Cursor

  /** An interval of times, each end in it or not. */
  datatype Interval = Interval(s: int, e: int, sopen: bool, eopen: bool) {
    /** `t` is not before the interval. */
    predicate Started(t: int) {
      if sopen then s < t else s <= t
    }

    /** `t` is not after the interval. */
    predicate Unended(t: int) {
      if eopen then t < e else t <= e
    }

    predicate Contains(t: int) {
      Started(t) && Unended(t)
    }

    /** `t` is after the interval, and not before it when its ends are crossed. */
    predicate Past(t: int) {
      Started(t) && !Unended(t)
    }

    /** Starts no later than the other. */
    predicate NoLater(o: Interval) {
      s < o.s || (s == o.s && (sopen ==> o.sopen))
    }
  }

  /** The times never decrease, which the binary search takes for granted. */
  ghost predicate TimesInOrder(vi: seq<int>) {
    forall p, q :: 0 <= p < q < |vi| ==> vi[p] <= vi[q]
  }

  ghost predicate InStartOrder(idx: seq<Interval>) {
    forall j, k :: 0 <= j < k < |idx| ==> idx[j].NoLater(idx[k])
  }

  /** Some interval contains the time. */
  ghost predicate Covered(idx: seq<Interval>, t: int) {
    exists k :: 0 <= k < |idx| && idx[k].Contains(t)
  }

  /** The positions from `p` on whose times some interval contains, in order. */
  ghost function CoveredFrom(idx: seq<Interval>, vi: seq<int>, p: nat): seq<nat>
    decreases |vi| - p
  {
    if p >= |vi| then [] else (if Covered(idx, vi[p]) then [p] else []) + CoveredFrom(idx, vi, p + 1)
  }

  /** The positions from `p` on whose times the interval contains, in order. */
  function Positions(x: Interval, vi: seq<int>, p: nat): seq<nat>
    decreases |vi| - p
  {
    if p >= |vi| then [] else (if x.Contains(vi[p]) then [p] else []) + Positions(x, vi, p + 1)
  }

  /** The interval contains the last time: the cursor does not go on to the next interval. */
  predicate ToTheEnd(x: Interval, vi: seq<int>) {
    vi != [] && x.Contains(vi[|vi| - 1])
  }

  /** What the cursor enumerates from interval `i` on. */
  function From(idx: seq<Interval>, vi: seq<int>, i: nat): seq<nat>
    decreases |idx| - i
  {
    if i >= |idx| then [] else Positions(idx[i], vi, 0) + After(idx, vi, i)
  }

  function After(idx: seq<Interval>, vi: seq<int>, i: nat): seq<nat>
    requires i < |idx|
    decreases |idx| - i, 0
  {
    if ToTheEnd(idx[i], vi) then [] else From(idx, vi, i + 1)
  }

  /** How far the cursor gets: past the first interval that contains the last time. */
  function Visited(idx: seq<Interval>, vi: seq<int>, i: nat): (n: nat)
    decreases |idx| - i
  {
    if i >= |idx| then i else if ToTheEnd(idx[i], vi) then i + 1 else Visited(idx, vi, i + 1)
  }

  // ----- The cursor -----

  lemma {:induction false} NoneBefore(x: Interval, vi: seq<int>, p: nat, q: nat)
    requires p <= q <= |vi| && forall r :: p <= r < q ==> !x.Contains(vi[r])
    ensures Positions(x, vi, p) == Positions(x, vi, q)
    decreases q - p
  {
    if p < q {
      NoneBefore(x, vi, p + 1, q);
    }
  }

  lemma NoneFrom(x: Interval, vi: seq<int>, p: nat)
    requires p <= |vi| && forall r :: p <= r < |vi| ==> !x.Contains(vi[r])
    ensures Positions(x, vi, p) == []
  {
    NoneBefore(x, vi, p, |vi|);
  }

  /** Binary search for the first time that is not before the interval. */
  method FirstStarted(x: Interval, vi: seq<int>) returns (val: nat)
    requires TimesInOrder(vi)
    ensures val <= |vi|
    ensures forall r :: 0 <= r < |vi| ==> (x.Started(vi[r]) <==> val <= r)
    ensures forall r :: 0 <= r < |vi| ==> ((if x.sopen then x.s < vi[r] else x.s <= vi[r]) <==> val <= r)
  {
    var hi := |vi|;
    val := 0;
    while val < hi
      invariant val <= hi <= |vi|
      invariant forall r :: 0 <= r < val ==> !x.Started(vi[r])
      invariant forall r :: hi <= r < |vi| ==> x.Started(vi[r])
    {
      var mid := (val + hi) / 2;
      if x.Started(vi[mid]) {
        hi := mid;
      } else {
        val := mid + 1;
      }
    }
  }

  /** The first time of the first interval, from `i0` on, that contains any. */
  method GetFirst(idx: seq<Interval>, vi: seq<int>, val0: nat, i0: nat) returns (ok: bool, val: nat, i: nat)
    requires TimesInOrder(vi) && i0 <= |idx|
    ensures ok <==> From(idx, vi, i0) != []
    ensures ok ==> i < |idx| && val < |vi| && idx[i].Contains(vi[val])
    ensures ok ==> if idx[i].sopen then idx[i].s < vi[val] else idx[i].s <= vi[val]
    ensures ok ==> if idx[i].eopen then vi[val] < idx[i].e else vi[val] <= idx[i].e
    ensures ok ==> From(idx, vi, i0) == [val] + Positions(idx[i], vi, val + 1) + After(idx, vi, i)
    ensures !ok ==> i == |idx|
  {
    val, i := val0, i0;
    while i < |idx|
      invariant i <= |idx| && From(idx, vi, i0) == From(idx, vi, i)
    {
      val := FirstStarted(idx[i], vi);
      if val == |vi| || !idx[i].Unended(vi[val]) {
        NoneFrom(idx[i], vi, 0);
        i := i + 1;
      } else {
        NoneBefore(idx[i], vi, 0, val);
        return true, val, i;
      }
    }
    ok := false;
  }

  lemma LastIsIn(x: Interval, vi: seq<int>, val0: nat)
    requires TimesInOrder(vi) && val0 < |vi| && x.Contains(vi[val0])
    requires |vi| == val0 + 1 || !x.Started(vi[|vi| - 1])
    ensures ToTheEnd(x, vi)
  {}

  /** The next time: of the same interval, or else of a later one. */
  method GetNext(idx: seq<Interval>, vi: seq<int>, val0: nat, i0: nat) returns (ok: bool, val: nat, i: nat)
    requires TimesInOrder(vi) && i0 < |idx| && val0 < |vi| && idx[i0].Contains(vi[val0])
    ensures ok <==> Positions(idx[i0], vi, val0 + 1) + After(idx, vi, i0) != []
    ensures ok ==> i < |idx| && val < |vi| && idx[i].Contains(vi[val])
    ensures ok ==> if idx[i].sopen then idx[i].s < vi[val] else idx[i].s <= vi[val]
    ensures ok ==> if idx[i].eopen then vi[val] < idx[i].e else vi[val] <= idx[i].e
    ensures ok ==> Positions(idx[i0], vi, val0 + 1) + After(idx, vi, i0) == [val] + Positions(idx[i], vi, val + 1) + After(idx, vi, i)
  {
    val, i := val0 + 1, i0;
    while val < |vi| && i < |idx|
      invariant i == i0 && val0 < val <= |vi|
      invariant Positions(idx[i0], vi, val0 + 1) == Positions(idx[i0], vi, val)
      invariant val == val0 + 1 || !idx[i0].Started(vi[val - 1])
    {
      if !idx[i].Started(vi[val]) {
        val := val + 1;
      } else if !idx[i].Unended(vi[val]) {
        NoneFrom(idx[i], vi, val);
        ok, val, i := GetFirst(idx, vi, val, i + 1);
        return;
      } else {
        return true, val, i;
      }
    }
    LastIsIn(idx[i0], vi, val0);
    ok := false;
  }

  /** The cursor `(val, i)` stands at the `n`-th position of the enumeration `all`, or past its end. */
  ghost predicate Stands(idx: seq<Interval>, vi: seq<int>, all: seq<nat>, n: nat, more: bool, val: nat, i: nat) {
    && n <= |all| && (more <==> n < |all|)
    && (more ==> i < |idx| && val < |vi| && idx[i].Contains(vi[val])
                 && all[n..] == [val] + Positions(idx[i], vi, val + 1) + After(idx, vi, i))
  }

  lemma StandsAt(idx: seq<Interval>, vi: seq<int>, all: seq<nat>, n: nat, val: nat, i: nat)
    requires Stands(idx, vi, all, n, true, val, i)
    ensures n < |all| && all[n] == val && i < |idx| && val < |vi| && idx[i].Contains(vi[val])
    ensures all[n + 1..] == Positions(idx[i], vi, val + 1) + After(idx, vi, i)
  {
    assert all[n] == all[n..][0] && all[n + 1..] == all[n..][1..];
  }

  /** One position on. */
  method GoOn(idx: seq<Interval>, vi: seq<int>, val0: nat, i0: nat, ghost all: seq<nat>, ghost n: nat)
    returns (more: bool, val: nat, i: nat)
    requires TimesInOrder(vi) && Stands(idx, vi, all, n, true, val0, i0)
    ensures Stands(idx, vi, all, n + 1, more, val, i)
  {
    StandsAt(idx, vi, all, n, val0, i0);
    hide Positions, After, From, TimesInOrder;
    more, val, i := GetNext(idx, vi, val0, i0);
  }

  /** The selected elements, or nothing when the sizes differ. */
  method Subset<T>(idx: seq<Interval>, vi: seq<int>, v: seq<T>) returns (ok: bool, rv: seq<T>)
    requires TimesInOrder(vi)
    ensures ok <==> |vi| == |v|
    ensures ok ==> |rv| == |From(idx, vi, 0)|
    ensures ok ==> forall k :: 0 <= k < |rv| ==> From(idx, vi, 0)[k] < |v| && rv[k] == v[From(idx, vi, 0)[k]]
  {
    hide From, Positions, After, TimesInOrder, Stands, Interval.Contains;
    rv := [];
    if |vi| != |v| {
      return false, rv;
    }
    ok := true;
    ghost var all := From(idx, vi, 0);
    var more: bool, val: nat, i: nat := GetFirst(idx, vi, 0, 0);
    ghost var n := 0;
    StandsFirst(idx, vi, more, val, i);
    while more
      invariant Stands(idx, vi, all, n, more, val, i) && |rv| == n && n <= |all| && (more <==> n < |all|)
      invariant forall k :: 0 <= k < n ==> all[k] < |v| && rv[k] == v[all[k]]
      decreases |all| - n
    {
      StandsAt(idx, vi, all, n, val, i);
      rv := rv + [v[val]];
      more, val, i := GoOn(idx, vi, val, i, all, n);
      n := n + 1;
      StandsBound(idx, vi, all, n, more, val, i);
    }
  }

  lemma StandsFirst(idx: seq<Interval>, vi: seq<int>, more: bool, val: nat, i: nat)
    requires more <==> From(idx, vi, 0) != []
    requires more ==> i < |idx| && val < |vi| && idx[i].Contains(vi[val])
    requires more ==> From(idx, vi, 0) == [val] + Positions(idx[i], vi, val + 1) + After(idx, vi, i)
    ensures Stands(idx, vi, From(idx, vi, 0), 0, more, val, i)
    ensures more <==> 0 < |From(idx, vi, 0)|
  {
    var all := From(idx, vi, 0);
    hide From;
    assert all[0..] == all;
  }

  lemma StandsBound(idx: seq<Interval>, vi: seq<int>, all: seq<nat>, n: nat, more: bool, val: nat, i: nat)
    requires Stands(idx, vi, all, n, more, val, i)
    ensures n <= |all| && (more <==> n < |all|)
  {}

  // ----- What it enumerates -----

  lemma {:induction false} PositionsAre(x: Interval, vi: seq<int>, p: nat)
    ensures Ascending(Positions(x, vi, p))
    ensures forall q :: q in Positions(x, vi, p) <==> p <= q < |vi| && x.Contains(vi[q])
    decreases |vi| - p
  {
    if p < |vi| {
      PositionsAre(x, vi, p + 1);
      var rest := Positions(x, vi, p + 1);
      forall k | 0 <= k < |rest| ensures p < rest[k] { assert rest[k] in rest; }
    }
  }

  lemma {:induction false} CoveredAre(idx: seq<Interval>, vi: seq<int>, p: nat)
    ensures Ascending(CoveredFrom(idx, vi, p))
    ensures forall q :: q in CoveredFrom(idx, vi, p) <==> p <= q < |vi| && Covered(idx, vi[q])
    decreases |vi| - p
  {
    if p < |vi| {
      CoveredAre(idx, vi, p + 1);
      var rest := CoveredFrom(idx, vi, p + 1);
      forall k | 0 <= k < |rest| ensures p < rest[k] { assert rest[k] in rest; }
    }
  }

  /** Some interval the cursor visits contains the time. */
  ghost predicate Met(idx: seq<Interval>, vi: seq<int>, i: nat, t: int) {
    exists k :: i <= k < Visited(idx, vi, i) && k < |idx| && idx[k].Contains(t)
  }

  lemma {:induction false} VisitedBound(idx: seq<Interval>, vi: seq<int>, i: nat)
    requires i <= |idx|
    ensures i <= Visited(idx, vi, i) <= |idx|
    ensures Visited(idx, vi, i) < |idx| ==> i < Visited(idx, vi, i) && ToTheEnd(idx[Visited(idx, vi, i) - 1], vi)
    decreases |idx| - i
  {
    if i < |idx| && !ToTheEnd(idx[i], vi) {
      VisitedBound(idx, vi, i + 1);
    }
  }

  lemma MetUnfold(idx: seq<Interval>, vi: seq<int>, i: nat, t: int)
    requires i < |idx|
    ensures Met(idx, vi, i, t) <==> idx[i].Contains(t) || (!ToTheEnd(idx[i], vi) && Met(idx, vi, i + 1, t))
  {
    VisitedBound(idx, vi, i);
    if !ToTheEnd(idx[i], vi) {
      VisitedBound(idx, vi, i + 1);
    }
  }

  /** The positions enumerated are those of the intervals visited, whatever their order. */
  lemma {:induction false} FromIs(idx: seq<Interval>, vi: seq<int>, i: nat)
    requires i <= |idx|
    ensures forall p :: p in From(idx, vi, i) <==> 0 <= p < |vi| && Met(idx, vi, i, vi[p])
    decreases |idx| - i
  {
    if i == |idx| {
      assert Visited(idx, vi, i) == i;
    } else {
      PositionsAre(idx[i], vi, 0);
      FromIs(idx, vi, i + 1);
      forall p | 0 <= p < |vi| ensures p in From(idx, vi, i) <==> Met(idx, vi, i, vi[p]) {
        MetUnfold(idx, vi, i, vi[p]);
      }
    }
  }

  /** No two of the intervals visited from `i` on share a time of the vector. */
  ghost predicate Apart(idx: seq<Interval>, vi: seq<int>, i: nat) {
    forall j, k, p :: i <= j < k < Visited(idx, vi, i) && k < |idx| && 0 <= p < |vi| ==>
      !(idx[j].Contains(vi[p]) && idx[k].Contains(vi[p]))
  }

  /** The times of an interval visited come before those of every later one visited. */
  ghost predicate Sequenced(idx: seq<Interval>, vi: seq<int>, i: nat) {
    forall j, k, p, q :: i <= j < k < Visited(idx, vi, i) && k < |idx| && 0 <= p < |vi| && 0 <= q < |vi| ==>
      idx[j].Contains(vi[p]) && idx[k].Contains(vi[q]) ==> p < q
  }

  /** The times of interval `i` come before those of every later one visited. */
  ghost predicate Leads(idx: seq<Interval>, vi: seq<int>, i: nat)
    requires i < |idx|
  {
    forall k, p, q :: i < k < Visited(idx, vi, i) && k < |idx| && 0 <= p < |vi| && 0 <= q < |vi| ==>
      idx[i].Contains(vi[p]) && idx[k].Contains(vi[q]) ==> p < q
  }

  ghost predicate AllBefore(a: seq<nat>, b: seq<nat>) {
    forall x, y :: x in a && y in b ==> x < y
  }

  lemma AscendingParts(a: seq<nat>, b: seq<nat>)
    requires Ascending(a)
    ensures Ascending(a + b) <==> Ascending(b) && AllBefore(a, b)
  {
    var s := a + b;
    if Ascending(s) {
      forall x, y | x in a && y in b ensures x < y {
        var i :| 0 <= i < |a| && a[i] == x;
        var j :| 0 <= j < |b| && b[j] == y;
        assert s[i] < s[|a| + j];
      }
      forall i, j | 0 <= i < j < |b| ensures b[i] < b[j] {
        assert s[|a| + i] < s[|a| + j];
      }
    }
    if Ascending(b) && AllBefore(a, b) {
      forall i, j | 0 <= i < j < |s| ensures s[i] < s[j] {
        if i < |a| <= j { assert a[i] in a && b[j - |a|] in b; }
      }
    }
  }

  lemma SequencedUnfold(idx: seq<Interval>, vi: seq<int>, i: nat)
    requires i < |idx|
    ensures Sequenced(idx, vi, i) <==> ToTheEnd(idx[i], vi) || (Leads(idx, vi, i) && Sequenced(idx, vi, i + 1))
  {
    VisitedBound(idx, vi, i);
    if !ToTheEnd(idx[i], vi) {
      assert Visited(idx, vi, i) == Visited(idx, vi, i + 1);
      hide Visited, Interval.Contains;
      if Leads(idx, vi, i) && Sequenced(idx, vi, i + 1) {
        forall j, k, p, q | i <= j < k < Visited(idx, vi, i) && k < |idx| && 0 <= p < |vi| && 0 <= q < |vi|
          && idx[j].Contains(vi[p]) && idx[k].Contains(vi[q]) ensures p < q {
          assert i + 1 <= j || j == i;
        }
      }
    }
  }

  lemma LeadsIs(idx: seq<Interval>, vi: seq<int>, i: nat)
    requires i < |idx| && !ToTheEnd(idx[i], vi)
    ensures Leads(idx, vi, i) <==> AllBefore(Positions(idx[i], vi, 0), From(idx, vi, i + 1))
  {
    PositionsAre(idx[i], vi, 0);
    FromIs(idx, vi, i + 1);
    var ps, rest := Positions(idx[i], vi, 0), From(idx, vi, i + 1);
    assert Visited(idx, vi, i) == Visited(idx, vi, i + 1);
    hide Visited, From, Positions, Interval.Contains;
    if Leads(idx, vi, i) {
      forall x, y | x in ps && y in rest ensures x < y {
        var k :| i + 1 <= k < Visited(idx, vi, i + 1) && k < |idx| && idx[k].Contains(vi[y]);
      }
    }
    if AllBefore(ps, rest) {
      forall k, p, q | i < k < Visited(idx, vi, i) && k < |idx| && 0 <= p < |vi| && 0 <= q < |vi|
        && idx[i].Contains(vi[p]) && idx[k].Contains(vi[q]) ensures p < q {
        assert Met(idx, vi, i + 1, vi[q]);
        assert p in ps && q in rest;
      }
    }
  }

  /** Intervals in any order: the positions come in order and once each exactly when the times visited are in sequence. */
  lemma {:induction false} AscendingWhen(idx: seq<Interval>, vi: seq<int>, i: nat)
    requires i <= |idx|
    ensures Ascending(From(idx, vi, i)) <==> Sequenced(idx, vi, i)
    decreases |idx| - i
  {
    if i < |idx| {
      SequencedUnfold(idx, vi, i);
      PositionsAre(idx[i], vi, 0);
      assert From(idx, vi, i) == Positions(idx[i], vi, 0) + After(idx, vi, i);
      if ToTheEnd(idx[i], vi) {
        assert From(idx, vi, i) == Positions(idx[i], vi, 0);
      } else {
        AscendingWhen(idx, vi, i + 1);
        LeadsIs(idx, vi, i);
        AscendingParts(Positions(idx[i], vi, 0), From(idx, vi, i + 1));
      }
    }
  }

  /** A time of a later interval that is not in an earlier one comes after all of that one's. */
  lemma ComesAfter(idx: seq<Interval>, j: nat, k: nat, t: int, u: int)
    requires InStartOrder(idx) && j < k < |idx| && idx[j].Contains(t) && idx[k].Contains(u) && !idx[j].Contains(u)
    ensures t < u
  {}

  /** In start order, apart is enough. */
  lemma ApartIsSequenced(idx: seq<Interval>, vi: seq<int>)
    requires TimesInOrder(vi) && InStartOrder(idx)
    ensures Apart(idx, vi, 0) <==> Sequenced(idx, vi, 0)
  {
    hide Visited, TimesInOrder, InStartOrder, Interval.Contains;
    if Apart(idx, vi, 0) {
      forall j, k, p, q | 0 <= j < k < Visited(idx, vi, 0) && k < |idx| && 0 <= p < |vi| && 0 <= q < |vi|
        && idx[j].Contains(vi[p]) && idx[k].Contains(vi[q]) ensures p < q {
        PairInSequence(idx, vi, j, k, p, q);
      }
    }
  }

  lemma PairInSequence(idx: seq<Interval>, vi: seq<int>, j: nat, k: nat, p: nat, q: nat)
    requires TimesInOrder(vi) && InStartOrder(idx) && j < k < |idx| && p < |vi| && q < |vi|
    requires idx[j].Contains(vi[p]) && idx[k].Contains(vi[q]) && !idx[j].Contains(vi[q])
    ensures p < q
  {
    ComesAfter(idx, j, k, vi[p], vi[q]);
  }

  ghost predicate Repeats(s: seq<nat>) {
    exists a, b :: 0 <= a < b < |s| && s[a] == s[b]
  }

  lemma InBothRepeats(a: seq<nat>, b: seq<nat>, p: nat)
    requires p in a && p in b
    ensures Repeats(a + b)
  {
    var i :| 0 <= i < |a| && a[i] == p;
    var j :| 0 <= j < |b| && b[j] == p;
    assert (a + b)[i] == (a + b)[|a| + j];
  }

  lemma RestRepeats(a: seq<nat>, b: seq<nat>)
    requires Repeats(b)
    ensures Repeats(a + b)
  {
    var i, j :| 0 <= i < j < |b| && b[i] == b[j];
    assert (a + b)[|a| + i] == (a + b)[|a| + j];
  }

  /** A time that two intervals visited share is enumerated twice. */
  lemma {:induction false} SharedRepeats(idx: seq<Interval>, vi: seq<int>, i: nat, j: nat, k: nat, p: nat)
    requires i <= j < k < Visited(idx, vi, i) && k < |idx| && p < |vi| && idx[j].Contains(vi[p]) && idx[k].Contains(vi[p])
    ensures Repeats(From(idx, vi, i))
    decreases |idx| - i
  {
    assert !ToTheEnd(idx[i], vi) && Visited(idx, vi, i) == Visited(idx, vi, i + 1);
    var ps, rest := Positions(idx[i], vi, 0), From(idx, vi, i + 1);
    assert From(idx, vi, i) == ps + rest;
    hide From, Visited, Positions, Repeats, Interval.Contains;
    if i == j {
      PositionsAre(idx[i], vi, 0);
      FromIs(idx, vi, i + 1);
      assert Met(idx, vi, i + 1, vi[p]);
      InBothRepeats(ps, rest, p);
    } else {
      SharedRepeats(idx, vi, i + 1, j, k, p);
      RestRepeats(ps, rest);
    }
  }

  /** With the intervals in start order, those not visited contain nothing that one visited does not. */
  lemma MetIsCovered(idx: seq<Interval>, vi: seq<int>, p: nat)
    requires TimesInOrder(vi) && InStartOrder(idx) && p < |vi|
    ensures Met(idx, vi, 0, vi[p]) <==> Covered(idx, vi[p])
  {
    VisitedBound(idx, vi, 0);
    if Covered(idx, vi[p]) {
      var k :| 0 <= k < |idx| && idx[k].Contains(vi[p]);
      var n := Visited(idx, vi, 0);
      if k >= n {
        assert idx[n - 1].NoLater(idx[k]);
        assert idx[n - 1].Contains(vi[p]);
      }
    }
  }

  lemma Init(a: seq<nat>)
    requires Ascending(a) && a != []
    ensures Ascending(a[..|a| - 1]) && a == a[..|a| - 1] + [a[|a| - 1]] && a[|a| - 1] in a
    ensures forall x :: x in a ==> x <= a[|a| - 1]
    ensures forall x :: x in a[..|a| - 1] <==> x in a && x != a[|a| - 1]
  {}

  lemma {:induction false} SameAscending(a: seq<nat>, b: seq<nat>)
    requires Ascending(a) && Ascending(b) && forall x :: x in a <==> x in b
    ensures a == b
    decreases |a|
  {
    hide Ascending;
    if |a| > 0 { assert a[0] in b; }
    if |b| > 0 { assert b[0] in a; }
    if |a| > 0 {
      Init(a);
      Init(b);
      assert a[|a| - 1] in b && b[|b| - 1] in a;
      assert a[|a| - 1] == b[|b| - 1];
      var c, d := a[..|a| - 1], b[..|b| - 1];
      forall x ensures x in c <==> x in d {
        assert x in a <==> x in b;
      }
      SameAscending(c, d);
    }
  }

  /**
   * With the intervals in start order the cursor enumerates exactly the positions whose times lie in some interval,
   * in order and once each, if and only if no two of the intervals it visits share a time.
   */
  lemma EnumeratesCovered(idx: seq<Interval>, vi: seq<int>)
    requires TimesInOrder(vi) && InStartOrder(idx)
    ensures From(idx, vi, 0) == CoveredFrom(idx, vi, 0) <==> Apart(idx, vi, 0)
  {
    CoveredAre(idx, vi, 0);
    AscendingWhen(idx, vi, 0);
    ApartIsSequenced(idx, vi);
    if Apart(idx, vi, 0) {
      SameElements(idx, vi);
      SameAscending(From(idx, vi, 0), CoveredFrom(idx, vi, 0));
    }
  }

  lemma SameElements(idx: seq<Interval>, vi: seq<int>)
    requires TimesInOrder(vi) && InStartOrder(idx)
    ensures forall p :: p in From(idx, vi, 0) <==> p in CoveredFrom(idx, vi, 0)
  {
    CoveredAre(idx, vi, 0);
    FromIs(idx, vi, 0);
    forall p ensures p in From(idx, vi, 0) <==> p in CoveredFrom(idx, vi, 0) {
      if 0 <= p < |vi| { MetIsCovered(idx, vi, p); }
    }
  }

  // ----- Membership, in terms of the ends -----

  /** The time is behind the start of the interval, or at it when that belongs to the interval, and so for the end. */
  lemma ContainsIs(x: Interval, t: int)
    ensures x.Contains(t) <==> (x.s < t || (x.s == t && !x.sopen)) && (t < x.e || (t == x.e && !x.eopen))
  {}

  /**
   * Position `p` is enumerated exactly when its time lies between the ends of some interval, an open end left out, and no
   * interval before that one has the last time between its ends.
   */
  lemma EnumeratedIs(idx: seq<Interval>, vi: seq<int>, p: nat)
    ensures p in From(idx, vi, 0) <==>
            p < |vi| &&
            exists k :: 0 <= k < |idx| &&
                        (if idx[k].sopen then idx[k].s < vi[p] else idx[k].s <= vi[p]) &&
                        (if idx[k].eopen then vi[p] < idx[k].e else vi[p] <= idx[k].e) &&
                        forall m :: 0 <= m < k ==>
                          (if idx[m].sopen then vi[|vi| - 1] <= idx[m].s else vi[|vi| - 1] < idx[m].s) ||
                          (if idx[m].eopen then idx[m].e <= vi[|vi| - 1] else idx[m].e < vi[|vi| - 1])
  {
    FromIs(idx, vi, 0);
    if p < |vi| {
      forall k | 0 <= k < |idx| ensures k < Visited(idx, vi, 0) <==> Reached(idx, vi, k) {
        VisitedIs(idx, vi, 0, k);
      }
      VisitedBound(idx, vi, 0);
      hide Visited, From, Met;
      MetIs(idx, vi, vi[p]);
    }
  }

  lemma MetIs(idx: seq<Interval>, vi: seq<int>, t: int)
    ensures Met(idx, vi, 0, t) <==> exists k :: 0 <= k < |idx| && idx[k].Contains(t) && Reached(idx, vi, k)
  {
    forall k | 0 <= k < |idx| ensures k < Visited(idx, vi, 0) <==> Reached(idx, vi, k) {
      VisitedIs(idx, vi, 0, k);
    }
    hide Visited, Reached, Interval.Contains;
  }

  /** A position is covered exactly when its time lies between the ends of some interval. */
  lemma CoveredMeans(idx: seq<Interval>, vi: seq<int>, p: nat)
    ensures p in CoveredFrom(idx, vi, 0) <==>
            p < |vi| &&
            exists k :: 0 <= k < |idx| &&
                        (if idx[k].sopen then idx[k].s < vi[p] else idx[k].s <= vi[p]) &&
                        (if idx[k].eopen then vi[p] < idx[k].e else vi[p] <= idx[k].e)
  {
    CoveredAre(idx, vi, 0);
  }

  // ----- Intervals in any order -----

  /** No interval before `k` contains the last time. */
  ghost predicate Reached(idx: seq<Interval>, vi: seq<int>, k: nat)
    requires k <= |idx|
  {
    forall m :: 0 <= m < k ==> !ToTheEnd(idx[m], vi)
  }

  lemma {:induction false} VisitedIs(idx: seq<Interval>, vi: seq<int>, i: nat, k: nat)
    requires i <= k < |idx|
    ensures k < Visited(idx, vi, i) <==> forall m :: i <= m < k ==> !ToTheEnd(idx[m], vi)
    decreases |idx| - i
  {
    VisitedBound(idx, vi, i);
    if !ToTheEnd(idx[i], vi) && i < k {
      VisitedIs(idx, vi, i + 1, k);
    }
  }

  /** The times of each interval come before those of the later ones, as far as these are reached. */
  ghost predicate InSequence(idx: seq<Interval>, vi: seq<int>) {
    forall j, k, p, q :: 0 <= j < k < |idx| && Reached(idx, vi, k) && 0 <= p < |vi| && 0 <= q < |vi| ==>
      idx[j].Contains(vi[p]) && idx[k].Contains(vi[q]) ==> p < q
  }

  /** A time in an interval that comes after one with the last time is in that one or in one before it. */
  ghost predicate NothingBehind(idx: seq<Interval>, vi: seq<int>) {
    forall j, k, p :: 0 <= j < k < |idx| && ToTheEnd(idx[j], vi) && 0 <= p < |vi| && idx[k].Contains(vi[p]) ==>
      exists m :: 0 <= m <= j && idx[m].Contains(vi[p])
  }

  lemma InSequenceIs(idx: seq<Interval>, vi: seq<int>)
    ensures InSequence(idx, vi) <==> Sequenced(idx, vi, 0)
  {
    forall k | 0 <= k < |idx| ensures k < Visited(idx, vi, 0) <==> Reached(idx, vi, k) {
      VisitedIs(idx, vi, 0, k);
    }
    hide Visited, Reached, Interval.Contains;
  }

  /** A time behind an interval with the last time that has been met was met before that interval. */
  lemma MetBefore(idx: seq<Interval>, vi: seq<int>, j: nat, t: int)
    requires j < |idx| && ToTheEnd(idx[j], vi) && Met(idx, vi, 0, t)
    ensures exists m :: 0 <= m <= j && idx[m].Contains(t)
  {
    var m :| 0 <= m < Visited(idx, vi, 0) && m < |idx| && idx[m].Contains(t);
    VisitedIs(idx, vi, 0, m);
  }

  lemma CoveredMet(idx: seq<Interval>, vi: seq<int>, p: nat)
    requires NothingBehind(idx, vi) && p < |vi| && Covered(idx, vi[p])
    ensures Met(idx, vi, 0, vi[p])
  {
    VisitedBound(idx, vi, 0);
    var n := Visited(idx, vi, 0);
    hide Visited, Interval.Contains, ToTheEnd;
    var k :| 0 <= k < |idx| && idx[k].Contains(vi[p]);
    if k >= n {
      var m :| 0 <= m <= n - 1 && idx[m].Contains(vi[p]);
    }
  }

  ghost predicate MissesNothing(idx: seq<Interval>, vi: seq<int>) {
    forall p :: 0 <= p < |vi| && Covered(idx, vi[p]) ==> p in From(idx, vi, 0)
  }

  /** Everything covered is enumerated exactly when nothing lies behind an interval with the last time. */
  lemma AnyOrderMisses(idx: seq<Interval>, vi: seq<int>)
    ensures MissesNothing(idx, vi) <==> NothingBehind(idx, vi)
  {
    FromIs(idx, vi, 0);
    hide From, Met, Interval.Contains, ToTheEnd;
    if MissesNothing(idx, vi) {
      forall j, k, p | 0 <= j < k < |idx| && ToTheEnd(idx[j], vi) && 0 <= p < |vi| && idx[k].Contains(vi[p])
        ensures exists m :: 0 <= m <= j && idx[m].Contains(vi[p])
      {
        assert Covered(idx, vi[p]);
        MetBefore(idx, vi, j, vi[p]);
      }
    }
    if NothingBehind(idx, vi) {
      forall p | 0 <= p < |vi| && Covered(idx, vi[p]) ensures p in From(idx, vi, 0) {
        CoveredMet(idx, vi, p);
      }
    }
  }

  /**
   * Intervals in any order: the cursor enumerates exactly the covered positions, in order and once each, if and only
   * if the times of the intervals are in sequence as far as it gets and nothing is left behind.
   */
  lemma AnyOrderExact(idx: seq<Interval>, vi: seq<int>)
    ensures From(idx, vi, 0) == CoveredFrom(idx, vi, 0) <==> InSequence(idx, vi) && NothingBehind(idx, vi)
  {
    CoveredAre(idx, vi, 0);
    AscendingWhen(idx, vi, 0);
    InSequenceIs(idx, vi);
    AnyOrderMisses(idx, vi);
    FromCovered(idx, vi);
    hide From, CoveredFrom, InSequence, Sequenced, NothingBehind, Ascending, Covered;
    if InSequence(idx, vi) && NothingBehind(idx, vi) {
      SameAscending(From(idx, vi, 0), CoveredFrom(idx, vi, 0));
    }
  }

  lemma FromCovered(idx: seq<Interval>, vi: seq<int>)
    ensures forall p :: p in From(idx, vi, 0) ==> 0 <= p < |vi| && Covered(idx, vi[p])
  {
    FromIs(idx, vi, 0);
  }

  /** The later interval first: the earlier one is never looked at. */
  lemma LaterFirst()
    ensures var idx, vi := [Interval(2, 2, false, false), Interval(1, 1, false, false)], [1, 2];
            From(idx, vi, 0) == [1] && CoveredFrom(idx, vi, 0) == [0, 1]
  {
    var x, y, vi := Interval(2, 2, false, false), Interval(1, 1, false, false), [1, 2];
    var idx := [x, y];
    assert Positions(x, vi, 1) == [1] && Positions(x, vi, 0) == [1];
    assert idx[0].Contains(vi[1]) && idx[1].Contains(vi[0]);
    assert CoveredFrom(idx, vi, 1) == [1];
  }

  // ----- The number of positions -----

  /** What the pass over both counts from time `iv` and interval `ii` on. */
  function Counted(idx: seq<Interval>, vi: seq<int>, iv: nat, ii: nat): nat
    decreases |vi| - iv + |idx| - ii
  {
    if iv >= |vi| || ii >= |idx| then 0
    else if !idx[ii].Started(vi[iv]) then Counted(idx, vi, iv + 1, ii)
    else if !idx[ii].Unended(vi[iv]) then Counted(idx, vi, iv, ii + 1)
    else 1 + Counted(idx, vi, iv + 1, ii)
  }

  method TrueSize(idx: seq<Interval>, vi: seq<int>) returns (n: nat)
    requires TimesInOrder(vi)
    ensures n == |From(idx, vi, 0)| <==> EachPast(idx, vi)
    ensures n == |CoveredFrom(idx, vi, 0)| <==> NoneTooEarly(idx, vi, 0)
    ensures InStartOrder(idx) ==> n == |CoveredFrom(idx, vi, 0)|
  {
    n := 0;
    var iv, ii := 0, 0;
    while iv < |vi| && ii < |idx|
      invariant iv <= |vi| && ii <= |idx| && n + Counted(idx, vi, iv, ii) == Counted(idx, vi, 0, 0)
      decreases |vi| - iv + |idx| - ii
    {
      if !idx[ii].Started(vi[iv]) {
        iv := iv + 1;
      } else if !idx[ii].Unended(vi[iv]) {
        ii := ii + 1;
      } else {
        iv := iv + 1;
        n := n + 1;
      }
    }
    CountIsEnumerated(idx, vi);
    CountsCovered(idx, vi, 0, 0);
    if InStartOrder(idx) {
      OrderedNoneTooEarly(idx, vi);
    }
  }

  // ----- The count and what is enumerated -----

  lemma {:induction false} NoFewer(x: Interval, vi: seq<int>, p: nat, f: nat)
    requires p <= f <= |vi|
    ensures |Positions(x, vi, f)| <= |Positions(x, vi, p)|
    ensures |Positions(x, vi, f)| == |Positions(x, vi, p)| <==> forall r :: p <= r < f ==> !x.Contains(vi[r])
    decreases f - p
  {
    if p < f {
      NoFewer(x, vi, p + 1, f);
    }
  }

  /** Where the times past the interval begin, from `iv` on. */
  function FirstPast(x: Interval, vi: seq<int>, iv: nat): nat
    decreases |vi| - iv
  {
    if iv >= |vi| || x.Past(vi[iv]) then iv else FirstPast(x, vi, iv + 1)
  }

  lemma {:induction false} FirstPastIs(x: Interval, vi: seq<int>, iv: nat)
    requires TimesInOrder(vi) && iv <= |vi|
    ensures iv <= FirstPast(x, vi, iv) <= |vi|
    ensures forall r :: iv <= r < |vi| ==> (x.Past(vi[r]) <==> FirstPast(x, vi, iv) <= r)
    decreases |vi| - iv
  {
    if iv < |vi| && !x.Past(vi[iv]) {
      FirstPastIs(x, vi, iv + 1);
    }
  }

  /** The pass counts what is left of an interval, and goes on behind it where the times past it begin. */
  lemma {:induction false} CountOne(idx: seq<Interval>, vi: seq<int>, iv: nat, ii: nat)
    requires TimesInOrder(vi) && iv <= |vi| && ii < |idx|
    ensures Counted(idx, vi, iv, ii) ==
            |Positions(idx[ii], vi, iv)| + Counted(idx, vi, FirstPast(idx[ii], vi, iv), ii + 1)
    decreases |vi| - iv
  {
    if iv < |vi| {
      if idx[ii].Past(vi[iv]) {
        NoneFrom(idx[ii], vi, iv);
      } else {
        CountOne(idx, vi, iv + 1, ii);
      }
    }
  }

  /** The intervals visited from `ii` on contain no time before `iv`. */
  ghost predicate NoneLost(idx: seq<Interval>, vi: seq<int>, iv: nat, ii: nat) {
    forall k, p :: ii <= k < Visited(idx, vi, ii) && k < |idx| && 0 <= p < iv && p < |vi| ==> !idx[k].Contains(vi[p])
  }

  /** The times of each interval visited from `ii` on are past all those visited before it. */
  ghost predicate PastFrom(idx: seq<Interval>, vi: seq<int>, ii: nat) {
    forall j, k, p :: ii <= j < k < Visited(idx, vi, ii) && k < |idx| && 0 <= p < |vi| && idx[k].Contains(vi[p]) ==>
      idx[j].Past(vi[p])
  }

  /** The times of each interval are past all those before it, as far as it is reached. */
  ghost predicate EachPast(idx: seq<Interval>, vi: seq<int>) {
    forall j, k, p :: 0 <= j < k < |idx| && Reached(idx, vi, k) && 0 <= p < |vi| && idx[k].Contains(vi[p]) ==>
      idx[j].Past(vi[p])
  }

  lemma EachPastIs(idx: seq<Interval>, vi: seq<int>)
    ensures EachPast(idx, vi) <==> PastFrom(idx, vi, 0)
  {
    forall k | 0 <= k < |idx| ensures k < Visited(idx, vi, 0) <==> Reached(idx, vi, k) {
      VisitedIs(idx, vi, 0, k);
    }
    hide Visited, Reached, Interval.Contains, Interval.Past;
  }

  /** Nothing is lost in an interval and behind it exactly when it holds nothing yet lost and all behind it is past it. */
  lemma PastUnfold(idx: seq<Interval>, vi: seq<int>, iv: nat, ii: nat)
    requires TimesInOrder(vi) && iv <= |vi| && ii < |idx| && !ToTheEnd(idx[ii], vi)
    ensures NoneLost(idx, vi, iv, ii) && PastFrom(idx, vi, ii) <==>
            (forall r :: 0 <= r < iv ==> !idx[ii].Contains(vi[r])) &&
            NoneLost(idx, vi, FirstPast(idx[ii], vi, iv), ii + 1) && PastFrom(idx, vi, ii + 1)
  {
    VisitedBound(idx, vi, ii);
    VisitedBound(idx, vi, ii + 1);
    assert Visited(idx, vi, ii) == Visited(idx, vi, ii + 1);
    FirstPastIs(idx[ii], vi, iv);
    var f := FirstPast(idx[ii], vi, iv);
    hide Visited, FirstPast, TimesInOrder, Interval.Contains, Interval.Past;
    if NoneLost(idx, vi, iv, ii) && PastFrom(idx, vi, ii) {
      forall k, p | ii + 1 <= k < Visited(idx, vi, ii) && k < |idx| && 0 <= p < f && p < |vi|
        ensures !idx[k].Contains(vi[p])
      {
        if p >= iv { assert !idx[ii].Past(vi[p]); }
      }
    }
    if NoneLost(idx, vi, f, ii + 1) && PastFrom(idx, vi, ii + 1) {
      forall j, k, p | ii <= j < k < Visited(idx, vi, ii) && k < |idx| && 0 <= p < |vi| && idx[k].Contains(vi[p])
        ensures idx[j].Past(vi[p])
      {
        assert p >= f;
      }
    }
  }

  /** From any point of the pass: it never counts more than is enumerated, and as much exactly when nothing is lost. */
  lemma {:induction false} CountAgainst(idx: seq<Interval>, vi: seq<int>, iv: nat, ii: nat)
    requires TimesInOrder(vi) && iv <= |vi| && ii <= |idx|
    ensures Counted(idx, vi, iv, ii) <= |From(idx, vi, ii)|
    ensures Counted(idx, vi, iv, ii) == |From(idx, vi, ii)| <==> NoneLost(idx, vi, iv, ii) && PastFrom(idx, vi, ii)
    decreases |idx| - ii
  {
    if ii < |idx| {
      var x, f := idx[ii], FirstPast(idx[ii], vi, iv);
      CountOne(idx, vi, iv, ii);
      FirstPastIs(x, vi, iv);
      NoFewer(x, vi, 0, iv);
      CountAgainst(idx, vi, f, ii + 1);
      hide TimesInOrder, FirstPast, Counted, Positions;
      if ToTheEnd(x, vi) {
        assert f == |vi| && Counted(idx, vi, f, ii + 1) == 0;
        assert Visited(idx, vi, ii) == ii + 1;
      } else {
        PastUnfold(idx, vi, iv, ii);
      }
    }
  }

  /** Intervals in any order: count and enumeration agree if and only if each interval's times are past those before it. */
  lemma CountIsEnumerated(idx: seq<Interval>, vi: seq<int>)
    requires TimesInOrder(vi)
    ensures Counted(idx, vi, 0, 0) <= |From(idx, vi, 0)|
    ensures Counted(idx, vi, 0, 0) == |From(idx, vi, 0)| <==> EachPast(idx, vi)
  {
    CountAgainst(idx, vi, 0, 0);
    EachPastIs(idx, vi);
  }

  /** With the intervals in start order that is: no two visited share a time. */
  lemma CountInOrder(idx: seq<Interval>, vi: seq<int>)
    requires TimesInOrder(vi) && InStartOrder(idx)
    ensures Counted(idx, vi, 0, 0) == |From(idx, vi, 0)| <==> Apart(idx, vi, 0)
  {
    CountIsEnumerated(idx, vi);
    EachPastIs(idx, vi);
    forall j, k, t | 0 <= j < k < |idx| && idx[k].Contains(t) ensures idx[j].Past(t) <==> !idx[j].Contains(t) {
      assert idx[j].NoLater(idx[k]);
    }
    hide Visited, InStartOrder, Interval.Contains, Interval.Past, Counted, From, EachPast;
  }

  /**
   * An interval without times in front of another: the count is that of the enumeration if and only if no time of
   * the other one is before the first, so that it is wrong as soon as the other one starts early enough.
   */
  lemma CountNeedsOrder(x: Interval, y: Interval, vi: seq<int>)
    requires TimesInOrder(vi) && forall p :: 0 <= p < |vi| ==> !x.Contains(vi[p])
    ensures From([x, y], vi, 0) == Positions(y, vi, 0)
    ensures Counted([x, y], vi, 0, 0) == |From([x, y], vi, 0)| <==>
            forall p :: 0 <= p < |vi| && y.Contains(vi[p]) ==> x.Started(vi[p])
  {
    var idx := [x, y];
    NoneFrom(x, vi, 0);
    assert From(idx, vi, 2) == [];
    assert After(idx, vi, 1) == [];
    assert From(idx, vi, 1) == Positions(y, vi, 0);
    CountIsEnumerated(idx, vi);
    assert Reached(idx, vi, 1);
    assert EachPast(idx, vi) <==> forall p :: 0 <= p < |vi| && idx[1].Contains(vi[p]) ==> idx[0].Past(vi[p]);
  }

  // ----- The count and what is covered -----

  /** A covered time from `iv` on is not before the first interval that is not over by then. */
  ghost predicate NoneTooEarly(idx: seq<Interval>, vi: seq<int>, iv: nat) {
    forall p :: iv <= p < |vi| && Covered(idx, vi[p]) ==> InTime(idx, vi[p])
  }

  ghost predicate InTime(idx: seq<Interval>, t: int) {
    forall j :: 0 <= j < |idx| && (forall m :: 0 <= m < j ==> idx[m].Past(t)) ==> idx[j].Started(t)
  }

  /** Interval `ii` is the first that is not over at time `t`. */
  lemma InTimeAt(idx: seq<Interval>, ii: nat, t: int)
    requires ii < |idx| && (forall k :: 0 <= k < ii ==> idx[k].Past(t)) && !idx[ii].Past(t)
    ensures InTime(idx, t) <==> idx[ii].Started(t)
    ensures idx[ii].Started(t) ==> Covered(idx, t)
  {
    if idx[ii].Started(t) {
      assert idx[ii].Contains(t);
      forall j | 0 <= j < |idx| && (forall m :: 0 <= m < j ==> idx[m].Past(t)) ensures idx[j].Started(t) {
        if j < ii { assert idx[j].Past(t); }
        assert j <= ii;
      }
    }
  }

  lemma TooEarlyUnfold(idx: seq<Interval>, vi: seq<int>, iv: nat)
    requires iv < |vi|
    ensures NoneTooEarly(idx, vi, iv) <==>
            (Covered(idx, vi[iv]) ==> InTime(idx, vi[iv])) && NoneTooEarly(idx, vi, iv + 1)
  {
    hide Covered, InTime;
  }

  lemma OverIsUncovered(idx: seq<Interval>, t: int)
    requires forall k :: 0 <= k < |idx| ==> idx[k].Past(t)
    ensures !Covered(idx, t)
  {}

  /** The first `ii` intervals are over from time `iv` on. */
  ghost predicate Over(idx: seq<Interval>, vi: seq<int>, iv: nat, ii: nat)
    requires ii <= |idx|
  {
    forall k, q :: 0 <= k < ii && iv <= q < |vi| ==> idx[k].Past(vi[q])
  }

  lemma OverNext(idx: seq<Interval>, vi: seq<int>, iv: nat, ii: nat)
    requires TimesInOrder(vi) && iv < |vi| && ii < |idx| && Over(idx, vi, iv, ii) && idx[ii].Past(vi[iv])
    ensures Over(idx, vi, iv, ii + 1)
  {
    forall q | iv <= q < |vi| ensures idx[ii].Past(vi[q]) {}
  }

  lemma CountStep(idx: seq<Interval>, vi: seq<int>, iv: nat, ii: nat)
    requires iv < |vi| && ii < |idx|
    ensures Counted(idx, vi, iv, ii) ==
            if idx[ii].Past(vi[iv]) then Counted(idx, vi, iv, ii + 1)
            else (if idx[ii].Started(vi[iv]) then 1 else 0) + Counted(idx, vi, iv + 1, ii)
  {}

  /**
   * From any point of the pass: it counts covered times alone, and all of them exactly when none comes before the first
   * interval that is not over.
   */
  lemma {:induction false} CountsCovered(idx: seq<Interval>, vi: seq<int>, iv: nat, ii: nat)
    requires TimesInOrder(vi) && iv <= |vi| && ii <= |idx| && Over(idx, vi, iv, ii)
    ensures Counted(idx, vi, iv, ii) <= |CoveredFrom(idx, vi, iv)|
    ensures Counted(idx, vi, iv, ii) == |CoveredFrom(idx, vi, iv)| <==> NoneTooEarly(idx, vi, iv)
    decreases |vi| - iv + |idx| - ii
  {
    if iv == |vi| {
      assert CoveredFrom(idx, vi, iv) == [];
      return;
    }
    TooEarlyUnfold(idx, vi, iv);
    assert |CoveredFrom(idx, vi, iv)| == (if Covered(idx, vi[iv]) then 1 else 0) + |CoveredFrom(idx, vi, iv + 1)|;
    assert Over(idx, vi, iv + 1, ii);
    if ii == |idx| {
      OverIsUncovered(idx, vi[iv]);
      CountsCovered(idx, vi, iv + 1, ii);
      return;
    }
    CountStep(idx, vi, iv, ii);
    hide Covered, InTime, TimesInOrder, Counted, CoveredFrom, NoneTooEarly;
    if idx[ii].Past(vi[iv]) {
      OverNext(idx, vi, iv, ii);
      CountsCovered(idx, vi, iv, ii + 1);
    } else {
      InTimeAt(idx, ii, vi[iv]);
      CountsCovered(idx, vi, iv + 1, ii);
    }
  }

  /** In start order no time is too early. */
  lemma OrderedNoneTooEarly(idx: seq<Interval>, vi: seq<int>)
    requires InStartOrder(idx)
    ensures NoneTooEarly(idx, vi, 0)
  {
    forall p | 0 <= p < |vi| && Covered(idx, vi[p]) ensures InTime(idx, vi[p]) {
      var k :| 0 <= k < |idx| && idx[k].Contains(vi[p]);
      forall j | 0 <= j < |idx| && (forall m :: 0 <= m < j ==> idx[m].Past(vi[p])) ensures idx[j].Started(vi[p]) {
        assert j <= k;
        assert j < k ==> idx[j].NoLater(idx[k]);
      }
    }
  }
}
