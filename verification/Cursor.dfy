/** Indices into one dimension, the cursors that enumerate them, and the odometer over several. */
module Cursor {
  import opened Wrappers
  import opened MixedRadix

  /**
   * Everything; the listed positions; all but the listed positions.
   * `vidx` holds the values of `vi` reordered, `uidx` where each came from.
   */
  datatype Index =
    | NullIx(sz: nat)
    | IntIx(vi: seq<nat>, vidx: seq<nat>, uidx: seq<nat>)
    | NegIx(vi: seq<nat>, sz: nat)

  ghost predicate Ascending(s: seq<nat>) {
    forall j, k :: 0 <= j < k < |s| ==> s[j] < s[k]
  }

  ghost predicate Distinct(s: seq<nat>) {
    forall j, k :: 0 <= j < k < |s| ==> s[j] != s[k]
  }

  ghost predicate Permutation(s: seq<nat>) {
    Distinct(s) && forall k :: 0 <= k < |s| ==> s[k] < |s|
  }

  /** What the constructors establish. */
  ghost predicate Valid(x: Index) {
    match x
    case NullIx(_) => true
    case IntIx(vi, vidx, uidx) =>
      && |vidx| == |uidx| == |vi| && Permutation(uidx)
      && forall k :: 0 <= k < |vi| ==> vidx[k] == vi[uidx[k]]
    case NegIx(vi, sz) => Ascending(vi) && forall k :: 0 <= k < |vi| ==> vi[k] < sz
  }

  function Iota(n: nat): (s: seq<nat>)
    ensures |s| == n && forall k :: 0 <= k < n ==> s[k] == k
  {
    seq(n, k => k)
  }

  /** The positions from `iv` up that are not among `vi[ii..]`. */
  function Remaining(vi: seq<nat>, ii: nat, iv: nat, sz: nat): seq<nat>
    decreases sz - iv
  {
    if iv >= sz then []
    else if ii < |vi| && vi[ii] == iv then Remaining(vi, ii + 1, iv + 1, sz)
    else [iv] + Remaining(vi, ii, iv + 1, sz)
  }

  /** The positions an index denotes, in its order. */
  function Elems(x: Index): seq<nat> {
    match x
    case NullIx(sz) => Iota(sz)
    case IntIx(vi, _, _) => vi
    case NegIx(vi, sz) => Remaining(vi, 0, 0, sz)
  }

  lemma {:induction false} RemainingIs(vi: seq<nat>, ii: nat, iv: nat, sz: nat)
    requires Ascending(vi) && ii <= |vi| && iv <= sz
    requires forall k :: ii <= k < |vi| ==> iv <= vi[k] < sz
    ensures Ascending(Remaining(vi, ii, iv, sz))
    ensures forall x :: x in Remaining(vi, ii, iv, sz) <==> iv <= x < sz && x !in vi[ii..]
    ensures |Remaining(vi, ii, iv, sz)| == sz - iv - (|vi| - ii)
    decreases sz - iv
  {
    assert ii < |vi| ==> vi[ii] < sz;
    if iv < sz {
      if ii < |vi| && vi[ii] == iv {
        RemainingIs(vi, ii + 1, iv + 1, sz);
        assert vi[ii..] == [iv] + vi[ii + 1..];
      } else {
        RemainingIs(vi, ii, iv + 1, sz);
        var rest := Remaining(vi, ii, iv + 1, sz);
        forall k | 0 <= k < |rest| ensures iv < rest[k] { assert rest[k] in rest; }
      }
    }
  }

  /** A negative index enumerates exactly the ascending complement. */
  lemma NegativeIsComplement(x: Index)
    requires Valid(x) && x.NegIx?
    ensures Ascending(Elems(x))
    ensures forall p :: p in Elems(x) <==> 0 <= p < x.sz && p !in x.vi
    ensures |Elems(x)| == x.sz - |x.vi|
  {
    RemainingIs(x.vi, 0, 0, x.sz);
    var r := Remaining(x.vi, 0, 0, x.sz);
    assert x.vi[0..] == x.vi;
    assert forall p :: p in r <==> 0 <= p < x.sz && p !in x.vi;
  }

  /** Number of positions, as the constructors' checks make it known without enumerating. */
  method TrueSize(x: Index) returns (n: nat)
    requires Valid(x)
    ensures n == |Elems(x)|
  {
    match x {
      case NullIx(sz) => n := sz;
      case IntIx(vi, _, _) => n := |vi|;
      case NegIx(vi, sz) =>
        NegativeIsComplement(x);
        n := sz - |vi|;
    }
  }

  /** The cursor `(val, i)` stands at the `k`-th position of the index; `i` counts the exclusions passed. */
  ghost predicate StandsAt(x: Index, k: nat, val: nat, i: nat) {
    && k < |Elems(x)| && val == Elems(x)[k]
    && if x.NegIx? then
         && i <= |x.vi| && k == val - i
         && (i < |x.vi| ==> val < x.vi[i]) && (0 < i ==> x.vi[i - 1] < val)
       else
         i == k
  }

  lemma RemainingUnfold(vi: seq<nat>, ii: nat, iv: nat, sz: nat)
    requires iv < sz
    ensures ii < |vi| && vi[ii] == iv ==> Remaining(vi, ii, iv, sz) == Remaining(vi, ii + 1, iv + 1, sz)
    ensures !(ii < |vi| && vi[ii] == iv) ==> Remaining(vi, ii, iv, sz) == [iv] + Remaining(vi, ii, iv + 1, sz)
  {}

  /** The exclusions from `ii` up to `i` are below `val` and not below `iv`, the others above `val`. */
  ghost predicate Around(vi: seq<nat>, ii: nat, iv: nat, val: nat, i: nat) {
    && ii <= i <= |vi| && iv <= val
    && (forall k :: ii <= k < i ==> iv <= vi[k] < val)
    && (i < |vi| ==> val < vi[i])
  }

  lemma AroundNext(vi: seq<nat>, ii: nat, iv: nat, val: nat, i: nat)
    requires Ascending(vi) && Around(vi, ii, iv, val, i)
    ensures ii < |vi| && vi[ii] == iv ==> ii < i && Around(vi, ii + 1, iv + 1, val, i)
    ensures !(ii < |vi| && vi[ii] == iv) && iv < val ==> Around(vi, ii, iv + 1, val, i)
    ensures !(ii < |vi| && vi[ii] == iv) && iv == val ==> ii == i
  {
    if ii < i { assert iv <= vi[ii] < val; }
  }

  /** A position that is not excluded, with `i` exclusions below it, is the `val - i`-th one. */
  lemma {:induction false} RemainingAt(vi: seq<nat>, ii: nat, iv: nat, sz: nat, val: nat, i: nat)
    requires Ascending(vi) && Around(vi, ii, iv, val, i) && val < sz
    ensures 0 <= (val - iv) - (i - ii) < |Remaining(vi, ii, iv, sz)|
    ensures Remaining(vi, ii, iv, sz)[(val - iv) - (i - ii)] == val
    decreases sz - iv
  {
    RemainingUnfold(vi, ii, iv, sz);
    AroundNext(vi, ii, iv, val, i);
    assert iv <= val;
    hide Remaining, Around, Ascending;
    if ii < |vi| && vi[ii] == iv {
      RemainingAt(vi, ii + 1, iv + 1, sz, val, i);
    } else if iv < val {
      RemainingAt(vi, ii, iv + 1, sz, val, i);
    }
  }

  lemma NegativeStandsAt(x: Index, val: nat, i: nat)
    requires Valid(x) && x.NegIx? && i <= |x.vi| && val < x.sz
    requires (i < |x.vi| ==> val < x.vi[i]) && (0 < i ==> x.vi[i - 1] < val)
    ensures i <= val && StandsAt(x, val - i, val, i)
  {
    RemainingAt(x.vi, 0, 0, x.sz, val, i);
  }

  lemma AllPassed(x: Index, i: nat)
    requires Valid(x) && x.NegIx? && i <= |x.vi|
    requires i < |x.vi| ==> x.sz < x.vi[i]
    ensures i == |x.vi|
  {
  }

  /** Skips the exclusions met from `iv0` on. */
  method SkipExcluded(vi: seq<nat>, sz: nat, iv0: nat, ii0: nat) returns (iv: nat, ii: nat)
    requires Valid(NegIx(vi, sz)) && ii0 <= |vi| && iv0 <= sz
    requires (ii0 < |vi| ==> iv0 <= vi[ii0]) && (0 < ii0 ==> vi[ii0 - 1] < iv0)
    ensures ii <= |vi| && iv <= sz && iv - ii == iv0 - ii0
    ensures (ii < |vi| ==> iv < vi[ii]) && (0 < ii ==> vi[ii - 1] < iv)
  {
    iv, ii := iv0, ii0;
    while ii < |vi| && vi[ii] == iv
      invariant ii <= |vi| && iv <= sz && iv - ii == iv0 - ii0
      invariant (ii < |vi| ==> iv <= vi[ii]) && (0 < ii ==> vi[ii - 1] < iv)
      decreases |vi| - ii
    {
      ii := ii + 1;
      if iv < sz {
        iv := iv + 1;
      }
    }
  }

  /** Moves to the first position; a listed-positions cursor is left alone when there is none. */
  method GetFirst(x: Index, val0: nat, i0: nat) returns (ok: bool, val: nat, i: nat)
    requires Valid(x)
    ensures ok <==> Elems(x) != []
    ensures ok ==> StandsAt(x, 0, val, i)
    ensures !ok ==> if x.IntIx? then val == val0 && i == i0 else val == 0 && i == 0
  {
    match x {
      case NullIx(sz) =>
        ok, val, i := sz > 0, 0, 0;
      case IntIx(vi, _, _) =>
        if |vi| != 0 {
          ok, val, i := true, vi[0], 0;
        } else {
          ok, val, i := false, val0, i0;
        }
      case NegIx(vi, sz) =>
        val, i := SkipExcluded(vi, sz, 0, 0);
        NegativeIsComplement(x);
        if val == sz {
          AllPassed(x, i);
          ok, val, i := false, 0, 0;
        } else {
          NegativeStandsAt(x, val, i);
          ok := true;
        }
    }
  }

  /** Moves to the next position, or back to the first one and reports the end. */
  method GetNext(x: Index, val0: nat, i0: nat, ghost k: nat) returns (ok: bool, val: nat, i: nat)
    requires Valid(x) && StandsAt(x, k, val0, i0)
    ensures ok <==> k + 1 < |Elems(x)|
    ensures StandsAt(x, if ok then k + 1 else 0, val, i)
  {
    match x {
      case NullIx(sz) =>
        i := i0 + 1;
        val := i;
        ok := i < sz;
        if !ok {
          val, i := 0, 0;
        }
      case IntIx(vi, _, _) =>
        i := i0 + 1;
        if i < |vi| {
          ok, val := true, vi[i];
        } else {
          ok, val, i := GetFirst(x, val0, i);
          ok := false;
        }
      case NegIx(vi, sz) =>
        NegativeIsComplement(x);
        val, i := SkipExcluded(vi, sz, val0 + 1, i0);
        if val == sz {
          AllPassed(x, i);
          ok, val, i := GetFirst(x, val, i);
          ok := false;
        } else {
          NegativeStandsAt(x, val, i);
          ok := true;
        }
    }
  }

  /** Positions are listed in increasing order without repetition. */
  method IsOrdered(vi: seq<nat>) returns (b: bool)
    ensures b <==> Ascending(vi)
  {
    if |vi| == 0 {
      return true;
    }
    for j := 1 to |vi|
      invariant Ascending(vi[..j])
    {
      if vi[j - 1] >= vi[j] {
        return false;
      }
    }
    assert vi[..|vi|] == vi;
    return true;
  }

  /** `order` is what sorting the positions reports when they are not in order; any permutation will do. */
  method MakeInt(vi: seq<nat>, order: seq<nat>) returns (x: Index)
    requires |order| == |vi| && Permutation(order)
    ensures x.IntIx? && x.vi == vi && Valid(x)
  {
    var ordered := IsOrdered(vi);
    if ordered {
      return IntIx(vi, vi, Iota(|vi|));
    }
    var vidx: seq<nat>, uidx: seq<nat> := seq(|vi|, _ => 0), seq(|vi|, _ => 0);
    for j := 0 to |order|
      invariant |vidx| == |uidx| == |vi|
      invariant forall k :: 0 <= k < j ==> vidx[order[k]] == vi[k] && uidx[order[k]] == k
    {
      vidx := vidx[order[j] := vi[j]];
      uidx := uidx[order[j] := j];
    }
    Inverse(order, uidx);
    return IntIx(vi, vidx, uidx);
  }

  /** Every number below the length occurs in a permutation. */
  lemma {:induction false} Covers(s: seq<nat>, n: nat)
    requires Distinct(s) && (forall k :: 0 <= k < |s| ==> s[k] < n) && |s| == n
    ensures forall y :: 0 <= y < n ==> y in s
  {
    if n != 0 {
      var m := n - 1;
      if m in s {
        var k :| 0 <= k < |s| && s[k] == m;
        var t := s[..k] + s[k + 1..];
        Covers(t, m);
        assert forall y :: y in t ==> y in s;
      } else {
        TooMany(s, m);
      }
    }
  }

  lemma {:induction false} TooMany(s: seq<nat>, m: nat)
    requires Distinct(s) && forall k :: 0 <= k < |s| ==> s[k] < m
    ensures |s| <= m
  {
    if s != [] {
      assert s[0] < m;
      if m - 1 in s {
        var k :| 0 <= k < |s| && s[k] == m - 1;
        TooMany(s[..k] + s[k + 1..], m - 1);
      } else {
        TooMany(s, m - 1);
      }
    }
  }

  lemma Inverse(order: seq<nat>, uidx: seq<nat>)
    requires Permutation(order) && |uidx| == |order|
    requires forall k :: 0 <= k < |order| ==> uidx[order[k]] == k
    ensures Permutation(uidx) && forall y :: 0 <= y < |order| ==> order[uidx[y]] == y
  {
    Covers(order, |order|);
    forall y | 0 <= y < |order| ensures uidx[y] < |order| && order[uidx[y]] == y {
      assert y in order;
    }
  }

  /** Sorts and removes duplicates, as the constructor does when the positions are not in order. */
  method SortUnique(vi: seq<nat>) returns (r: seq<nat>)
    ensures Ascending(r) && forall p :: p in r <==> p in vi
  {
    r := [];
    for j := 0 to |vi|
      invariant Ascending(r) && forall p :: p in r <==> p in vi[..j]
    {
      var k := 0;
      while k < |r| && r[k] < vi[j]
        invariant k <= |r| && forall m :: 0 <= m < k ==> r[m] < vi[j]
      {
        k := k + 1;
      }
      ghost var s := r;
      if !(k < |r| && r[k] == vi[j]) {
        r := r[..k] + [vi[j]] + r[k..];
        assert forall p :: p in r <==> p in s[..k] || p == vi[j] || p in s[k..];
        assert s == s[..k] + s[k..];
      }
      assert vi[..j + 1] == vi[..j] + [vi[j]];
    }
    assert vi[..|vi|] == vi;
  }

  /** The exclusion of `vi` from a dimension of extent `sz`; refused when a position lies outside. */
  method MakeNeg(vi: seq<nat>, sz: nat) returns (r: Option<Index>)
    ensures r == None <==> exists p :: p in vi && sz <= p
    ensures r.Some? ==> r.value.NegIx? && r.value.sz == sz && Valid(r.value) && forall p :: p in r.value.vi <==> p in vi
  {
    var s := vi;
    var ordered := IsOrdered(vi);
    if |vi| != 0 && !ordered {
      s := SortUnique(vi);
    }
    if |s| != 0 && (s[|s| - 1] >= sz || sz == 0) {
      assert s[|s| - 1] in vi;
      return None;
    }
    forall p | p in vi ensures p < sz { assert p in s; }
    r := Some(NegIx(s, sz));
  }
}
