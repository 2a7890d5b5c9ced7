/** The median of a sequence through two heaps. */
module Median {
  import opened Wrappers

  ghost predicate Sorted(s: seq<real>) {
    forall i, j :: 0 <= i < j < |s| ==> s[i] <= s[j]
  }

  /** The middle element, or the mean of the two in the middle. */
  function Middle(s: seq<real>): real
    requires s != []
  {
    var h := |s| / 2;
    if |s| % 2 == 1 then s[h] else (s[h - 1] + s[h]) / 2.0
  }

  /**
   * A priority queue holds its elements in order: the top of the one that gives its greatest first is the last
   * element, the top of the one that gives its least first is the first element.
   */
  function Push(q: seq<real>, x: real): (r: seq<real>)
    requires Sorted(q)
    ensures Sorted(r) && multiset(r) == multiset(q) + multiset{x} && |r| == |q| + 1
    ensures forall y :: y in r <==> y in q || y == x
  {
    if q == [] then [x]
    else if x <= q[0] then
      assert q == [q[0]] + q[1..];
      [x] + q
    else
      assert q == [q[0]] + q[1..];
      var r := Push(q[1..], x);
      assert forall k :: 0 <= k < |r| ==> r[k] in r;
      [q[0]] + r
  }

  /** The heaps hold the elements, none in the first above any in the second. */
  ghost predicate Parted(left: seq<real>, right: seq<real>, all: multiset<real>) {
    Sorted(left + right) && multiset(left + right) == all
  }

  /** The heaps part the elements seen into a lower and an upper half whose sizes differ by at most one. */
  ghost predicate Halves(left: seq<real>, right: seq<real>, seen: seq<real>) {
    && Parted(left, right, multiset(seen))
    && -1 <= |left| - |right| <= 1
    && (seen != [] ==> left != [])
  }

  lemma SameSize(left: seq<real>, right: seq<real>, seen: seq<real>)
    requires multiset(left + right) == multiset(seen)
    ensures |left| + |right| == |seen|
  {
    assert |multiset(left + right)| == |left + right|;
  }

  lemma LeastFirst(s: seq<real>)
    requires Sorted(s) && s != []
    ensures forall x :: x in s ==> s[0] <= x
    ensures Sorted(s[1..]) && multiset(s) == multiset{s[0]} + multiset(s[1..])
  {
    assert s == [s[0]] + s[1..];
  }

  lemma SameFirst(a: seq<real>, b: seq<real>)
    requires Sorted(a) && Sorted(b) && multiset(a) == multiset(b) && a != [] && b != []
    ensures a[0] == b[0] && multiset(a[1..]) == multiset(b[1..])
  {
    LeastFirst(a);
    LeastFirst(b);
    assert a[0] in multiset(a) && b[0] in multiset(b);
    hide Sorted;
    assert a[0] in b && b[0] in a;
    CancelOne(a[0], multiset(a[1..]), multiset(b[1..]));
  }

  lemma CancelOne(x: real, a: multiset<real>, b: multiset<real>)
    requires multiset{x} + a == multiset{x} + b
    ensures a == b
  {
    assert a == multiset{x} + a - multiset{x};
    assert b == multiset{x} + b - multiset{x};
  }

  /** There is only one order. */
  lemma {:induction false} OneOrder(a: seq<real>, b: seq<real>)
    requires Sorted(a) && Sorted(b) && multiset(a) == multiset(b)
    ensures a == b
    decreases |a|
  {
    assert |a| == |multiset(a)| == |multiset(b)| == |b|;
    if a != [] {
      LeastFirst(a);
      LeastFirst(b);
      SameFirst(a, b);
      hide Sorted;
      OneOrder(a[1..], b[1..]);
      assert a == [a[0]] + a[1..] && b == [b[0]] + b[1..];
    }
  }

  /** Each heap is in order, and their tops are. */
  lemma Tops(left: seq<real>, right: seq<real>)
    requires Sorted(left + right)
    ensures Sorted(left) && Sorted(right)
    ensures forall i, j :: 0 <= i < |left| && 0 <= j < |right| ==> left[i] <= right[j]
  {
    var s := left + right;
    assert forall i :: 0 <= i < |left| ==> s[i] == left[i];
    assert forall i :: 0 <= i < |right| ==> s[|left| + i] == right[i];
  }

  lemma PushLeft(left: seq<real>, right: seq<real>, all: multiset<real>, x: real)
    requires Parted(left, right, all) && (right == [] || x <= right[0])
    ensures Sorted(left) && Parted(Push(left, x), right, all + multiset{x})
  {
    Tops(left, right);
    var p := Push(left, x);
    forall i, j | 0 <= i < |p| && 0 <= j < |right| ensures p[i] <= right[j] {
      assert p[i] in p;
    }
    InOrder(p, right);
    hide Sorted, Push;
    MultisetOfBoth(left, right, p, right, all, x);
  }

  lemma PushRight(left: seq<real>, right: seq<real>, all: multiset<real>, x: real)
    requires Parted(left, right, all) && (left == [] || left[|left| - 1] <= x)
    ensures Sorted(right) && Parted(left, Push(right, x), all + multiset{x})
  {
    Tops(left, right);
    var p := Push(right, x);
    forall i, j | 0 <= i < |left| && 0 <= j < |p| ensures left[i] <= p[j] {
      assert p[j] in p;
    }
    InOrder(left, p);
    hide Sorted, Push;
    MultisetOfBoth(left, right, left, p, all, x);
  }

  lemma InOrder(a: seq<real>, b: seq<real>)
    requires Sorted(a) && Sorted(b) && forall i, j :: 0 <= i < |a| && 0 <= j < |b| ==> a[i] <= b[j]
    ensures Sorted(a + b)
  {}

  lemma MultisetOfBoth(a: seq<real>, b: seq<real>, c: seq<real>, d: seq<real>, all: multiset<real>, x: real)
    requires multiset(a + b) == all
    requires multiset(c) + multiset(d) == multiset(a) + multiset(b) + multiset{x}
    ensures multiset(c + d) == all + multiset{x}
  {
    assert multiset(a + b) == multiset(a) + multiset(b);
    assert multiset(c + d) == multiset(c) + multiset(d);
  }

  /** What is no less than all elements goes last. */
  lemma {:induction false} PushTop(q: seq<real>, x: real)
    requires Sorted(q + [x])
    ensures Sorted(q) && Push(q, x) == q + [x]
  {
    Tops(q, [x]);
    if q != [] {
      Tops([q[0]], q[1..] + [x]);
      assert [q[0]] + (q[1..] + [x]) == q + [x];
      PushTop(q[1..], x);
      if x <= q[0] {
        AllSame(q, x);
      }
    }
  }

  lemma AllSame(q: seq<real>, x: real)
    requires Sorted(q + [x]) && q != [] && x <= q[0]
    ensures [x] + q == q + [x]
  {
    Tops(q, [x]);
    assert [x][0] == x;
    assert forall i :: 0 <= i < |q| ==> q[i] == x;
  }

  /** The least of the upper half moves to the lower one. */
  lemma MoveLeft(left: seq<real>, right: seq<real>, all: multiset<real>)
    requires Parted(left, right, all) && right != []
    ensures Sorted(left) && Push(left, right[0]) == left + [right[0]]
    ensures Parted(left + [right[0]], right[1..], all)
  {
    assert left + right == left + [right[0]] + right[1..];
    Tops(left + [right[0]], right[1..]);
    PushTop(left, right[0]);
  }

  /** The greatest of the lower half moves to the upper one. */
  lemma MoveRight(left: seq<real>, right: seq<real>, all: multiset<real>)
    requires Parted(left, right, all) && left != []
    ensures var x := left[|left| - 1];
            Sorted(right) && Push(right, x) == [x] + right && Parted(left[..|left| - 1], [x] + right, all)
  {
    var x := left[|left| - 1];
    assert left + right == left[..|left| - 1] + ([x] + right);
    Tops(left[..|left| - 1], [x] + right);
    Tops([x], right);
    assert [x][0] == x;
  }

  /** One more element goes to the half it belongs to, after a move of a top when that half is the larger one. */
  method Add(left0: seq<real>, right0: seq<real>, x: real, ghost seen: seq<real>) returns (left: seq<real>, right: seq<real>)
    requires Halves(left0, right0, seen)
    ensures Halves(left, right, seen + [x])
  {
    left, right := left0, right0;
    SameSize(left, right, seen);
    assert multiset(seen + [x]) == multiset(seen) + multiset{x};
    ghost var all := multiset(seen);
    hide *;
    if |left| == |right| {
      if |left| == 0 || x < left[|left| - 1] {
        assert right == [] || x <= right[0] by { Below(left, right, all); }
        PushLeft(left, right, all, x);
        left := Push(left, x);
      } else {
        PushRight(left, right, all, x);
        right := Push(right, x);
      }
    } else if |left| < |right| {
      if x < right[0] {
        PushLeft(left, right, all, x);
        left := Push(left, x);
      } else {
        MoveLeft(left, right, all);
        left := Push(left, right[0]);
        right := right[1..];
        PushRight(left, right, all, x);
        right := Push(right, x);
      }
    } else {
      if x > left[|left| - 1] {
        PushRight(left, right, all, x);
        right := Push(right, x);
      } else {
        MoveRight(left, right, all);
        right := Push(right, left[|left| - 1]);
        left := left[..|left| - 1];
        PushLeft(left, right, all, x);
        left := Push(left, x);
      }
    }
    StillHalves(left, right, seen + [x]);
  }

  lemma Below(left: seq<real>, right: seq<real>, all: multiset<real>)
    requires Parted(left, right, all) && |left| == |right|
    ensures right == [] || left[|left| - 1] <= right[0]
  {
    Tops(left, right);
  }

  lemma StillHalves(left: seq<real>, right: seq<real>, seen: seq<real>)
    requires Parted(left, right, multiset(seen)) && -1 <= |left| - |right| <= 1 && left != []
    ensures Halves(left, right, seen)
  {}

  /** The elements have an order, and in every order the middle is `v`. */
  ghost predicate IsMedian(s: seq<real>, v: real) {
    && (exists t :: Sorted(t) && multiset(t) == multiset(s))
    && forall t :: Sorted(t) && multiset(t) == multiset(s) ==> t != [] && v == Middle(t)
  }

  lemma MiddleOfHalves(left: seq<real>, right: seq<real>, s: seq<real>)
    requires Halves(left, right, s) && s != []
    ensures left != [] && (|left| <= |right| ==> right != [])
    ensures IsMedian(s, if |left| == |right| then (left[|left| - 1] + right[0]) / 2.0
                        else if |left| < |right| then right[0] else left[|left| - 1])
  {
    var all := left + right;
    SameSize(left, right, s);
    forall t | Sorted(t) && multiset(t) == multiset(s) ensures t == all {
      OneOrder(t, all);
    }
    hide Sorted;
  }

  /** The median, in whatever order the elements come; none of no elements. */
  method MedianElement(s: seq<real>) returns (r: Option<real>)
    ensures s == [] <==> r == None
    ensures r.Some? ==> IsMedian(s, r.value)
    ensures r.Some? ==> forall t: seq<real> :: Sorted(t) && multiset(t) == multiset(s) ==>
              |t| == |s| && 2.0 * r.value == t[(|t| - 1) / 2] + t[|t| / 2]
  {
    if |s| == 0 {
      return None;
    }
    var left: seq<real>, right: seq<real> := [], [];
    assert s[..0] == [];
    hide IsMedian, Sorted, Push;
    NoHalves();
    for i := 0 to |s|
      invariant Halves(left, right, s[..i])
    {
      hide Halves;
      assert s[..i + 1] == s[..i] + [s[i]];
      left, right := Add(left, right, s[i], s[..i]);
    }
    hide Halves;
    assert s[..|s|] == s;
    MiddleOfHalves(left, right, s);
    if |left| == |right| {
      r := Some((left[|left| - 1] + right[0]) / 2.0);
    } else if |left| < |right| {
      r := Some(right[0]);
    } else {
      r := Some(left[|left| - 1]);
    }
    TwoMiddles(s, r.value);
  }

  /** Twice the median is the sum of the elements in the middle, counted from either end. */
  lemma TwoMiddles(s: seq<real>, v: real)
    requires IsMedian(s, v)
    ensures forall t: seq<real> :: Sorted(t) && multiset(t) == multiset(s) ==>
              |t| == |s| && 2.0 * v == t[(|t| - 1) / 2] + t[|t| / 2]
  {
    forall t: seq<real> | Sorted(t) && multiset(t) == multiset(s)
      ensures |t| == |s| && 2.0 * v == t[(|t| - 1) / 2] + t[|t| / 2]
    {
      assert |multiset(t)| == |t| && |multiset(s)| == |s|;
      assert v == Middle(t);
    }
  }

  lemma NoHalves()
    ensures Halves([], [], [])
  {
    var none: seq<real> := [];
    assert none + none == none;
  }
}
