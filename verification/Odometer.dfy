/** Walking the columns that a tuple of indices selects, the first of the outer dimensions fastest. */
module Odometer {
  import opened MixedRadix
  import opened Cursor

  function Counts(ixs: seq<Index>): (cs: seq<nat>)
    ensures |cs| == |ixs|
  {
    seq(|ixs|, k requires 0 <= k < |ixs| => |Elems(ixs[k])|)
  }

  /** The multi-index that the digits `ds` pick. */
  function Values(ixs: seq<Index>, ds: seq<nat>): (vs: seq<nat>)
    requires InRange(Counts(ixs), ds)
    ensures |vs| == |ixs|
  {
    seq(|ixs|, k requires 0 <= k < |ixs| => Elems(ixs[k])[ds[k]])
  }

  datatype Cell = End | Col(col: nat) | OutOfBounds

  /** The column of extents `dim` found at a multi-index over the outer dimensions. */
  function CellAt(dim: seq<nat>, vs: seq<nat>): (c: Cell)
    requires dim != [] && |vs| == |dim| - 1
    ensures c != End
  {
    if InRange(dim[1..], vs) then Col(Flat(dim[1..], vs)) else OutOfBounds
  }

  /** The `p`-th column in column-major order of the selection. */
  function ColumnAt(dim: seq<nat>, ixs: seq<Index>, p: nat): (c: Cell)
    requires dim != [] && |ixs| == |dim| && p < Prod(Counts(ixs[1..]))
    ensures c != End
  {
    CellAt(dim, Values(ixs[1..], Unflat(Counts(ixs[1..]), p)))
  }

  /** The cursors of the outer dimensions stand at the digits `ds`; entry 0 of each sequence is not used. */
  ghost predicate Positioned(ixs: seq<Index>, val: seq<nat>, pi: seq<nat>, ds: seq<nat>) {
    && |val| == |pi| == |ds| == |ixs|
    && forall k :: 1 <= k < |ixs| ==> StandsAt(ixs[k], ds[k], val[k], pi[k])
  }

  /** The digits of the `p`-th column. */
  function Digits(ixs: seq<Index>, p: nat): (ds: seq<nat>)
    requires ixs != [] && p < Prod(Counts(ixs[1..]))
    ensures |ds| == |ixs|
  {
    [0] + Unflat(Counts(ixs[1..]), p)
  }

  lemma {:induction false} ProdPositive(cs: seq<nat>)
    requires forall k :: 0 <= k < |cs| ==> 0 < cs[k]
    ensures 0 < Prod(cs) && InRange(cs, seq(|cs|, _ => 0)) && Unflat(cs, 0) == seq(|cs|, _ => 0)
  {
    if cs != [] {
      ProdPositive(cs[1..]);
      MulMono(cs[0], 1, Prod(cs[1..]));
      var t := Unflat(cs[1..], 0);
      assert Unflat(cs, 0) == [0] + t;
    }
  }

  /** Carrying: the maxed-out low digits go back to zero and the next one advances. */
  lemma {:induction false} Carry(cs: seq<nat>, ds: seq<nat>, j: nat, e: seq<nat>)
    requires InRange(cs, ds) && j < |cs| && |e| == |ds|
    requires forall k :: 0 <= k < j ==> ds[k] == cs[k] - 1 && e[k] == 0
    requires ds[j] + 1 < cs[j] && e[j] == ds[j] + 1
    requires forall k :: j < k < |cs| ==> e[k] == ds[k]
    ensures InRange(cs, e) && Flat(cs, e) == Flat(cs, ds) + 1
  {
    if j == 0 {
      assert e[1..] == ds[1..];
    } else {
      Carry(cs[1..], ds[1..], j - 1, e[1..]);
      var d, f := cs[0], Flat(cs[1..], ds[1..]);
      assert Flat(cs, e) == d * (f + 1) && Flat(cs, ds) == d - 1 + d * f;
      hide Flat;
      MulStep(d, f);
    }
  }

  lemma {:induction false} AllMaxed(cs: seq<nat>, ds: seq<nat>)
    requires InRange(cs, ds)
    requires forall k :: 0 <= k < |cs| ==> ds[k] == cs[k] - 1
    ensures Flat(cs, ds) == Prod(cs) - 1
  {
    if cs != [] {
      AllMaxed(cs[1..], ds[1..]);
      var d, p := cs[0], Prod(cs[1..]);
      assert d * (p - 1) == d * p - d;
    }
  }

  /** Column number from the cursors' values, dimension by dimension. */
  method ColumnOf(val: array<nat>, dim: seq<nat>) returns (r: Cell)
    requires dim != [] && val.Length == |dim|
    ensures r == CellAt(dim, val[1..])
  {
    var col: nat, mul: nat := 0, 1;
    ghost var t, x := dim[1..], val[1..];
    for k := 1 to |dim|
      invariant InRange(t[..k - 1], x[..k - 1])
      invariant mul == Prod(t[..k - 1]) && col == Flat(t[..k - 1], x[..k - 1])
    {
      if val[k] >= dim[k] {
        assert x[k - 1] >= t[k - 1];
        return OutOfBounds;
      }
      NextDigit(t, x, k - 1);
      col := col + val[k] * mul;
      mul := mul * dim[k];
    }
    assert t[..|t|] == t && x[..|t|] == x;
    r := Col(col);
  }

  lemma NextDigit(ds: seq<nat>, ix: seq<nat>, k: nat)
    requires |ds| == |ix| && k < |ds|
    ensures Prod(ds[..k + 1]) == Prod(ds[..k]) * ds[k]
    ensures Flat(ds[..k + 1], ix[..k + 1]) == Flat(ds[..k], ix[..k]) + ix[k] * Prod(ds[..k])
  {
    var t, x := ds[..k + 1], ix[..k + 1];
    assert t[..k] == ds[..k] && x[..k] == ix[..k] && t[k..] == [ds[k]] && x[k..] == [ix[k]];
    assert Prod([]) == 1 && Prod([ds[k]]) == ds[k] && Flat([ds[k]], [ix[k]]) == ix[k];
    hide Prod, Flat;
    ProdSplit(t, k);
    FlatSplit(t, x, k);
  }

  lemma PositionedValues(ixs: seq<Index>, val: seq<nat>, pi: seq<nat>, p: nat)
    requires ixs != [] && p < Prod(Counts(ixs[1..])) && Positioned(ixs, val, pi, Digits(ixs, p))
    ensures val[1..] == Values(ixs[1..], Unflat(Counts(ixs[1..]), p))
  {
    hide Prod, Unflat, Elems;
    var vs := Values(ixs[1..], Unflat(Counts(ixs[1..]), p));
    forall k | 0 <= k < |vs| ensures val[1..][k] == vs[k] {
      assert StandsAt(ixs[k + 1], Digits(ixs, p)[k + 1], val[k + 1], pi[k + 1]);
    }
  }

  method GetFirstCol(val: array<nat>, pi: array<nat>, ixs: seq<Index>, dim: seq<nat>) returns (r: Cell)
    requires dim != [] && |ixs| == |dim| == val.Length == pi.Length && val != pi
    requires forall k :: 0 <= k < |ixs| ==> Valid(ixs[k])
    modifies val, pi
    ensures var n := Prod(Counts(ixs[1..]));
            if n == 0 then r == End
            else r == ColumnAt(dim, ixs, 0) && Positioned(ixs, val[..], pi[..], Digits(ixs, 0))
  {
    ghost var cs := Counts(ixs[1..]);
    for pd := 1 to |dim|
      invariant forall k :: 0 <= k < pd - 1 ==> 0 < cs[k]
      invariant forall k :: 1 <= k < pd ==> StandsAt(ixs[k], 0, val[k], pi[k])
    {
      var ok, v, i := GetFirst(ixs[pd], val[pd], pi[pd]);
      val[pd], pi[pd] := v, i;
      if !ok {
        assert cs[pd - 1] == 0;
        ProdZero(cs, pd - 1);
        return End;
      }
      assert 0 < cs[pd - 1];
    }
    ProdPositive(cs);
    PositionedValues(ixs, val[..], pi[..], 0);
    assert val[1..] == val[..][1..];
    r := ColumnOf(val, dim);
  }

  /** The digits after an advance in the dimension `j`: lower ones are back at zero. */
  function Advanced(ds: seq<nat>, j: nat): (e: seq<nat>)
    requires j < |ds|
    ensures |e| == |ds|
  {
    seq(|ds|, k requires 0 <= k < |ds| => if k < j then 0 else if k == j then ds[k] + 1 else ds[k])
  }

  lemma MaxedCounts(ixs: seq<Index>, u: seq<nat>, pd: nat)
    requires |u| + 1 == |ixs| && 1 <= pd <= |ixs|
    requires forall k :: 1 <= k < pd ==> ([0] + u)[k] == |Elems(ixs[k])| - 1
    ensures forall k :: 0 <= k < pd - 1 ==> u[k] == Counts(ixs[1..])[k] - 1
    ensures pd < |ixs| ==> u[pd - 1] == ([0] + u)[pd] && Counts(ixs[1..])[pd - 1] == |Elems(ixs[pd])|
  {
    forall k | 0 <= k < pd - 1 ensures u[k] == Counts(ixs[1..])[k] - 1 {
      assert ([0] + u)[k + 1] == |Elems(ixs[k + 1])| - 1;
    }
  }

  /** Advancing in the first dimension whose cursor is not at its end is moving to the next column. */
  lemma AdvancedIsNext(ixs: seq<Index>, p: nat, pd: nat)
    requires ixs != [] && p < Prod(Counts(ixs[1..])) && 1 <= pd < |ixs|
    requires var ds := Digits(ixs, p);
             && ds[pd] + 1 < |Elems(ixs[pd])|
             && forall k :: 1 <= k < pd ==> ds[k] == |Elems(ixs[k])| - 1
    ensures p + 1 < Prod(Counts(ixs[1..])) && Digits(ixs, p + 1) == Advanced(Digits(ixs, p), pd)
  {
    var cs := Counts(ixs[1..]);
    var u := Unflat(cs, p);
    MaxedCounts(ixs, u, pd);
    NextUnflat(cs, p, pd - 1);
    hide Prod, Unflat, Elems, Counts, Advanced;
    AdvancedShift(u, pd - 1);
  }

  lemma NextUnflat(cs: seq<nat>, p: nat, j: nat)
    requires p < Prod(cs) && j < |cs| && Unflat(cs, p)[j] + 1 < cs[j]
    requires forall k :: 0 <= k < j ==> Unflat(cs, p)[k] == cs[k] - 1
    ensures p + 1 < Prod(cs) && Unflat(cs, p + 1) == Advanced(Unflat(cs, p), j)
  {
    hide Prod, Flat, Unflat, Advanced;
    CarriedColumn(cs, Unflat(cs, p), j);
    FlatUnflat(cs, p);
  }

  lemma AdvancedShift(u: seq<nat>, j: nat)
    requires j < |u|
    ensures Advanced([0] + u, j + 1) == [0] + Advanced(u, j)
  {
  }

  lemma CarriedColumn(cs: seq<nat>, ds: seq<nat>, j: nat)
    requires InRange(cs, ds) && j < |cs|
    requires ds[j] + 1 < cs[j] && forall k :: 0 <= k < j ==> ds[k] == cs[k] - 1
    ensures Flat(cs, ds) + 1 < Prod(cs) && Unflat(cs, Flat(cs, ds) + 1) == Advanced(ds, j)
  {
    var e := Advanced(ds, j);
    Carry(cs, ds, j, e);
    UnflatFlat(cs, e);
  }

  lemma LastColumn(ixs: seq<Index>, p: nat)
    requires ixs != [] && p < Prod(Counts(ixs[1..]))
    requires forall k :: 1 <= k < |ixs| ==> Digits(ixs, p)[k] == |Elems(ixs[k])| - 1
    ensures p + 1 == Prod(Counts(ixs[1..]))
  {
    var u := Unflat(Counts(ixs[1..]), p);
    MaxedCounts(ixs, u, |ixs|);
    AllMaxed(Counts(ixs[1..]), u);
    FlatUnflat(Counts(ixs[1..]), p);
  }

  /** Advances the cursors: `pd` is the dimension that moved on, or the number of dimensions when none could. */
  method Advance(val: array<nat>, pi: array<nat>, ixs: seq<Index>, ghost ds: seq<nat>) returns (pd: nat)
    requires |ixs| == val.Length == pi.Length && ixs != [] && val != pi
    requires forall k :: 0 <= k < |ixs| ==> Valid(ixs[k])
    requires Positioned(ixs, val[..], pi[..], ds)
    modifies val, pi
    ensures 1 <= pd <= |ixs|
    ensures forall k :: 1 <= k < pd ==> ds[k] == |Elems(ixs[k])| - 1
    ensures pd < |ixs| ==> ds[pd] + 1 < |Elems(ixs[pd])| && Positioned(ixs, val[..], pi[..], Advanced(ds, pd))
  {
    hide Elems, Valid;
    pd := 1;
    while pd < |ixs|
      invariant 1 <= pd <= |ixs|
      invariant forall k :: 1 <= k < pd ==> ds[k] == |Elems(ixs[k])| - 1
      invariant forall k :: 1 <= k < pd ==> StandsAt(ixs[k], 0, val[k], pi[k])
      invariant forall k :: pd <= k < |ixs| ==> StandsAt(ixs[k], ds[k], val[k], pi[k])
    {
      var ok, v, i := GetNext(ixs[pd], val[pd], pi[pd], ds[pd]);
      val[pd], pi[pd] := v, i;
      if ok {
        return;
      }
      pd := pd + 1;
    }
  }

  /** From the `p`-th column to the next one, or past the last. */
  method GetNextCol(val: array<nat>, pi: array<nat>, ixs: seq<Index>, dim: seq<nat>, ghost p: nat) returns (r: Cell)
    requires dim != [] && |ixs| == |dim| == val.Length == pi.Length && val != pi
    requires forall k :: 0 <= k < |ixs| ==> Valid(ixs[k])
    requires p < Prod(Counts(ixs[1..])) && Positioned(ixs, val[..], pi[..], Digits(ixs, p))
    modifies val, pi
    ensures if p + 1 == Prod(Counts(ixs[1..])) then r == End
            else p + 1 < Prod(Counts(ixs[1..])) && r == ColumnAt(dim, ixs, p + 1)
                 && Positioned(ixs, val[..], pi[..], Digits(ixs, p + 1))
  {
    var pd := Advance(val, pi, ixs, Digits(ixs, p));
    if pd >= |dim| {
      LastColumn(ixs, p);
      return End;
    }
    AdvancedIsNext(ixs, p, pd);
    PositionedValues(ixs, val[..], pi[..], p + 1);
    assert val[1..] == val[..][1..];
    r := ColumnOf(val, dim);
  }
}
