/** Matching the arguments of a call to the formal arguments of a closure. */
module ArgMatch {
  import opened Wrappers

  /** A formal argument: a name, a name with a default, or the ellipsis. */
  datatype Formal<T> = Symbol(name: string) | Default(name: string, e: T) | Ellipsis

  /** An actual argument, with a tag or without; `ref` is set when it is passed by reference. */
  datatype Actual<T> = Tagged(tag: string, e: T, ref: bool) | Plain(e: T, ref: bool)

  /** What a name is bound to: `isFormal` when it is the default, `isEllipsis` when it goes into the ellipsis. */
  datatype ArgInfo<T> = ArgInfo(name: string, e: T, isFormal: bool, isEllipsis: bool, isRef: bool)

  /** A formal list that a closure accepts: no name and no ellipsis twice. */
  ghost predicate WellFormed<T>(fs: seq<Formal<T>>) {
    forall i, j :: 0 <= i < j < |fs| ==>
      if fs[i].Ellipsis? then !fs[j].Ellipsis? else fs[j].Ellipsis? || fs[i].name != fs[j].name
  }

  /** Position of the ellipsis, or -1. */
  ghost predicate IsEllipsisPos<T>(fs: seq<Formal<T>>, e: int) {
    if e < 0 then e == -1 && forall i :: 0 <= i < |fs| ==> !fs[i].Ellipsis? else e < |fs| && fs[e].Ellipsis?
  }

  ghost predicate IsArgMap<T>(fs: seq<Formal<T>>, m: map<string, nat>) {
    && (forall i :: 0 <= i < |fs| && !fs[i].Ellipsis? ==> fs[i].name in m && m[fs[i].name] == i)
    && (forall x :: x in m ==> m[x] < |fs| && !fs[m[x]].Ellipsis? && fs[m[x]].name == x)
  }

  lemma AddedName<T>(fs: seq<Formal<T>>, n: nat, m: map<string, nat>, e: int)
    requires n < |fs| && !fs[n].Ellipsis?
    requires WellFormed(fs[..n]) && IsArgMap(fs[..n], m) && IsEllipsisPos(fs[..n], e)
    ensures fs[n].name in m ==> !WellFormed(fs)
    ensures fs[n].name !in m ==> WellFormed(fs[..n + 1]) && IsArgMap(fs[..n + 1], m[fs[n].name := n]) && IsEllipsisPos(fs[..n + 1], e)
  {
    if fs[n].name in m {
      var i := m[fs[n].name];
      assert fs[..n][i] == fs[i] && !fs[i].Ellipsis? && fs[i].name == fs[n].name;
    } else {
      var gs := fs[..n + 1];
      forall i, j | 0 <= i < j < |gs|
        ensures if gs[i].Ellipsis? then !gs[j].Ellipsis? else gs[j].Ellipsis? || gs[i].name != gs[j].name
      {
        assert gs[i] == fs[..n][i];
        if j < n { assert gs[j] == fs[..n][j]; }
      }
      forall i | 0 <= i < |gs| && !gs[i].Ellipsis? ensures gs[i].name in m[fs[n].name := n] && m[fs[n].name := n][gs[i].name] == i {
        if i < n { assert gs[i] == fs[..n][i]; }
      }
      forall i | 0 <= i < n ensures gs[i] == fs[..n][i] {}
    }
  }

  lemma AddedEllipsis<T>(fs: seq<Formal<T>>, n: nat, m: map<string, nat>, e: int)
    requires n < |fs| && fs[n].Ellipsis?
    requires WellFormed(fs[..n]) && IsArgMap(fs[..n], m) && IsEllipsisPos(fs[..n], e)
    ensures e != -1 ==> !WellFormed(fs)
    ensures e == -1 ==> WellFormed(fs[..n + 1]) && IsArgMap(fs[..n + 1], m) && IsEllipsisPos(fs[..n + 1], n)
  {
    if e != -1 {
      assert fs[..n][e] == fs[e] && fs[e].Ellipsis?;
    } else {
      var gs := fs[..n + 1];
      forall i | 0 <= i < n ensures gs[i] == fs[..n][i] && !gs[i].Ellipsis? {}
    }
  }

  /** Indexes the formal list; refused when a name or the ellipsis is repeated. */
  method ProcessFormlist<T>(fs: seq<Formal<T>>) returns (ok: bool, argMap: map<string, nat>, ellipsisPos: int)
    ensures ok <==> WellFormed(fs)
    ensures ok ==> IsArgMap(fs, argMap) && IsEllipsisPos(fs, ellipsisPos)
  {
    argMap, ellipsisPos, ok := map[], -1, true;
    for n := 0 to |fs|
      invariant WellFormed(fs[..n]) && IsArgMap(fs[..n], argMap) && IsEllipsisPos(fs[..n], ellipsisPos)
    {
      hide WellFormed, IsArgMap, IsEllipsisPos;
      if !fs[n].Ellipsis? {
        AddedName(fs, n, argMap, ellipsisPos);
        if fs[n].name in argMap {
          return false, argMap, ellipsisPos;
        }
        argMap := argMap[fs[n].name := n];
      } else {
        AddedEllipsis(fs, n, argMap, ellipsisPos);
        if ellipsisPos != -1 {
          return false, argMap, ellipsisPos;
        }
        ellipsisPos := n;
      }
    }
    assert fs[..|fs|] == fs;
  }

  /** The positions from `k` on that are not used. */
  function Free(used: seq<bool>, k: nat): (r: seq<nat>)
    ensures forall i :: 0 <= i < |r| ==> k <= r[i] < |used| && !used[r[i]]
    decreases |used| - k
  {
    if k >= |used| then [] else (if used[k] then [] else [k]) + Free(used, k + 1)
  }

  /** The next position that is not used, or -1. */
  method GetUnused(idx0: int, used: seq<bool>) returns (idx: int)
    requires -1 <= idx0 < |used|
    ensures var r := FreeAfter(used, idx0); if r == [] then idx == -1 else idx == r[0]
  {
    hide Free;
    FreeUnfold(used, (idx0 + 1) as nat);
    if idx0 + 1 == |used| {
      return -1;
    }
    idx := idx0 + 1;
    while used[idx]
      invariant 0 <= idx < |used| && FreeAfter(used, idx0) == Free(used, idx)
      decreases |used| - idx
    {
      FreeUnfold(used, idx);
      if idx + 1 == |used| {
        FreeUnfold(used, idx + 1);
        return -1;
      }
      idx := idx + 1;
    }
    FreeUnfold(used, idx);
  }

  function FreeAfter(used: seq<bool>, idx: int): seq<nat>
    requires -1 <= idx
  {
    Free(used, idx + 1)
  }

  lemma FreeFromStart(used: seq<bool>)
    ensures FreeAfter(used, -1) == Free(used, 0)
  {}

  lemma FreeUnfold(used: seq<bool>, k: nat)
    ensures k >= |used| ==> Free(used, k) == []
    ensures k < |used| ==> Free(used, k) == (if used[k] then [] else [k]) + Free(used, k + 1)
    ensures k < |used| && used[k] ==> Free(used, k) == Free(used, k + 1)
  {}

  lemma {:induction false} FreeNext(used: seq<bool>, k: nat, i: nat)
    requires i < |Free(used, k)|
    ensures FreeAfter(used, Free(used, k)[i]) == Free(used, k)[i + 1..]
    decreases |used| - k
  {
    if used[k] {
      FreeNext(used, k + 1, i);
    } else if i == 0 {
      assert Free(used, k)[1..] == Free(used, k + 1);
    } else {
      FreeNext(used, k + 1, i - 1);
      assert Free(used, k)[i] == Free(used, k + 1)[i - 1] && Free(used, k)[i + 1..] == Free(used, k + 1)[i..];
    }
  }

  // ----- What the matching should be -----

  /** The actual names the formal. */
  predicate Tags<T>(f: Formal<T>, a: Actual<T>) {
    a.Tagged? && a.tag != "" && !f.Ellipsis? && f.name == a.tag
  }

  /** Which formals are named by an actual. */
  function NamedFormals<T>(fs: seq<Formal<T>>, acts: seq<Actual<T>>): (r: seq<bool>)
    ensures |r| == |fs|
  {
    seq(|fs|, i requires 0 <= i < |fs| => exists j :: 0 <= j < |acts| && Tags(fs[i], acts[j]))
  }

  /** Which actuals name a formal. */
  function NamingActuals<T>(fs: seq<Formal<T>>, acts: seq<Actual<T>>): (r: seq<bool>)
    ensures |r| == |acts|
  {
    seq(|acts|, j requires 0 <= j < |acts| => exists i :: 0 <= i < |fs| && Tags(fs[i], acts[j]))
  }

  predicate NamedTwice<T>(fs: seq<Formal<T>>, acts: seq<Actual<T>>) {
    exists i, j, k :: 0 <= i < |fs| && 0 <= j < k < |acts| && Tags(fs[i], acts[j]) && Tags(fs[i], acts[k])
  }

  /** The actuals at some positions. */
  function At<T>(acts: seq<Actual<T>>, g: seq<nat>): (r: seq<Actual<T>>)
    requires forall k :: 0 <= k < |g| ==> g[k] < |acts|
    ensures |r| == |g|
  {
    seq(|g|, k requires 0 <= k < |g| => acts[g[k]])
  }

  /** The actuals that name no formal, in call order. */
  function Rest<T>(fs: seq<Formal<T>>, acts: seq<Actual<T>>): seq<Actual<T>> {
    At(acts, Free(NamingActuals(fs, acts), 0))
  }

  function Plains<T>(r: seq<Actual<T>>): seq<Actual<T>> {
    if r == [] then [] else (if r[0].Plain? then [r[0]] else []) + Plains(r[1..])
  }

  /** What remains without the first `m` plain ones. */
  function Others<T>(r: seq<Actual<T>>, m: nat): seq<Actual<T>> {
    if r == [] then []
    else if r[0].Plain? && m != 0 then Others(r[1..], m - 1)
    else [r[0]] + Others(r[1..], m)
  }

  /** The formals that no actual names, in order; the ellipsis is always among them. */
  function OpenFormals<T>(fs: seq<Formal<T>>, acts: seq<Actual<T>>): seq<nat> {
    Free(NamedFormals(fs, acts), 0)
  }

  /** How many of them positions can reach: those before the ellipsis, or all. */
  function Reach<T>(fs: seq<Formal<T>>, u: seq<nat>): (m: nat)
    requires forall k :: 0 <= k < |u| ==> u[k] < |fs|
    ensures m <= |u| && (forall k :: 0 <= k < m ==> !fs[u[k]].Ellipsis?) && (m < |u| ==> fs[u[m]].Ellipsis?)
  {
    if u == [] || fs[u[0]].Ellipsis? then 0 else 1 + Reach(fs, u[1..])
  }

  function NamedInfo<T>(a: Actual<T>): ArgInfo<T>
    requires a.Tagged?
  {
    ArgInfo(a.tag, a.e, false, false, a.ref)
  }

  function PlacedInfo<T>(f: Formal<T>, a: Actual<T>): ArgInfo<T>
    requires !f.Ellipsis?
  {
    ArgInfo(f.name, a.e, false, false, a.ref)
  }

  function DefaultInfo<T>(f: Formal<T>): ArgInfo<T>
    requires f.Default?
  {
    ArgInfo(f.name, f.e, true, false, false)
  }

  function DotsInfo<T>(a: Actual<T>): ArgInfo<T> {
    ArgInfo(if a.Tagged? then a.tag else "", a.e, false, true, a.ref)
  }

  /** The place of a formal among the results, which leave the ellipsis out. */
  function Slot(i: nat, e: int): (k: nat)
    requires i != e
  {
    if 0 <= e < i then i - 1 else i
  }

  function Slots(n: nat, e: int): nat
    requires e < n
  {
    if e >= 0 then n - 1 else n
  }

  /** The named arguments are in their places. */
  ghost predicate NamedPlaced<T>(fs: seq<Formal<T>>, acts: seq<Actual<T>>, e: int, slots: seq<Option<ArgInfo<T>>>)
    requires IsEllipsisPos(fs, e)
  {
    && |slots| == Slots(|fs|, e)
    && forall i, j :: 0 <= i < |fs| && 0 <= j < |acts| && Tags(fs[i], acts[j]) ==>
         Slot(i, e) < |slots| && slots[Slot(i, e)] == Some(NamedInfo(acts[j]))
  }

  /** What the first step leaves behind after the actuals `acts`. */
  ghost predicate Extracted<T>(fs: seq<Formal<T>>, acts: seq<Actual<T>>, e: int, uf: seq<bool>, ug: seq<bool>,
                               slots: seq<Option<ArgInfo<T>>>)
    requires IsEllipsisPos(fs, e)
  {
    && uf == NamedFormals(fs, acts) && ug == NamingActuals(fs, acts)
    && NamedPlaced(fs, acts, e, slots) && !NamedTwice(fs, acts)
  }

  lemma NothingExtracted<T>(fs: seq<Formal<T>>, e: int)
    requires IsEllipsisPos(fs, e)
    ensures Extracted(fs, [], e, seq(|fs|, _ => false), [], seq(Slots(|fs|, e), _ => None))
  {}

  /** One more actual, which names no formal. */
  lemma ExtractSkip<T>(fs: seq<Formal<T>>, acts: seq<Actual<T>>, e: int, uf: seq<bool>, ug: seq<bool>,
                       slots: seq<Option<ArgInfo<T>>>, a: Actual<T>)
    requires IsEllipsisPos(fs, e) && Extracted(fs, acts, e, uf, ug, slots)
    requires forall i :: 0 <= i < |fs| ==> !Tags(fs[i], a)
    ensures Extracted(fs, acts + [a], e, uf, ug + [false], slots)
  {
    var more := acts + [a];
    forall i | 0 <= i < |fs| ensures NamedFormals(fs, more)[i] == NamedFormals(fs, acts)[i] {
      if j :| 0 <= j < |more| && Tags(fs[i], more[j]) { assert Tags(fs[i], acts[j]); }
      if j :| 0 <= j < |acts| && Tags(fs[i], acts[j]) { assert Tags(fs[i], more[j]); }
    }
    assert NamedFormals(fs, more) == uf;
    assert NamingActuals(fs, more) == ug + [false];
  }

  /** One more actual, which names formal `i` for the first time. */
  lemma ExtractTag<T>(fs: seq<Formal<T>>, acts: seq<Actual<T>>, e: int, uf: seq<bool>, ug: seq<bool>,
                      slots: seq<Option<ArgInfo<T>>>, a: Actual<T>, i: nat)
    requires WellFormed(fs) && IsEllipsisPos(fs, e) && Extracted(fs, acts, e, uf, ug, slots)
    requires i < |fs| && Tags(fs[i], a) && !uf[i]
    ensures i != e && Slot(i, e) < |slots|
    ensures Extracted(fs, acts + [a], e, uf[i := true], ug + [true], slots[Slot(i, e) := Some(NamedInfo(a))])
  {
    var more, s := acts + [a], slots[Slot(i, e) := Some(NamedInfo(a))];
    OnlyOneTagged(fs, a, i);
    forall k | 0 <= k < |fs| ensures NamedFormals(fs, more)[k] == uf[i := true][k] {
      if j :| 0 <= j < |acts| && Tags(fs[k], acts[j]) { assert Tags(fs[k], more[j]); }
      if k == i { assert Tags(fs[k], more[|acts|]); }
    }
    forall j | 0 <= j < |more| ensures NamingActuals(fs, more)[j] == (ug + [true])[j] {
      if j < |acts| { assert more[j] == acts[j]; }
    }
    forall k, j | 0 <= k < |fs| && 0 <= j < |more| && Tags(fs[k], more[j])
      ensures Slot(k, e) < |s| && s[Slot(k, e)] == Some(NamedInfo(more[j]))
    {
      if j < |acts| {
        assert Tags(fs[k], acts[j]);
        assert k != i;
      }
    }
    forall k, j, l | 0 <= k < |fs| && 0 <= j < l < |more| ensures !(Tags(fs[k], more[j]) && Tags(fs[k], more[l])) {
      if l == |acts| {
        assert !NamedFormals(fs, acts)[i];
      }
    }
  }

  lemma OnlyOneTagged<T>(fs: seq<Formal<T>>, a: Actual<T>, i: nat)
    requires WellFormed(fs) && i < |fs| && Tags(fs[i], a)
    ensures forall k :: 0 <= k < |fs| && k != i ==> !Tags(fs[k], a)
  {
    forall k | 0 <= k < |fs| && k != i ensures !Tags(fs[k], a) {
      var x, y := if k < i then k else i, if k < i then i else k;
      assert if fs[x].Ellipsis? then !fs[y].Ellipsis? else fs[y].Ellipsis? || fs[x].name != fs[y].name;
    }
  }

  lemma TwiceNamed<T>(fs: seq<Formal<T>>, acts: seq<Actual<T>>, n: nat, uf: seq<bool>, i: nat)
    requires n < |acts| && uf == NamedFormals(fs, acts[..n]) && i < |fs| && Tags(fs[i], acts[n]) && uf[i]
    ensures NamedTwice(fs, acts)
  {
    var j :| 0 <= j < n && Tags(fs[i], acts[..n][j]);
    assert Tags(fs[i], acts[j]) && Tags(fs[i], acts[n]);
  }

  /** Takes the actuals whose tag is the name of a formal. */
  method ExtractNamed<T>(fs: seq<Formal<T>>, acts: seq<Actual<T>>, argMap: map<string, nat>, e: int)
    returns (ok: bool, uf: seq<bool>, ug: seq<bool>, slots: seq<Option<ArgInfo<T>>>)
    requires WellFormed(fs) && IsArgMap(fs, argMap) && IsEllipsisPos(fs, e)
    ensures ok <==> !NamedTwice(fs, acts)
    ensures ok ==> Extracted(fs, acts, e, uf, ug, slots)
  {
    uf, ug, slots := seq(|fs|, _ => false), [], seq(Slots(|fs|, e), _ => None);
    NothingExtracted(fs, e);
    assert acts[..0] == [];
    hide NamedTwice;
    for n := 0 to |acts|
      invariant Extracted(fs, acts[..n], e, uf, ug, slots)
    {
      assert acts[..n + 1] == acts[..n] + [acts[n]];
      var a := acts[n];
      if a.Tagged? && a.tag != "" && a.tag in argMap {
        var i := argMap[a.tag];
        assert Tags(fs[i], a);
        if uf[i] {
          TwiceNamed(fs, acts, n, uf, i);
          return false, uf, ug, slots;
        }
        ExtractTag(fs, acts[..n], e, uf, ug, slots, a, i);
        uf, ug := uf[i := true], ug + [true];
        slots := slots[Slot(i, e) := Some(NamedInfo(a))];
      } else {
        ExtractSkip(fs, acts[..n], e, uf, ug, slots, a);
        ug := ug + [false];
      }
    }
    assert acts[..|acts|] == acts;
    ok := true;
  }

  // ----- Positions -----

  lemma {:induction false} PlainsSnoc<T>(r: seq<Actual<T>>, x: Actual<T>)
    ensures Plains(r + [x]) == Plains(r) + (if x.Plain? then [x] else [])
  {
    if r == [] {
      assert [] + [x] == [x] && [x][1..] == [];
    } else {
      PlainsSnoc(r[1..], x);
      assert (r + [x])[1..] == r[1..] + [x];
    }
  }

  lemma {:induction false} OthersSnoc<T>(r: seq<Actual<T>>, x: Actual<T>, m: nat)
    ensures Others(r + [x], m) == Others(r, m) + (if x.Plain? && |Plains(r)| < m then [] else [x])
  {
    if r == [] {
      assert [] + [x] == [x] && [x][1..] == [];
    } else {
      OthersSnoc(r[1..], x, if r[0].Plain? && m != 0 then m - 1 else m);
      assert (r + [x])[1..] == r[1..] + [x];
    }
  }

  lemma {:induction false} PlainsPrefix<T>(r: seq<Actual<T>>, b: nat)
    requires b <= |r|
    ensures Plains(r[..b]) <= Plains(r)
    decreases |r| - b
  {
    if b == |r| {
      assert r[..b] == r;
    } else {
      PlainsPrefix(r, b + 1);
      assert r[..b + 1] == r[..b] + [r[b]];
      PlainsSnoc(r[..b], r[b]);
    }
  }

  lemma {:induction false} FreeSorted(used: seq<bool>, k: nat)
    ensures forall i, j :: 0 <= i < j < |Free(used, k)| ==> Free(used, k)[i] < Free(used, k)[j]
    ensures forall i :: k <= i < |used| && !used[i] ==> i in Free(used, k)
    decreases |used| - k
  {
    if k < |used| {
      FreeSorted(used, k + 1);
    }
  }

  /** The ellipsis is the first open formal that positions cannot go past; without one they reach all. */
  lemma ReachOf<T>(fs: seq<Formal<T>>, u: seq<nat>, e: int)
    requires WellFormed(fs) && IsEllipsisPos(fs, e) && forall k :: 0 <= k < |u| ==> u[k] < |fs|
    requires (forall j, k :: 0 <= j < k < |u| ==> u[j] < u[k]) && (e >= 0 ==> e in u)
    ensures var m := Reach(fs, u);
            && (if e < 0 then m == |u| else m < |u| && u[m] == e)
            && (forall k :: 0 <= k < m ==> u[k] != e && Slot(u[k], e) == u[k])
            && (forall k :: m < k < |u| ==> !fs[u[k]].Ellipsis?)
  {
    var m := Reach(fs, u);
    hide WellFormed, Reach;
    if e >= 0 {
      var k :| 0 <= k < |u| && u[k] == e;
      assert m <= k;
      OnlyEllipsis(fs, e, u[m]);
      forall k | m < k < |u| ensures !fs[u[k]].Ellipsis? {
        NoOtherEllipsis(fs, e, u[k]);
      }
    }
  }

  lemma ReachIs<T>(fs: seq<Formal<T>>, acts: seq<Actual<T>>, e: int)
    requires WellFormed(fs) && IsEllipsisPos(fs, e)
    ensures var u := OpenFormals(fs, acts); var m := Reach(fs, u);
            && (if e < 0 then m == |u| else m < |u| && u[m] == e)
            && (forall k :: 0 <= k < m ==> u[k] != e && Slot(u[k], e) == u[k])
            && (forall k :: m < k < |u| ==> !fs[u[k]].Ellipsis?)
  {
    FreeSorted(NamedFormals(fs, acts), 0);
    assert e >= 0 ==> !NamedFormals(fs, acts)[e];
    hide NamedFormals, Free, WellFormed, Reach, Slot;
    ReachOf(fs, OpenFormals(fs, acts), e);
  }

  lemma OnlyEllipsis<T>(fs: seq<Formal<T>>, i: nat, j: nat)
    requires WellFormed(fs) && i < |fs| && j < |fs| && fs[i].Ellipsis? && fs[j].Ellipsis?
    ensures i == j
  {
  }

  lemma NoOtherEllipsis<T>(fs: seq<Formal<T>>, i: nat, j: nat)
    requires WellFormed(fs) && i < |fs| && j < |fs| && fs[i].Ellipsis? && j != i
    ensures !fs[j].Ellipsis?
  {
  }

  // ----- The steps by position and by default -----

  function DotsOf<T>(r: seq<Actual<T>>): (d: seq<ArgInfo<T>>)
    ensures |d| == |r|
  {
    seq(|r|, k requires 0 <= k < |r| => DotsInfo(r[k]))
  }

  /** The first `a` open formals hold plain arguments, the named ones their own. */
  ghost predicate Placed<T>(fs: seq<Formal<T>>, acts: seq<Actual<T>>, e: int, slots: seq<Option<ArgInfo<T>>>, p: seq<Actual<T>>, a: nat)
    requires WellFormed(fs) && IsEllipsisPos(fs, e)
  {
    var u := OpenFormals(fs, acts);
    && NamedPlaced(fs, acts, e, slots)
    && a <= |p| && a <= Reach(fs, u)
    && forall k :: 0 <= k < a ==> u[k] < |slots| && slots[u[k]] == Some(PlacedInfo(fs[u[k]], p[k]))
  }

  /** An open formal before the ellipsis: its place is its position, and no tag has taken it. */
  lemma OpenFacts<T>(fs: seq<Formal<T>>, acts: seq<Actual<T>>, e: int, a: nat)
    requires WellFormed(fs) && IsEllipsisPos(fs, e) && a < Reach(fs, OpenFormals(fs, acts))
    ensures var u := OpenFormals(fs, acts);
            && u[a] != e && Slot(u[a], e) == u[a] && u[a] < Slots(|fs|, e) && !NamedFormals(fs, acts)[u[a]]
            && (forall j, k :: 0 <= j < k < |u| ==> u[j] < u[k])
            && (forall k :: 0 <= k <= a ==> u[k] < |fs| && !fs[u[k]].Ellipsis?)
  {
    ReachIs(fs, acts, e);
    FreeSorted(NamedFormals(fs, acts), 0);
    SlotInRange(fs, e, OpenFormals(fs, acts)[a]);
  }

  /** The tags leave the open formals alone. */
  lemma PlaceOne<T>(fs: seq<Formal<T>>, acts: seq<Actual<T>>, e: int, slots: seq<Option<ArgInfo<T>>>, p: seq<Actual<T>>, a: nat, x: Actual<T>)
    requires WellFormed(fs) && IsEllipsisPos(fs, e) && Placed(fs, acts, e, slots, p, a)
    requires a == |p| < Reach(fs, OpenFormals(fs, acts))
    ensures var i := OpenFormals(fs, acts)[a];
            i < |slots| && Placed(fs, acts, e, slots[i := Some(PlacedInfo(fs[i], x))], p + [x], a + 1)
  {
    var u := OpenFormals(fs, acts);
    var i := u[a];
    assert |slots| == Slots(|fs|, e) && NamedPlaced(fs, acts, e, slots);
    hide NamedPlaced, NamedFormals, OpenFormals, Free, WellFormed, Slots, Slot, PlacedInfo, Reach;
    OpenFacts(fs, acts, e, a);
    NamedStay(fs, acts, e, slots, i, Some(PlacedInfo(fs[i], x)));
    PlaceHere(fs, u, slots, p, a, x);
  }

  lemma PlaceHere<T>(fs: seq<Formal<T>>, u: seq<nat>, slots: seq<Option<ArgInfo<T>>>, p: seq<Actual<T>>, a: nat, x: Actual<T>)
    requires a == |p| < |u| && u[a] < |slots|
    requires forall k :: 0 <= k <= a ==> u[k] < |fs| && !fs[u[k]].Ellipsis?
    requires forall j, k :: 0 <= j < k < |u| ==> u[j] < u[k]
    requires forall k :: 0 <= k < a ==> u[k] < |slots| && slots[u[k]] == Some(PlacedInfo(fs[u[k]], p[k]))
    ensures forall k :: 0 <= k < a + 1 ==> slots[u[a] := Some(PlacedInfo(fs[u[a]], x))][u[k]] == Some(PlacedInfo(fs[u[k]], (p + [x])[k]))
  {}

  /** Filling the place of an open formal leaves the named arguments where they are. */
  lemma NamedStay<T>(fs: seq<Formal<T>>, acts: seq<Actual<T>>, e: int, slots: seq<Option<ArgInfo<T>>>, i: nat, x: Option<ArgInfo<T>>)
    requires IsEllipsisPos(fs, e) && NamedPlaced(fs, acts, e, slots)
    requires i < |fs| && i != e && Slot(i, e) < |slots| && !NamedFormals(fs, acts)[i]
    ensures NamedPlaced(fs, acts, e, slots[Slot(i, e) := x])
  {
    var s := slots[Slot(i, e) := x];
    forall k, j | 0 <= k < |fs| && 0 <= j < |acts| && Tags(fs[k], acts[j])
      ensures Slot(k, e) < |s| && s[Slot(k, e)] == Some(NamedInfo(acts[j]))
    {
      assert NamedFormals(fs, acts)[k];
      SlotInjective(e, k, i);
    }
  }

  lemma SlotInRange<T>(fs: seq<Formal<T>>, e: int, i: nat)
    requires IsEllipsisPos(fs, e) && i < |fs| && i != e
    ensures Slot(i, e) < Slots(|fs|, e)
  {}

  lemma SlotInjective(e: int, i: nat, j: nat)
    requires i != e && j != e && i != j
    ensures Slot(i, e) != Slot(j, e)
  {}

  /** An actual that nothing can take: a tag, or a plain one too many, without an ellipsis. */
  ghost predicate LeftOver<T>(fs: seq<Formal<T>>, acts: seq<Actual<T>>) {
    var u, r := OpenFormals(fs, acts), Rest(fs, acts);
    Reach(fs, u) == |u| && ((exists k :: 0 <= k < |r| && r[k].Tagged?) || |Plains(r)| > |u|)
  }

  /** What the second step has done with the first `b` actuals of the rest. */
  ghost predicate Stepped<T>(fs: seq<Formal<T>>, acts: seq<Actual<T>>, e: int, slots: seq<Option<ArgInfo<T>>>,
                             dots: seq<ArgInfo<T>>, a: nat, b: nat)
    requires WellFormed(fs) && IsEllipsisPos(fs, e)
  {
    var u, r := OpenFormals(fs, acts), Rest(fs, acts);
    var m := Reach(fs, u);
    && b <= |r| && a <= |Plains(r[..b])| && a <= m && (a < m ==> a == |Plains(r[..b])|)
    && Placed(fs, acts, e, slots, Plains(r[..b])[..a], a)
    && dots == DotsOf(Others(r[..b], m))
    && (e < 0 ==> a == |Plains(r[..b])| && forall k :: 0 <= k < b ==> r[k].Plain?)
  }

  lemma SteppedStart<T>(fs: seq<Formal<T>>, acts: seq<Actual<T>>, e: int, slots: seq<Option<ArgInfo<T>>>)
    requires WellFormed(fs) && IsEllipsisPos(fs, e) && NamedPlaced(fs, acts, e, slots)
    ensures Stepped(fs, acts, e, slots, [], 0, 0)
  {
    var r := Rest(fs, acts);
    assert r[..0] == [];
    assert Plains<T>([]) == [] && Others<T>([], Reach(fs, OpenFormals(fs, acts))) == [];
  }

  /** The next actual of the rest goes to the open formal `a`. */
  lemma StepPlace<T>(fs: seq<Formal<T>>, acts: seq<Actual<T>>, e: int, slots: seq<Option<ArgInfo<T>>>, dots: seq<ArgInfo<T>>, a: nat, b: nat)
    requires WellFormed(fs) && IsEllipsisPos(fs, e) && Stepped(fs, acts, e, slots, dots, a, b)
    requires b < |Rest(fs, acts)| && a < Reach(fs, OpenFormals(fs, acts)) && Rest(fs, acts)[b].Plain?
    ensures var i := OpenFormals(fs, acts)[a];
            i < |slots| && Stepped(fs, acts, e, slots[i := Some(PlacedInfo(fs[i], Rest(fs, acts)[b]))], dots, a + 1, b + 1)
  {
    var r, m := Rest(fs, acts), Reach(fs, OpenFormals(fs, acts));
    assert r[..b + 1] == r[..b] + [r[b]];
    PlainsSnoc(r[..b], r[b]);
    OthersSnoc(r[..b], r[b], m);
    var p := Plains(r[..b]);
    assert p[..a] == p;
    PlaceOne(fs, acts, e, slots, p, a, r[b]);
    assert Plains(r[..b + 1])[..a + 1] == p + [r[b]];
    assert Others(r[..b + 1], m) == Others(r[..b], m);
  }

  /** The next actual of the rest goes into the ellipsis. */
  lemma StepDots<T>(fs: seq<Formal<T>>, acts: seq<Actual<T>>, e: int, slots: seq<Option<ArgInfo<T>>>, dots: seq<ArgInfo<T>>, a: nat, b: nat)
    requires WellFormed(fs) && IsEllipsisPos(fs, e) && Stepped(fs, acts, e, slots, dots, a, b) && e >= 0
    requires b < |Rest(fs, acts)| && (Rest(fs, acts)[b].Plain? ==> a == Reach(fs, OpenFormals(fs, acts)))
    ensures Stepped(fs, acts, e, slots, dots + [DotsInfo(Rest(fs, acts)[b])], a, b + 1)
  {
    var r, m := Rest(fs, acts), Reach(fs, OpenFormals(fs, acts));
    assert r[..b + 1] == r[..b] + [r[b]];
    PlainsSnoc(r[..b], r[b]);
    OthersSnoc(r[..b], r[b], m);
    assert Plains(r[..b + 1])[..a] == Plains(r[..b])[..a];
    assert DotsOf(Others(r[..b], m) + [r[b]]) == DotsOf(Others(r[..b], m)) + [DotsInfo(r[b])];
  }

  /** When no open formal is left for the next actual, or it has a tag and there is no ellipsis, it is left over. */
  lemma StepRefused<T>(fs: seq<Formal<T>>, acts: seq<Actual<T>>, e: int, slots: seq<Option<ArgInfo<T>>>, dots: seq<ArgInfo<T>>, a: nat, b: nat)
    requires WellFormed(fs) && IsEllipsisPos(fs, e) && Stepped(fs, acts, e, slots, dots, a, b) && e < 0
    requires b < |Rest(fs, acts)| && (Rest(fs, acts)[b].Tagged? || a == |OpenFormals(fs, acts)|)
    ensures LeftOver(fs, acts)
  {
    var r := Rest(fs, acts);
    ReachIs(fs, acts, e);
    if r[b].Plain? {
      assert r[..b + 1] == r[..b] + [r[b]];
      PlainsSnoc(r[..b], r[b]);
      PlainsPrefix(r, b + 1);
    }
  }

  lemma StepsDone<T>(fs: seq<Formal<T>>, acts: seq<Actual<T>>, e: int, slots: seq<Option<ArgInfo<T>>>, dots: seq<ArgInfo<T>>, a: nat)
    requires WellFormed(fs) && IsEllipsisPos(fs, e) && Stepped(fs, acts, e, slots, dots, a, |Rest(fs, acts)|)
    ensures !LeftOver(fs, acts)
    ensures var u, r := OpenFormals(fs, acts), Rest(fs, acts); var m := Reach(fs, u);
            && a == (if |Plains(r)| < m then |Plains(r)| else m)
            && Placed(fs, acts, e, slots, Plains(r)[..a], a) && dots == DotsOf(Others(r, m))
  {
    var r := Rest(fs, acts);
    ReachIs(fs, acts, e);
    assert r[..|r|] == r;
  }

  /** One actual of the rest: to the open formal at hand, or into the ellipsis, or refused. */
  method PlaceActual<T>(fs: seq<Formal<T>>, acts: seq<Actual<T>>, e: int, act: Actual<T>, fidx: nat,
                        slots0: seq<Option<ArgInfo<T>>>, dots0: seq<ArgInfo<T>>, ghost a: nat, ghost b: nat)
    returns (ok: bool, slots: seq<Option<ArgInfo<T>>>, dots: seq<ArgInfo<T>>, taken: bool)
    requires WellFormed(fs) && IsEllipsisPos(fs, e) && Stepped(fs, acts, e, slots0, dots0, a, b)
    requires b < |Rest(fs, acts)| && act == Rest(fs, acts)[b]
    requires a < |OpenFormals(fs, acts)| && fidx == OpenFormals(fs, acts)[a]
    ensures !ok ==> LeftOver(fs, acts)
    ensures ok ==> Stepped(fs, acts, e, slots, dots, if taken then a + 1 else a, b + 1)
  {
    ReachIs(fs, acts, e);
    SteppedBound(fs, acts, e, slots0, dots0, a, b);
    hide Stepped, LeftOver, WellFormed, Rest;
    ok, slots, dots, taken := true, slots0, dots0, false;
    if act.Tagged? {
      if e == -1 {
        StepRefused(fs, acts, e, slots, dots, a, b);
        return false, slots, dots, taken;
      }
      StepDots(fs, acts, e, slots, dots, a, b);
      dots := dots + [ArgInfo(act.tag, act.e, false, true, act.ref)];
    } else if fs[fidx].Ellipsis? {
      StepDots(fs, acts, e, slots, dots, a, b);
      dots := dots + [ArgInfo("", act.e, false, true, act.ref)];
    } else {
      StepPlace(fs, acts, e, slots, dots, a, b);
      slots := slots[fidx := Some(ArgInfo(fs[fidx].name, act.e, false, false, act.ref))];
      taken := true;
    }
  }

  lemma SteppedBound<T>(fs: seq<Formal<T>>, acts: seq<Actual<T>>, e: int, slots: seq<Option<ArgInfo<T>>>, dots: seq<ArgInfo<T>>, a: nat, b: nat)
    requires WellFormed(fs) && IsEllipsisPos(fs, e) && Stepped(fs, acts, e, slots, dots, a, b)
    ensures a <= Reach(fs, OpenFormals(fs, acts)) && b <= |Rest(fs, acts)|
    ensures NamedPlaced(fs, acts, e, slots)
  {}

  /** The cursors' lists are the ones of the specification. */
  lemma Lists<T>(fs: seq<Formal<T>>, acts: seq<Actual<T>>, e: int, uf: seq<bool>, ug: seq<bool>, slots: seq<Option<ArgInfo<T>>>)
    requires WellFormed(fs) && IsEllipsisPos(fs, e) && Extracted(fs, acts, e, uf, ug, slots)
    ensures Free(uf, 0) == OpenFormals(fs, acts) && |uf| == |fs| && |ug| == |acts|
    ensures |Free(ug, 0)| == |Rest(fs, acts)|
    ensures forall k :: 0 <= k < |Free(ug, 0)| ==> Rest(fs, acts)[k] == acts[Free(ug, 0)[k]]
    ensures NamedPlaced(fs, acts, e, slots)
  {}

  /** Goes through the rest until it, or the open formals, are exhausted. */
  method PlaceAll<T>(fs: seq<Formal<T>>, acts: seq<Actual<T>>, e: int, uf: seq<bool>, ug: seq<bool>, slots0: seq<Option<ArgInfo<T>>>)
    returns (ok: bool, slots: seq<Option<ArgInfo<T>>>, dots: seq<ArgInfo<T>>, fidx: int, gidx: int, ghost a: nat, ghost b: nat)
    requires WellFormed(fs) && IsEllipsisPos(fs, e)
    requires Free(uf, 0) == OpenFormals(fs, acts) && |uf| == |fs| && |ug| == |acts| && |Free(ug, 0)| == |Rest(fs, acts)|
    requires forall k :: 0 <= k < |Free(ug, 0)| ==> Rest(fs, acts)[k] == acts[Free(ug, 0)[k]]
    requires Stepped(fs, acts, e, slots0, [], 0, 0)
    ensures !ok ==> LeftOver(fs, acts)
    ensures ok ==> Stepped(fs, acts, e, slots, dots, a, b) && (fidx < 0 || gidx < 0)
    ensures ok ==> a <= |OpenFormals(fs, acts)| && b <= |Rest(fs, acts)|
    ensures ok ==> fidx == (if a < |OpenFormals(fs, acts)| then OpenFormals(fs, acts)[a] else -1)
    ensures ok ==> (gidx >= 0 <==> b < |Rest(fs, acts)|)
  {
    hide *;
    slots, dots, a, b := slots0, [], 0, 0;
    ghost var u, g := Free(uf, 0), Free(ug, 0);
    FreeFromStart(uf);
    FreeFromStart(ug);
    fidx := GetUnused(-1, uf);
    gidx := GetUnused(-1, ug);
    while fidx >= 0 && gidx >= 0
      invariant b <= |g| && a <= |u| && Stepped(fs, acts, e, slots, dots, a, b)
      invariant fidx == if a < |u| then u[a] else -1
      invariant gidx == if b < |g| then g[b] else -1
      decreases |g| - b
    {
      var taken;
      ok, slots, dots, taken := PlaceActual(fs, acts, e, acts[gidx], fidx, slots, dots, a, b);
      if !ok {
        return;
      }
      if taken {
        FreeNext(uf, 0, a);
        fidx := GetUnused(fidx, uf);
        a := a + 1;
      }
      FreeNext(ug, 0, b);
      gidx := GetUnused(gidx, ug);
      b := b + 1;
    }
    ok := true;
  }

  /** Gives the open formals before the ellipsis the plain actuals in order, and the rest to the ellipsis. */
  method MatchPositions<T>(fs: seq<Formal<T>>, acts: seq<Actual<T>>, e: int, uf: seq<bool>, ug: seq<bool>, slots0: seq<Option<ArgInfo<T>>>)
    returns (ok: bool, slots: seq<Option<ArgInfo<T>>>, dots: seq<ArgInfo<T>>, fidx: int, ghost a: nat)
    requires WellFormed(fs) && IsEllipsisPos(fs, e) && Extracted(fs, acts, e, uf, ug, slots0)
    ensures ok <==> !LeftOver(fs, acts)
    ensures ok ==> Stepped(fs, acts, e, slots, dots, a, |Rest(fs, acts)|)
    ensures ok ==> fidx == if a < |OpenFormals(fs, acts)| then OpenFormals(fs, acts)[a] else -1
  {
    hide *;
    Lists(fs, acts, e, uf, ug, slots0);
    SteppedStart(fs, acts, e, slots0);
    var gidx;
    ghost var b;
    ok, slots, dots, fidx, gidx, a, b := PlaceAll(fs, acts, e, uf, ug, slots0);
    if !ok {
      return;
    }
    if gidx >= 0 {
      SteppedBound(fs, acts, e, slots, dots, a, b);
      Exhausted(fs, acts, e, a);
      StepRefused(fs, acts, e, slots, dots, a, b);
      ok := false;
      return;
    }
    StepsDone(fs, acts, e, slots, dots, a);
  }

  lemma Exhausted<T>(fs: seq<Formal<T>>, acts: seq<Actual<T>>, e: int, a: nat)
    requires WellFormed(fs) && IsEllipsisPos(fs, e) && a == |OpenFormals(fs, acts)| && a <= Reach(fs, OpenFormals(fs, acts))
    ensures e < 0
  {
    ReachIs(fs, acts, e);
  }

  /** A formal that nothing is given for and that has no default. */
  ghost predicate Missing<T>(fs: seq<Formal<T>>, acts: seq<Actual<T>>) {
    var u, p := OpenFormals(fs, acts), Plains(Rest(fs, acts));
    exists k :: 0 <= k < |u| && !(k < Reach(fs, u) && k < |p|) && fs[u[k]].Symbol?
  }

  /** The open formals from `a` to before `k` hold their defaults, on top of what the steps before have placed. */
  ghost predicate Defaulted<T>(fs: seq<Formal<T>>, acts: seq<Actual<T>>, e: int, slots: seq<Option<ArgInfo<T>>>, p: seq<Actual<T>>, a: nat, k: nat)
    requires WellFormed(fs) && IsEllipsisPos(fs, e)
  {
    var u := OpenFormals(fs, acts);
    && Placed(fs, acts, e, slots, p, a) && a <= k <= |u|
    && forall j :: a <= j < k && !fs[u[j]].Ellipsis? ==>
         u[j] != e && Slot(u[j], e) < |slots| && fs[u[j]].Default? && slots[Slot(u[j], e)] == Some(DefaultInfo(fs[u[j]]))
  }

  lemma DefaultOne<T>(fs: seq<Formal<T>>, acts: seq<Actual<T>>, e: int, slots: seq<Option<ArgInfo<T>>>, p: seq<Actual<T>>, a: nat, k: nat)
    requires WellFormed(fs) && IsEllipsisPos(fs, e) && Defaulted(fs, acts, e, slots, p, a, k)
    requires k < |OpenFormals(fs, acts)| && fs[OpenFormals(fs, acts)[k]].Default?
    ensures var i := OpenFormals(fs, acts)[k];
            i != e && Slot(i, e) < |slots| && Defaulted(fs, acts, e, slots[Slot(i, e) := Some(DefaultInfo(fs[i]))], p, a, k + 1)
  {
    var u := OpenFormals(fs, acts);
    var i := u[k];
    ReachIs(fs, acts, e);
    FreeSorted(NamedFormals(fs, acts), 0);
    SlotInRange(fs, e, i);
    var s := slots[Slot(i, e) := Some(DefaultInfo(fs[i]))];
    NamedStay(fs, acts, e, slots, i, Some(DefaultInfo(fs[i])));
    forall j | 0 <= j < k && u[j] != e ensures Slot(u[j], e) != Slot(i, e) {
      SlotInjective(e, u[j], i);
    }
    forall j | 0 <= j < a ensures u[j] < |s| && s[u[j]] == slots[u[j]] {
      assert Slot(u[j], e) == u[j];
    }
  }

  /** Every place is filled once all open formals are. */
  lemma AllFilled<T>(fs: seq<Formal<T>>, acts: seq<Actual<T>>, e: int, slots: seq<Option<ArgInfo<T>>>, p: seq<Actual<T>>, a: nat)
    requires WellFormed(fs) && IsEllipsisPos(fs, e) && Defaulted(fs, acts, e, slots, p, a, |OpenFormals(fs, acts)|)
    ensures forall k :: 0 <= k < |slots| ==> slots[k].Some?
  {
    var u := OpenFormals(fs, acts);
    ReachIs(fs, acts, e);
    FreeSorted(NamedFormals(fs, acts), 0);
    forall k | 0 <= k < |slots| ensures slots[k].Some? {
      var i := if 0 <= e <= k then k + 1 else k;
      assert i != e && Slot(i, e) == k && i < |fs|;
      if NamedFormals(fs, acts)[i] {
        var j :| 0 <= j < |acts| && Tags(fs[i], acts[j]);
      } else {
        assert i in u;
        var j :| 0 <= j < |u| && u[j] == i;
        if fs[i].Ellipsis? { NoOtherEllipsis(fs, e, i); }
      }
    }
  }

  /** The result of a successful matching: formals in order without the ellipsis, then the ellipsis in call order. */
  ghost predicate Matches<T>(fs: seq<Formal<T>>, acts: seq<Actual<T>>, e: int, res: seq<ArgInfo<T>>)
    requires WellFormed(fs) && IsEllipsisPos(fs, e)
  {
    var u, r, n := OpenFormals(fs, acts), Rest(fs, acts), Slots(|fs|, e);
    var m, p := Reach(fs, u), Plains(r);
    && |res| == n + |Others(r, m)| && res[n..] == DotsOf(Others(r, m))
    // by tag
    && (forall i, j :: 0 <= i < |fs| && 0 <= j < |acts| && Tags(fs[i], acts[j]) ==>
          Slot(i, e) < n && res[Slot(i, e)] == NamedInfo(acts[j]))
    // else by position
    && (forall k :: 0 <= k < m && k < |p| ==> u[k] < n && res[u[k]] == PlacedInfo(fs[u[k]], p[k]))
    // else by default
    && (forall k :: 0 <= k < |u| && !(k < m && k < |p|) && !fs[u[k]].Ellipsis? ==>
          u[k] != e && Slot(u[k], e) < n && fs[u[k]].Default? && res[Slot(u[k], e)] == DefaultInfo(fs[u[k]]))
  }

  datatype Outcome<T> = Matched(res: seq<ArgInfo<T>>) | MatchedTwice | Unused | MissingArgument

  function Values<T>(slots: seq<Option<ArgInfo<T>>>): (r: seq<ArgInfo<T>>)
    requires forall k :: 0 <= k < |slots| ==> slots[k].Some?
    ensures |r| == |slots|
  {
    seq(|slots|, k requires 0 <= k < |slots| => slots[k].value)
  }

  lemma MatchesWhenFilled<T>(fs: seq<Formal<T>>, acts: seq<Actual<T>>, e: int, slots: seq<Option<ArgInfo<T>>>, dots: seq<ArgInfo<T>>, a: nat)
    requires WellFormed(fs) && IsEllipsisPos(fs, e)
    requires var u, r := OpenFormals(fs, acts), Rest(fs, acts); var m := Reach(fs, u);
             && a == (if |Plains(r)| < m then |Plains(r)| else m)
             && Defaulted(fs, acts, e, slots, Plains(r)[..a], a, |u|) && dots == DotsOf(Others(r, m))
    ensures forall k :: 0 <= k < |slots| ==> slots[k].Some?
    ensures Matches(fs, acts, e, Values(slots) + dots)
  {
    AllFilled(fs, acts, e, slots, Plains(Rest(fs, acts))[..a], a);
  }

  lemma NowDefaults<T>(fs: seq<Formal<T>>, acts: seq<Actual<T>>, e: int, slots: seq<Option<ArgInfo<T>>>, q: seq<Actual<T>>, a: nat)
    requires WellFormed(fs) && IsEllipsisPos(fs, e) && Placed(fs, acts, e, slots, q, a)
    requires var u, p := OpenFormals(fs, acts), Plains(Rest(fs, acts));
             a == (if |p| < Reach(fs, u) then |p| else Reach(fs, u)) && q == p[..a]
    ensures Taken(fs, acts, a, q) && Defaulted(fs, acts, e, slots, q, a, a) && a <= |OpenFormals(fs, acts)|
  {}

  lemma DefaultSkip<T>(fs: seq<Formal<T>>, acts: seq<Actual<T>>, e: int, slots: seq<Option<ArgInfo<T>>>, p: seq<Actual<T>>, a: nat, k: nat)
    requires WellFormed(fs) && IsEllipsisPos(fs, e) && Defaulted(fs, acts, e, slots, p, a, k)
    requires k < |OpenFormals(fs, acts)| && fs[OpenFormals(fs, acts)[k]].Ellipsis?
    ensures Defaulted(fs, acts, e, slots, p, a, k + 1)
  {}

  lemma MissingHere<T>(fs: seq<Formal<T>>, acts: seq<Actual<T>>, a: nat, k: nat)
    requires var u, p := OpenFormals(fs, acts), Plains(Rest(fs, acts));
             && a == (if |p| < Reach(fs, u) then |p| else Reach(fs, u)) && a <= k < |u| && fs[u[k]].Symbol?
    ensures Missing(fs, acts)
  {}

  lemma NothingMissing<T>(fs: seq<Formal<T>>, acts: seq<Actual<T>>, e: int, slots: seq<Option<ArgInfo<T>>>, a: nat, q: seq<Actual<T>>)
    requires WellFormed(fs) && IsEllipsisPos(fs, e) && Taken(fs, acts, a, q)
    requires Defaulted(fs, acts, e, slots, q, a, |OpenFormals(fs, acts)|)
    ensures !Missing(fs, acts)
  {}

  /** `q` are the plain actuals that open formals have taken, `a` of them. */
  ghost predicate Taken<T>(fs: seq<Formal<T>>, acts: seq<Actual<T>>, a: nat, q: seq<Actual<T>>) {
    var u, p := OpenFormals(fs, acts), Plains(Rest(fs, acts));
    a == (if |p| < Reach(fs, u) then |p| else Reach(fs, u)) && q == p[..a]
  }

  method FillOne<T>(fs: seq<Formal<T>>, acts: seq<Actual<T>>, e: int, fidx: nat, slots0: seq<Option<ArgInfo<T>>>,
                    ghost q: seq<Actual<T>>, ghost a: nat, ghost k: nat)
    returns (ok: bool, slots: seq<Option<ArgInfo<T>>>)
    requires WellFormed(fs) && IsEllipsisPos(fs, e) && Taken(fs, acts, a, q)
    requires Defaulted(fs, acts, e, slots0, q, a, k) && k < |OpenFormals(fs, acts)| && fidx == OpenFormals(fs, acts)[k]
    ensures if ok then Defaulted(fs, acts, e, slots, q, a, k + 1) else Missing(fs, acts)
  {
    DefaultedBound(fs, acts, e, slots0, q, a, k);
    hide Defaulted, Missing, Plains, Rest, WellFormed;
    ok, slots := true, slots0;
    match fs[fidx] {
      case Default(name, x) =>
        DefaultOne(fs, acts, e, slots, q, a, k);
        slots := slots[Slot(fidx, e) := Some(ArgInfo(name, x, true, false, false))];
      case Ellipsis =>
        DefaultSkip(fs, acts, e, slots, q, a, k);
      case Symbol(_) =>
        MissingHere(fs, acts, a, k);
        ok := false;
    }
  }

  lemma DefaultedBound<T>(fs: seq<Formal<T>>, acts: seq<Actual<T>>, e: int, slots: seq<Option<ArgInfo<T>>>, p: seq<Actual<T>>, a: nat, k: nat)
    requires WellFormed(fs) && IsEllipsisPos(fs, e) && Defaulted(fs, acts, e, slots, p, a, k)
    ensures a <= k <= |OpenFormals(fs, acts)|
  {}

  /** The open formals that are left take their defaults. */
  method FillDefaults<T>(fs: seq<Formal<T>>, acts: seq<Actual<T>>, e: int, uf: seq<bool>, fidx0: int, slots0: seq<Option<ArgInfo<T>>>,
                         ghost a: nat, ghost q: seq<Actual<T>>)
    returns (ok: bool, slots: seq<Option<ArgInfo<T>>>)
    requires WellFormed(fs) && IsEllipsisPos(fs, e) && Free(uf, 0) == OpenFormals(fs, acts) && |uf| == |fs|
    requires Taken(fs, acts, a, q) && Defaulted(fs, acts, e, slots0, q, a, a)
    requires a <= |OpenFormals(fs, acts)| && fidx0 == if a < |OpenFormals(fs, acts)| then OpenFormals(fs, acts)[a] else -1
    ensures ok <==> !Missing(fs, acts)
    ensures ok ==> Defaulted(fs, acts, e, slots, q, a, |OpenFormals(fs, acts)|)
  {
    hide *;
    slots := slots0;
    var fidx := fidx0;
    ghost var u := Free(uf, 0);
    ghost var k := a;
    while fidx >= 0
      invariant a <= k <= |u| && Defaulted(fs, acts, e, slots, q, a, k)
      invariant fidx == if k < |u| then u[k] else -1
      decreases |u| - k
    {
      ok, slots := FillOne(fs, acts, e, fidx, slots, q, a, k);
      if !ok {
        return;
      }
      FreeNext(uf, 0, k);
      fidx := GetUnused(fidx, uf);
      k := k + 1;
    }
    NothingMissing(fs, acts, e, slots, a, q);
    ok := true;
  }

  /** Matches the arguments of a call: by tag, then by position, then by default. */
  method ProcessArgs<T>(fs: seq<Formal<T>>, acts: seq<Actual<T>>, argMap: map<string, nat>, e: int) returns (o: Outcome<T>)
    requires WellFormed(fs) && IsArgMap(fs, argMap) && IsEllipsisPos(fs, e)
    ensures o == MatchedTwice <==> NamedTwice(fs, acts)
    ensures o == Unused <==> !NamedTwice(fs, acts) && LeftOver(fs, acts)
    ensures o == MissingArgument <==> !NamedTwice(fs, acts) && !LeftOver(fs, acts) && Missing(fs, acts)
    ensures o.Matched? ==> Matches(fs, acts, e, o.res)
  {
    var ok, uf, ug, slots := ExtractNamed(fs, acts, argMap, e);
    if !ok {
      return MatchedTwice;
    }
    Lists(fs, acts, e, uf, ug, slots);
    var dots, fidx;
    ghost var a;
    hide *;
    ok, slots, dots, fidx, a := MatchPositions(fs, acts, e, uf, ug, slots);
    if !ok {
      return Unused;
    }
    StepsDone(fs, acts, e, slots, dots, a);
    ghost var q := Plains(Rest(fs, acts))[..a];
    NowDefaults(fs, acts, e, slots, q, a);
    ok, slots := FillDefaults(fs, acts, e, uf, fidx, slots, a, q);
    if !ok {
      return MissingArgument;
    }
    MatchesWhenFilled(fs, acts, e, slots, dots, a);
    o := Matched(Values(slots) + dots);
  }

  // ----- What each formal is bound to -----

  /** The formal is named by no actual: it is one of the open ones. */
  lemma OpenAt<T>(fs: seq<Formal<T>>, acts: seq<Actual<T>>, i: nat) returns (k: nat)
    requires i < |fs| && forall j :: 0 <= j < |acts| ==> !Tags(fs[i], acts[j])
    ensures k < |OpenFormals(fs, acts)| && OpenFormals(fs, acts)[k] == i
  {
    assert !NamedFormals(fs, acts)[i];
    hide NamedFormals, Free;
    FreeSorted(NamedFormals(fs, acts), 0);
    k :| 0 <= k < |OpenFormals(fs, acts)| && OpenFormals(fs, acts)[k] == i;
  }

  /** The binding `b` of the formal `f` carries its name, and the expression and reference mark of an actual, or its default. */
  ghost predicate BoundTo<T>(f: Formal<T>, acts: seq<Actual<T>>, b: ArgInfo<T>)
    requires !f.Ellipsis?
  {
    && b.name == f.name && !b.isEllipsis
    && (if exists j :: 0 <= j < |acts| && acts[j].Tagged? && acts[j].tag != "" && acts[j].tag == f.name
        then !b.isFormal && exists j :: 0 <= j < |acts| && acts[j].Tagged? && acts[j].tag == f.name
                                        && acts[j].e == b.e && acts[j].ref == b.isRef
        else if b.isFormal then f.Default? && b.e == f.e && !b.isRef
        else exists j :: 0 <= j < |acts| && acts[j].Plain? && acts[j].e == b.e && acts[j].ref == b.isRef)
  }

  /** Every formal but the ellipsis is bound so, in the order of the formals. */
  lemma EachFormalBound<T>(fs: seq<Formal<T>>, acts: seq<Actual<T>>, e: int, res: seq<ArgInfo<T>>, i: nat)
    requires WellFormed(fs) && IsEllipsisPos(fs, e) && Matches(fs, acts, e, res) && i < |fs| && !fs[i].Ellipsis?
    ensures var n := if e >= 0 && e < i then i - 1 else i; n < |res| && BoundTo(fs[i], acts, res[n])
  {
    if j :| 0 <= j < |acts| && Tags(fs[i], acts[j]) {
      assert res[Slot(i, e)] == NamedInfo(acts[j]);
    } else {
      var k := OpenAt(fs, acts, i);
      OpenBound(fs, acts, e, res, k);
    }
  }

  lemma {:induction false} PlainsAreActuals<T>(r: seq<Actual<T>>, k: nat)
    requires k < |Plains(r)|
    ensures Plains(r)[k].Plain? && Plains(r)[k] in r
  {
    if r[0].Plain? {
      if k > 0 { PlainsAreActuals(r[1..], k - 1); }
    } else {
      PlainsAreActuals(r[1..], k);
    }
  }

  lemma OpenBound<T>(fs: seq<Formal<T>>, acts: seq<Actual<T>>, e: int, res: seq<ArgInfo<T>>, k: nat)
    requires WellFormed(fs) && IsEllipsisPos(fs, e) && Matches(fs, acts, e, res)
    requires k < |OpenFormals(fs, acts)| && !fs[OpenFormals(fs, acts)[k]].Ellipsis?
    requires forall j :: 0 <= j < |acts| ==> !Tags(fs[OpenFormals(fs, acts)[k]], acts[j])
    ensures var i := OpenFormals(fs, acts)[k]; var n := if e >= 0 && e < i then i - 1 else i;
            n < |res| && BoundTo(fs[i], acts, res[n])
  {
    var u, r := OpenFormals(fs, acts), Rest(fs, acts);
    var m, p := Reach(fs, u), Plains(r);
    var i := u[k];
    ReachIs(fs, acts, e);
    assert forall j :: 0 <= j < |acts| && acts[j].Tagged? && acts[j].tag != "" ==> acts[j].tag != fs[i].name;
    if k < m && k < |p| {
      PlainsAreActuals(r, k);
      RestAreActuals(fs, acts, p[k]);
      assert res[i] == PlacedInfo(fs[i], p[k]) && Slot(i, e) == i;
    } else {
      assert res[Slot(i, e)] == DefaultInfo(fs[i]);
    }
  }

  lemma RestAreActuals<T>(fs: seq<Formal<T>>, acts: seq<Actual<T>>, a: Actual<T>)
    requires a in Rest(fs, acts)
    ensures exists j :: 0 <= j < |acts| && acts[j] == a
  {}

  /** What goes into the ellipsis comes behind, marked as such, under its own tag. */
  lemma EllipsisBound<T>(fs: seq<Formal<T>>, acts: seq<Actual<T>>, e: int, res: seq<ArgInfo<T>>, k: nat)
    requires WellFormed(fs) && IsEllipsisPos(fs, e) && Matches(fs, acts, e, res)
    requires k < |Others(Rest(fs, acts), Reach(fs, OpenFormals(fs, acts)))|
    ensures var a := Others(Rest(fs, acts), Reach(fs, OpenFormals(fs, acts)))[k]; var n := Slots(|fs|, e) + k;
            && n < |res| && res[n].isEllipsis && !res[n].isFormal && res[n].e == a.e && res[n].isRef == a.ref
            && res[n].name == match a case Tagged(tag, _, _) => tag case Plain(_, _) => ""
  {
    var n := Slots(|fs|, e);
    assert res[n..][k] == res[n + k];
  }

  // ----- Every actual is used exactly once -----

  /** The actuals that name a formal, in call order. */
  function TaggedFor<T>(f: Formal<T>, acts: seq<Actual<T>>): seq<Actual<T>> {
    if acts == [] then [] else (if Tags(f, acts[0]) then [acts[0]] else []) + TaggedFor(f, acts[1..])
  }

  /** What the formals are given by tag, together. */
  ghost function ByTag<T>(fs: seq<Formal<T>>, acts: seq<Actual<T>>): multiset<Actual<T>> {
    if fs == [] then multiset{} else multiset(TaggedFor(fs[0], acts)) + ByTag(fs[1..], acts)
  }

  lemma MultisetCons<T>(x: T, s: seq<T>)
    ensures multiset([x] + s) == multiset{x} + multiset(s)
  {}

  /** Whether the actual names one of the formals. */
  ghost predicate NamesOne<T>(fs: seq<Formal<T>>, a: Actual<T>) {
    exists i :: 0 <= i < |fs| && Tags(fs[i], a)
  }

  lemma NamesFirstOrLater<T>(fs: seq<Formal<T>>, a: Actual<T>)
    requires fs != [] && WellFormed(fs)
    ensures WellFormed(fs[1..])
    ensures NamesOne(fs, a) <==> Tags(fs[0], a) || NamesOne(fs[1..], a)
    ensures !(Tags(fs[0], a) && NamesOne(fs[1..], a))
  {
    if Tags(fs[0], a) {
      OnlyOneTagged(fs, a, 0);
    } else if i :| 0 <= i < |fs| && Tags(fs[i], a) {
      assert Tags(fs[1..][i - 1], a);
    }
  }

  function One<T>(c: bool, a: T): multiset<T> {
    if c then multiset{a} else multiset{}
  }

  lemma TaggedForCons<T>(f: Formal<T>, acts: seq<Actual<T>>)
    requires acts != []
    ensures multiset(TaggedFor(f, acts)) == One(Tags(f, acts[0]), acts[0]) + multiset(TaggedFor(f, acts[1..]))
  {
    if Tags(f, acts[0]) { MultisetCons(acts[0], TaggedFor(f, acts[1..])); }
    else { assert [] + TaggedFor(f, acts[1..]) == TaggedFor(f, acts[1..]); }
  }

  lemma ByTagUnfold<T>(fs: seq<Formal<T>>, acts: seq<Actual<T>>)
    ensures fs == [] ==> ByTag(fs, acts) == multiset{}
    ensures fs != [] ==> ByTag(fs, acts) == multiset(TaggedFor(fs[0], acts)) + ByTag(fs[1..], acts)
  {}

  /** An actual that names a formal is given to that formal alone, any other to none. */
  lemma {:induction false} ByTagCons<T>(fs: seq<Formal<T>>, acts: seq<Actual<T>>)
    requires WellFormed(fs) && acts != []
    ensures ByTag(fs, acts) == One(NamesOne(fs, acts[0]), acts[0]) + ByTag(fs, acts[1..])
  {
    hide ByTag, TaggedFor, WellFormed;
    ByTagUnfold(fs, acts);
    ByTagUnfold(fs, acts[1..]);
    if fs != [] {
      hide NamesOne;
      NamesFirstOrLater(fs, acts[0]);
      ByTagCons(fs[1..], acts);
      TaggedForCons(fs[0], acts);
    }
  }

  lemma {:induction false} NobodyTagged<T>(fs: seq<Formal<T>>)
    ensures ByTag(fs, []) == multiset{}
  {
    if fs != [] { NobodyTagged(fs[1..]); }
  }

  lemma AtCons<T>(acts: seq<Actual<T>>, k: nat, g: seq<nat>)
    requires k < |acts| && forall i :: 0 <= i < |g| ==> g[i] < |acts|
    ensures multiset(At(acts, [k] + g)) == multiset{acts[k]} + multiset(At(acts, g))
  {
    assert At(acts, [k] + g) == [acts[k]] + At(acts, g);
    MultisetCons(acts[k], At(acts, g));
  }

  /** The unused actuals from `k` on: the one at `k` if it names no formal, and those after it. */
  lemma RestCons<T>(fs: seq<Formal<T>>, acts: seq<Actual<T>>, k: nat)
    requires k < |acts|
    ensures var ug := NamingActuals(fs, acts);
            multiset(At(acts, Free(ug, k))) == One(!NamesOne(fs, acts[k]), acts[k]) + multiset(At(acts, Free(ug, k + 1)))
  {
    var ug := NamingActuals(fs, acts);
    assert ug[k] == NamesOne(fs, acts[k]);
    hide Free, NamingActuals, NamesOne, At;
    FreeUnfold(ug, k);
    if !ug[k] { AtCons(acts, k, Free(ug, k + 1)); }
  }

  lemma TailCons<T>(s: seq<T>, k: nat)
    requires k < |s|
    ensures s[k..] != [] && s[k..][0] == s[k] && s[k..][1..] == s[k + 1..]
    ensures multiset(s[k..]) == multiset{s[k]} + multiset(s[k + 1..])
  {
    assert s[k..] == [s[k]] + s[k + 1..];
  }

  lemma {:induction false} TagsAndRest<T>(fs: seq<Formal<T>>, acts: seq<Actual<T>>, k: nat)
    requires WellFormed(fs) && k <= |acts|
    ensures multiset(acts[k..]) == ByTag(fs, acts[k..]) + multiset(At(acts, Free(NamingActuals(fs, acts), k)))
    decreases |acts| - k
  {
    hide *;
    if k == |acts| {
      NothingAfter(fs, acts);
    } else {
      TagsAndRest(fs, acts, k + 1);
      TagsAndRestStep(fs, acts, k);
    }
  }

  lemma NothingAfter<T>(fs: seq<Formal<T>>, acts: seq<Actual<T>>)
    ensures multiset(acts[|acts|..]) == ByTag(fs, acts[|acts|..]) + multiset(At(acts, Free(NamingActuals(fs, acts), |acts|)))
  {
    hide NamingActuals;
    NobodyTagged(fs);
    assert acts[|acts|..] == [];
    assert At(acts, []) == [];
  }

  lemma TagsAndRestStep<T>(fs: seq<Formal<T>>, acts: seq<Actual<T>>, k: nat)
    requires WellFormed(fs) && k < |acts|
    requires multiset(acts[k + 1..]) == ByTag(fs, acts[k + 1..]) + multiset(At(acts, Free(NamingActuals(fs, acts), k + 1)))
    ensures multiset(acts[k..]) == ByTag(fs, acts[k..]) + multiset(At(acts, Free(NamingActuals(fs, acts), k)))
  {
    hide *;
    TailCons(acts, k);
    RestCons(fs, acts, k);
    var named, rest := ByTag(fs, acts[k + 1..]), multiset(At(acts, Free(NamingActuals(fs, acts), k + 1)));
    assert ByTag(fs, acts[k..]) == One(NamesOne(fs, acts[k]), acts[k]) + named by {
      ByTagCons(fs, acts[k..]);
    }
    OneOrOther(NamesOne(fs, acts[k]), acts[k], named, rest);
  }

  lemma OneOrOther<T>(c: bool, x: T, a: multiset<T>, b: multiset<T>)
    ensures multiset{x} + (a + b) == (One(c, x) + a) + (One(!c, x) + b)
  {}

  function Least(m: nat, n: nat): (r: nat)
    ensures r <= m && r <= n
  {
    if m < n then m else n
  }

  lemma PlainsTaken<T>(r: seq<Actual<T>>, m: nat)
    requires r != []
    ensures var p, q, c := Plains(r), Plains(r[1..]), r[0].Plain? && m != 0;
            var k := if c then m - 1 else m;
            && multiset(p[..Least(|p|, m)]) == One(c, r[0]) + multiset(q[..Least(|q|, k)])
            && multiset(Others(r, m)) == One(!c, r[0]) + multiset(Others(r[1..], k))
  {
    var p, q := Plains(r), Plains(r[1..]);
    if r[0].Plain? && m != 0 {
      assert p[..Least(|p|, m)] == [r[0]] + q[..Least(|q|, m - 1)];
      MultisetCons(r[0], q[..Least(|q|, m - 1)]);
    } else {
      MultisetCons(r[0], Others(r[1..], m));
      assert p[..Least(|p|, m)] == q[..Least(|q|, m)];
    }
  }

  lemma {:induction false} PlacedAndOthers<T>(r: seq<Actual<T>>, m: nat)
    ensures multiset(r) == multiset(Plains(r)[..Least(|Plains(r)|, m)]) + multiset(Others(r, m))
  {
    if r != [] {
      hide *;
      var c := r[0].Plain? && m != 0;
      var k: nat := if c then m - 1 else m;
      var p, q := Plains(r), Plains(r[1..]);
      var u, w := p[..Least(|p|, m)], q[..Least(|q|, k)];
      PlacedAndOthers(r[1..], k);
      assert multiset(r[1..]) == multiset(w) + multiset(Others(r[1..], k));
      PlainsTaken(r, m);
      assert multiset(u) == One(c, r[0]) + multiset(w);
      assert r == [r[0]] + r[1..];
      MultisetCons(r[0], r[1..]);
      OneOrOther(c, r[0], multiset(w), multiset(Others(r[1..], k)));
    }
  }

  lemma {:induction false} TaggedOnce<T>(f: Formal<T>, acts: seq<Actual<T>>)
    requires forall j, k :: 0 <= j < k < |acts| ==> !(Tags(f, acts[j]) && Tags(f, acts[k]))
    ensures |TaggedFor(f, acts)| <= 1
    ensures (forall j :: 0 <= j < |acts| ==> !Tags(f, acts[j])) ==> TaggedFor(f, acts) == []
  {
    if acts != [] {
      TaggedOnce(f, acts[1..]);
      if Tags(f, acts[0]) {
        assert forall j :: 0 <= j < |acts[1..]| ==> !Tags(f, acts[1..][j]);
      }
    }
  }

  lemma {:induction false} NoOthers<T>(r: seq<Actual<T>>, m: nat)
    requires |Plains(r)| <= m && forall k :: 0 <= k < |r| ==> r[k].Plain?
    ensures Others(r, m) == []
  {
    if r != [] { NoOthers(r[1..], m - 1); }
  }

  /**
   * The actuals of a call that matches are exactly those given by tag, those given by position and those in the
   * ellipsis: none is lost and none is used twice.
   */
  lemma EachActualOnce<T>(fs: seq<Formal<T>>, acts: seq<Actual<T>>)
    requires WellFormed(fs) && !NamedTwice(fs, acts) && !LeftOver(fs, acts)
    ensures var u, r := OpenFormals(fs, acts), Rest(fs, acts);
            var m, p := Reach(fs, u), Plains(r);
            && multiset(acts) == ByTag(fs, acts) + multiset(p[..Least(|p|, m)]) + multiset(Others(r, m))
            && (m == |u| ==> Others(r, m) == [])
    ensures forall i :: 0 <= i < |fs| ==> |TaggedFor(fs[i], acts)| <= 1
  {
    var u, r := OpenFormals(fs, acts), Rest(fs, acts);
    TagsAndRest(fs, acts, 0);
    assert acts[0..] == acts;
    PlacedAndOthers(r, Reach(fs, u));
    if Reach(fs, u) == |u| {
      NoOthers(r, Reach(fs, u));
    }
    forall i | 0 <= i < |fs| ensures |TaggedFor(fs[i], acts)| <= 1 {
      TaggedOnce(fs[i], acts);
    }
  }
}
