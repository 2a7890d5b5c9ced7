/** Copy-on-write handles: programs that use them see values, never each other's writes. */
module Cow {
  /** A handle: which object and which count it shares, and its own flags. */
  datatype Handle = Handle(p: nat, count: nat, locked: bool, constref: bool, tmp: bool, last: bool)

  /** The objects and counts allocated so far, and the live handles. */
  datatype State<T> = State(objs: seq<T>, counts: seq<int>, hs: map<nat, Handle>)

  /** What a program does with its handles. */
  datatype Op<T> =
    | Make(id: nat, v: T)
    | CopyTo(id: nat, src: nat)
    | AssignTo(id: nat, src: nat)
    | WriteTo(id: nat, v: T)
    | Drop(id: nat)
    | SetLock(id: nat)
    | ResetLock(id: nat)
    | SetConst(id: nat)
    | SetTmp(id: nat)
    | SetLast(id: nat)

  /** Handles refer to what has been allocated. */
  ghost predicate WellFormed<T>(st: State<T>) {
    forall i :: i in st.hs ==> st.hs[i].p < |st.objs| && st.hs[i].count < |st.counts|
  }

  /** The operation uses handles that exist, and makes handles that do not. */
  predicate Legal<T>(op: Op<T>, live: set<nat>) {
    match op
    case Make(id, _) => id !in live
    case CopyTo(id, src) => id !in live && src in live
    case AssignTo(id, src) => id in live && src in live
    case _ => op.id in live
  }

  function LiveAfter<T>(live: set<nat>, op: Op<T>): set<nat> {
    match op
    case Make(id, _) => live + {id}
    case CopyTo(id, _) => live + {id}
    case Drop(id) => live - {id}
    case _ => live
  }

  /** A write is refused through a constant handle, and through a locked one that would have to copy. */
  predicate Refuses<T>(st: State<T>, id: nat)
    requires id in st.hs && st.hs[id].count < |st.counts|
  {
    st.hs[id].constref || (st.counts[st.hs[id].count] > 1 && st.hs[id].locked)
  }

  ghost predicate GoesThrough<T>(st: State<T>, op: Op<T>)
    requires WellFormed(st) && Legal(op, st.hs.Keys)
  {
    op.WriteTo? ==> !Refuses(st, op.id)
  }

  ghost function Bump<T>(st: State<T>, c: nat, k: int): State<T>
    requires c < |st.counts|
  {
    st.(counts := st.counts[c := st.counts[c] + k])
  }

  ghost function Put<T>(st: State<T>, id: nat, h: Handle): State<T> {
    st.(hs := st.hs[id := h])
  }

  ghost function Step<T>(st: State<T>, op: Op<T>): (r: State<T>)
    requires WellFormed(st) && Legal(op, st.hs.Keys)
    ensures WellFormed(r) && r.hs.Keys == LiveAfter(st.hs.Keys, op)
  {
    match op
    case Make(id, v) =>
      State(st.objs + [v], st.counts + [1], st.hs[id := Handle(|st.objs|, |st.counts|, false, false, false, false)])
    case CopyTo(id, src) => Put(Bump(st, st.hs[src].count, 1), id, st.hs[src].(last := false))
    case AssignTo(id, src) =>
      // the count of what the handle shared before stays as it is
      Put(Bump(st, st.hs[src].count, if st.hs[src].constref then 0 else 1), id, st.hs[src].(last := false))
    case WriteTo(id, v) =>
      var h := st.hs[id];
      if Refuses(st, id) then st
      else if st.counts[h.count] > 1 then
        State(st.objs + [v], Bump(st, h.count, -1).counts + [1], st.hs[id := h.(p := |st.objs|, count := |st.counts|)])
      else st.(objs := st.objs[h.p := v])
    case Drop(id) =>
      var h := st.hs[id];
      Bump(st, h.count, if h.last || h.tmp then 0 else -1).(hs := st.hs - {id})
    case SetLock(id) => Put(st, id, st.hs[id].(locked := true))
    case ResetLock(id) => Put(st, id, st.hs[id].(locked := false))
    case SetConst(id) => Put(st, id, st.hs[id].(constref := true))
    case SetTmp(id) => Put(Bump(st, st.hs[id].count, -1), id, st.hs[id].(tmp := true))
    case SetLast(id) => Put(Bump(st, st.hs[id].count, -1), id, st.hs[id].(last := true))
  }

  /** The handles of a program and what they share, in memory. */
  class Memory<T> {
    var objs: seq<T>
    var counts: seq<int>
    var hs: map<nat, Handle>

    ghost function Now(): State<T>
      reads this
    {
      State(objs, counts, hs)
    }

    constructor ()
      ensures Now() == State([], [], map[]) && WellFormed(Now())
    {
      objs, counts, hs := [], [], map[];
    }

    method Create(id: nat, v: T)
      requires WellFormed(Now()) && Legal(Make(id, v), hs.Keys)
      modifies this
      ensures Now() == Step(old(Now()), Make(id, v))
    {
      hs := hs[id := Handle(|objs|, |counts|, false, false, false, false)];
      objs, counts := objs + [v], counts + [1];
    }

    method Increment(c: nat)
      requires c < |counts|
      modifies this`counts
      ensures Now() == Bump(old(Now()), c, 1)
    {
      counts := counts[c := counts[c] + 1];
    }

    method Decrement(c: nat)
      requires c < |counts|
      modifies this`counts
      ensures Now() == Bump(old(Now()), c, -1)
    {
      counts := counts[c := counts[c] - 1];
    }

    method Copy(id: nat, src: nat)
      requires WellFormed(Now()) && Legal(Op<T>.CopyTo(id, src), hs.Keys)
      modifies this
      ensures Now() == Step(old(Now()), CopyTo(id, src))
    {
      hs := hs[id := hs[src].(last := false)];
      Increment(hs[id].count);
    }

    method Assign(id: nat, src: nat)
      requires WellFormed(Now()) && Legal(Op<T>.AssignTo(id, src), hs.Keys)
      modifies this
      ensures Now() == Step(old(Now()), AssignTo(id, src))
    {
      hs := hs[id := hs[src].(last := false)];
      if !hs[id].constref {
        Increment(hs[id].count);
      }
    }

    /** Dereferences for writing, making a copy when the object is shared, and writes. */
    method Write(id: nat, v: T) returns (ok: bool)
      requires WellFormed(Now()) && Legal(WriteTo(id, v), hs.Keys)
      modifies this
      ensures ok == !Refuses(old(Now()), id)
      ensures Now() == Step(old(Now()), WriteTo(id, v))
    {
      var h := hs[id];
      if h.constref {
        return false;
      }
      if counts[h.count] > 1 {
        if h.locked {
          return false;
        }
        objs := objs + [objs[h.p]];
        Decrement(h.count);
        counts := counts + [1];
        hs := hs[id := h.(p := |objs| - 1, count := |counts| - 1)];
      }
      objs := objs[hs[id].p := v];
      ok := true;
    }

    method Destroy(id: nat)
      requires WellFormed(Now()) && Legal(Op<T>.Drop(id), hs.Keys)
      modifies this
      ensures Now() == Step(old(Now()), Drop(id))
    {
      if !hs[id].last && !hs[id].tmp {
        Decrement(hs[id].count);
      }
      hs := hs - {id};
    }

    method SetFlag(op: Op<T>)
      requires WellFormed(Now()) && Legal(op, hs.Keys)
      requires op.SetLock? || op.ResetLock? || op.SetConst? || op.SetTmp? || op.SetLast?
      modifies this
      ensures Now() == Step(old(Now()), op)
    {
      match op {
        case SetLock(id) => hs := hs[id := hs[id].(locked := true)];
        case ResetLock(id) => hs := hs[id := hs[id].(locked := false)];
        case SetConst(id) => hs := hs[id := hs[id].(constref := true)];
        case SetTmp(id) =>
          hs := hs[id := hs[id].(tmp := true)];
          Decrement(hs[id].count);
        case SetLast(id) =>
          hs := hs[id := hs[id].(last := true)];
          Decrement(hs[id].count);
      }
    }

    method Do(op: Op<T>) returns (ok: bool)
      requires WellFormed(Now()) && Legal(op, hs.Keys)
      modifies this
      ensures ok == GoesThrough(old(Now()), op) && Now() == Step(old(Now()), op)
    {
      ok := true;
      match op {
        case Make(id, v) => Create(id, v);
        case CopyTo(id, src) => Copy(id, src);
        case AssignTo(id, src) => Assign(id, src);
        case WriteTo(id, v) => ok := Write(id, v);
        case Drop(id) => Destroy(id);
        case _ => SetFlag(op);
      }
    }

    /** Runs a program; tells which of its operations went through. */
    method Run(ops: seq<Op<T>>) returns (oks: seq<bool>)
      requires WellFormed(Now()) && LegalRun(ops, hs.Keys)
      modifies this
      ensures Now() == RunFrom(old(Now()), ops) && oks == Outcomes(old(Now()), ops)
      decreases |ops|
    {
      if ops == [] {
        return [];
      }
      var ok := Do(ops[0]);
      var rest := Run(ops[1..]);
      oks := [ok] + rest;
    }
  }

  predicate LegalRun<T>(ops: seq<Op<T>>, live: set<nat>) {
    ops == [] || (Legal(ops[0], live) && LegalRun(ops[1..], LiveAfter(live, ops[0])))
  }

  ghost function RunFrom<T>(st: State<T>, ops: seq<Op<T>>): (r: State<T>)
    requires WellFormed(st) && LegalRun(ops, st.hs.Keys)
    ensures WellFormed(r)
    decreases |ops|
  {
    if ops == [] then st else RunFrom(Step(st, ops[0]), ops[1..])
  }

  ghost function Outcomes<T>(st: State<T>, ops: seq<Op<T>>): (oks: seq<bool>)
    requires WellFormed(st) && LegalRun(ops, st.hs.Keys)
    ensures |oks| == |ops|
    decreases |ops|
  {
    if ops == [] then [] else [GoesThrough(st, ops[0])] + Outcomes(Step(st, ops[0]), ops[1..])
  }

  // ----- The meaning of a run when nothing is shared -----

  /** Every handle has a value of its own; an operation that is refused does nothing. */
  function Apply<T>(m: map<nat, T>, op: Op<T>, ok: bool): (r: map<nat, T>)
    requires Legal(op, m.Keys)
    ensures r.Keys == LiveAfter(m.Keys, op)
  {
    match op
    case Make(id, v) => m[id := v]
    case CopyTo(id, src) => m[id := m[src]]
    case AssignTo(id, src) => m[id := m[src]]
    case WriteTo(id, v) => if ok then m[id := v] else m
    case Drop(id) => m - {id}
    case _ => m
  }

  function Replay<T>(m: map<nat, T>, ops: seq<Op<T>>, oks: seq<bool>): map<nat, T>
    requires LegalRun(ops, m.Keys) && |oks| == |ops|
    decreases |ops|
  {
    if ops == [] then m else Replay(Apply(m, ops[0], oks[0]), ops[1..], oks[1..])
  }

  /** What the program sees through each handle. */
  ghost function View<T>(st: State<T>): (m: map<nat, T>)
    requires WellFormed(st)
    ensures m.Keys == st.hs.Keys
  {
    map id | id in st.hs :: st.objs[st.hs[id].p]
  }

  /** The live handles with the count. */
  ghost function Sharing(hs: map<nat, Handle>, c: nat): set<nat> {
    set id | id in hs && hs[id].count == c
  }

  /** Handles share an object exactly when they share its count. */
  ghost predicate Paired(hs: map<nat, Handle>) {
    forall i, j :: i in hs && j in hs ==> (hs[i].p == hs[j].p <==> hs[i].count == hs[j].count)
  }

  /** No count is below the number of handles that share it. */
  ghost predicate Bounded(hs: map<nat, Handle>, counts: seq<int>) {
    forall c :: 0 <= c < |counts| ==> |Sharing(hs, c)| <= counts[c]
  }

  ghost predicate Flagless(hs: map<nat, Handle>) {
    forall i :: i in hs ==> !hs[i].constref && !hs[i].tmp && !hs[i].last
  }

  /** Counts can be higher than they need be, since assignment does not lower the count of what it replaces. */
  ghost predicate Sound<T>(st: State<T>) {
    WellFormed(st) && Flagless(st.hs) && Paired(st.hs) && Bounded(st.hs, st.counts)
  }

  /** The operations that leave the constant, temporary and last flags alone. */
  predicate Plain<T>(op: Op<T>) {
    !op.SetConst? && !op.SetTmp? && !op.SetLast?
  }

  lemma {:induction false} SmallerSet(a: set<nat>, b: set<nat>)
    requires a <= b
    ensures |a| <= |b|
    decreases |a|
  {
    if a != {} {
      var x :| x in a;
      SmallerSet(a - {x}, b - {x});
    }
  }

  /** A handle comes to share a count, or is put in the place of another. */
  lemma SharingPut(hs: map<nat, Handle>, id: nat, h: Handle, c: nat)
    ensures |Sharing(hs[id := h], c)| <= |Sharing(hs, c)| + if h.count == c then 1 else 0
    ensures id in hs && hs[id].count == c && h.count != c ==> |Sharing(hs[id := h], c)| == |Sharing(hs, c)| - 1
    ensures id in hs && hs[id].count == h.count ==> Sharing(hs[id := h], c) == Sharing(hs, c)
  {
    var s, r := Sharing(hs, c), Sharing(hs[id := h], c);
    if h.count == c {
      assert r == s + {id};
    } else {
      assert r == s - {id};
      SmallerSet(r, s);
    }
  }

  lemma SharingDrop(hs: map<nat, Handle>, id: nat, c: nat)
    requires id in hs
    ensures |Sharing(hs - {id}, c)| == |Sharing(hs, c)| - if hs[id].count == c then 1 else 0
  {
    if hs[id].count == c {
      assert Sharing(hs - {id}, c) == Sharing(hs, c) - {id};
    } else {
      assert Sharing(hs - {id}, c) == Sharing(hs, c);
    }
  }

  /** When the count allows writing in place, no other handle shares the object. */
  lemma Alone<T>(st: State<T>, id: nat)
    requires Sound(st) && id in st.hs && st.counts[st.hs[id].count] <= 1
    ensures forall j :: j in st.hs && j != id ==> st.hs[j].p != st.hs[id].p
  {
    var c := st.hs[id].count;
    forall j | j in st.hs && j != id ensures st.hs[j].count != c {
      if st.hs[j].count == c {
        TwoShare(st.hs, c, id, j);
        assert false;
      }
    }
  }

  lemma TwoShare(hs: map<nat, Handle>, c: nat, i: nat, j: nat)
    requires i in hs && j in hs && i != j && hs[i].count == hs[j].count == c
    ensures |Sharing(hs, c)| >= 2
  {
    assert |{i, j}| == 2;
    SmallerSet({i, j}, Sharing(hs, c));
  }

  /** A handle that shares with an existing one. */
  lemma PutPaired(hs: map<nat, Handle>, id: nat, h: Handle, j: nat)
    requires Paired(hs) && j in hs && hs[j].p == h.p && hs[j].count == h.count
    ensures Paired(hs[id := h])
  {
    var put := hs[id := h];
    forall i | i in put ensures put[i].p == h.p <==> put[i].count == h.count {
      if i != id { assert hs[i].p == hs[j].p <==> hs[i].count == hs[j].count; }
    }
  }

  /** A handle with an object and a count of its own. */
  lemma OwnPaired(hs: map<nat, Handle>, id: nat, h: Handle)
    requires Paired(hs) && forall j :: j in hs ==> hs[j].p != h.p && hs[j].count != h.count
    ensures Paired(hs[id := h])
  {}

  /** One more on the count that is shared now. */
  lemma PutBounded(hs: map<nat, Handle>, counts: seq<int>, id: nat, h: Handle)
    requires Bounded(hs, counts) && h.count < |counts|
    ensures Bounded(hs[id := h], counts[h.count := counts[h.count] + 1])
  {
    var more := counts[h.count := counts[h.count] + 1];
    forall c | 0 <= c < |counts| ensures |Sharing(hs[id := h], c)| <= more[c] {
      SharingPut(hs, id, h, c);
    }
  }

  /** A count of its own; one less on what was shared before. */
  lemma OwnBounded(hs: map<nat, Handle>, counts: seq<int>, id: nat, h: Handle)
    requires Bounded(hs, counts) && h.count == |counts| && forall i :: i in hs ==> hs[i].count < |counts|
    ensures Bounded(hs[id := h], counts + [1])
    ensures id in hs ==> Bounded(hs[id := h], counts[hs[id].count := counts[hs[id].count] - 1] + [1])
  {
    assert Sharing(hs, |counts|) == {};
    forall c | 0 <= c <= |counts|
      ensures |Sharing(hs[id := h], c)| <= (counts + [1])[c] - if id in hs && hs[id].count == c then 1 else 0
    {
      SharingPut(hs, id, h, c);
    }
  }

  lemma MakeSound<T>(st: State<T>, op: Op<T>)
    requires Sound(st) && op.Make? && Legal(op, st.hs.Keys)
    ensures Sound(Step(st, op)) && View(Step(st, op)) == Apply(View(st), op, true)
  {
    var h := Step(st, op).hs[op.id];
    OwnPaired(st.hs, op.id, h);
    OwnBounded(st.hs, st.counts, op.id, h);
    hide Paired, Bounded;
  }

  lemma ShareSound<T>(st: State<T>, op: Op<T>)
    requires Sound(st) && (op.CopyTo? || op.AssignTo?) && Legal(op, st.hs.Keys)
    ensures Sound(Step(st, op)) && View(Step(st, op)) == Apply(View(st), op, true)
  {
    hide *;
    ShareStep(st, op);
    ShareView(st, op);
    var h := st.hs[op.src];
    PutPaired(st.hs, op.id, h, op.src);
    PutBounded(st.hs, st.counts, op.id, h);
    PutSound(st, op.id, h, st.counts[h.count := st.counts[h.count] + 1]);
  }

  lemma PutSound<T>(st: State<T>, id: nat, h: Handle, counts: seq<int>)
    requires Sound(st) && h.p < |st.objs| && h.count < |counts| == |st.counts|
    requires !h.constref && !h.tmp && !h.last
    requires Paired(st.hs[id := h]) && Bounded(st.hs[id := h], counts)
    ensures Sound(State(st.objs, counts, st.hs[id := h]))
  {
    hide Paired, Bounded;
  }

  lemma ShareStep<T>(st: State<T>, op: Op<T>)
    requires Sound(st) && (op.CopyTo? || op.AssignTo?) && Legal(op, st.hs.Keys)
    ensures WellFormed(st) && op.src in st.hs && Paired(st.hs) && Bounded(st.hs, st.counts)
    ensures var h := st.hs[op.src];
            && h.p < |st.objs| && h.count < |st.counts| && !h.constref && !h.tmp && !h.last
            && Step(st, op) == State(st.objs, st.counts[h.count := st.counts[h.count] + 1], st.hs[op.id := h])
  {
    hide Paired, Bounded;
  }

  lemma ShareView<T>(st: State<T>, op: Op<T>)
    requires WellFormed(st) && (op.CopyTo? || op.AssignTo?) && Legal(op, st.hs.Keys)
    ensures View(Step(st, op)) == Apply(View(st), op, true)
  {}

  /** Writing to a copy. */
  lemma CopySound<T>(st: State<T>, op: Op<T>)
    requires Sound(st) && op.WriteTo? && Legal(op, st.hs.Keys)
    requires !Refuses(st, op.id) && st.counts[st.hs[op.id].count] > 1
    ensures Sound(Step(st, op)) && View(Step(st, op)) == Apply(View(st), op, true)
  {
    hide Paired, Bounded, Refuses;
    var h := Step(st, op).hs[op.id];
    OwnPaired(st.hs, op.id, h);
    OwnBounded(st.hs, st.counts, op.id, h);
  }

  /** Writing in place. */
  lemma InPlaceSound<T>(st: State<T>, op: Op<T>)
    requires Sound(st) && op.WriteTo? && Legal(op, st.hs.Keys)
    requires !Refuses(st, op.id) && st.counts[st.hs[op.id].count] <= 1
    ensures Sound(Step(st, op)) && View(Step(st, op)) == Apply(View(st), op, true)
  {
    Alone(st, op.id);
    hide Paired, Bounded, Refuses;
  }

  lemma DropSound<T>(st: State<T>, op: Op<T>)
    requires Sound(st) && op.Drop? && Legal(op, st.hs.Keys)
    ensures Sound(Step(st, op)) && View(Step(st, op)) == Apply(View(st), op, true)
  {
    var r := Step(st, op);
    assert Paired(r.hs);
    assert Bounded(r.hs, r.counts) by {
      forall c | 0 <= c < |r.counts| ensures |Sharing(r.hs, c)| <= r.counts[c] {
        SharingDrop(st.hs, op.id, c);
      }
    }
    hide Paired, Bounded;
  }

  lemma LockSound<T>(st: State<T>, op: Op<T>)
    requires Sound(st) && (op.SetLock? || op.ResetLock?) && Legal(op, st.hs.Keys)
    ensures Sound(Step(st, op)) && View(Step(st, op)) == View(st)
  {
    hide Paired;
    var h := Step(st, op).hs[op.id];
    PutPaired(st.hs, op.id, h, op.id);
    assert Bounded(st.hs[op.id := h], st.counts) by {
      forall c | 0 <= c < |st.counts| ensures |Sharing(st.hs[op.id := h], c)| <= st.counts[c] {
        SharingPut(st.hs, op.id, h, c);
      }
    }
    hide Bounded;
  }

  lemma RefusedStays<T>(st: State<T>, op: Op<T>)
    requires WellFormed(st) && op.WriteTo? && Legal(op, st.hs.Keys) && Refuses(st, op.id)
    ensures Step(st, op) == st
  {}

  /** Every operation keeps the counts sound, and does to what the program sees what it does to unshared values. */
  lemma StepIsolates<T>(st: State<T>, op: Op<T>)
    requires Sound(st) && Plain(op) && Legal(op, st.hs.Keys)
    ensures Sound(Step(st, op)) && View(Step(st, op)) == Apply(View(st), op, GoesThrough(st, op))
    ensures forall c: nat :: Slack(Step(st, op), c) == Slack(st, c) + OneIf(op.AssignTo? && st.hs[op.id].count == c)
  {
    assert WellFormed(st);
    forall c: nat ensures Slack(Step(st, op), c) == Slack(st, c) + OneIf(op.AssignTo? && st.hs[op.id].count == c) {
      StepAccount(st, op, c);
      assert Gain(st, op, c) == OneIf(op.AssignTo? && st.hs[op.id].count == c);
    }
    hide Slack;
    hide Sound, View, Step, Refuses;
    match op
    case Make(_, _) => MakeSound(st, op);
    case CopyTo(_, _) => ShareSound(st, op);
    case AssignTo(_, _) => ShareSound(st, op);
    case WriteTo(_, _) =>
      if !Refuses(st, op.id) {
        if st.counts[st.hs[op.id].count] > 1 { CopySound(st, op); } else { InPlaceSound(st, op); }
      } else {
        RefusedStays(st, op);
      }
    case Drop(_) => DropSound(st, op);
    case _ => LockSound(st, op);
  }

  /**
   * Every run: what is seen through each handle is what the run means when handles share nothing, so a write through
   * one is never visible through another.
   */
  lemma {:induction false} RunIsolates<T>(st: State<T>, ops: seq<Op<T>>)
    requires Sound(st) && LegalRun(ops, st.hs.Keys) && forall k :: 0 <= k < |ops| ==> Plain(ops[k])
    ensures Sound(RunFrom(st, ops))
    ensures View(RunFrom(st, ops)) == Replay(View(st), ops, Outcomes(st, ops))
    decreases |ops|
  {
    if ops != [] {
      StepIsolates(st, ops[0]);
      hide Sound, View, Step, Apply, Plain;
      RunIsolates(Step(st, ops[0]), ops[1..]);
      assert Outcomes(st, ops)[1..] == Outcomes(Step(st, ops[0]), ops[1..]);
    }
  }

  /** No handle is locked, and none is being locked: every write goes through. */
  lemma {:induction false} UnlockedGoesThrough<T>(st: State<T>, ops: seq<Op<T>>)
    requires Sound(st) && LegalRun(ops, st.hs.Keys) && forall k :: 0 <= k < |ops| ==> Plain(ops[k]) && !ops[k].SetLock?
    requires Unlocked(st.hs)
    ensures forall k :: 0 <= k < |ops| ==> Outcomes(st, ops)[k]
    decreases |ops|
  {
    if ops != [] {
      StepIsolates(st, ops[0]);
      StaysUnlocked(st, ops[0]);
      hide Sound, Step, Plain;
      UnlockedGoesThrough(Step(st, ops[0]), ops[1..]);
    }
  }

  ghost predicate Unlocked(hs: map<nat, Handle>) {
    forall i :: i in hs ==> !hs[i].locked
  }

  lemma StaysUnlocked<T>(st: State<T>, op: Op<T>)
    requires Sound(st) && Plain(op) && !op.SetLock? && Legal(op, st.hs.Keys) && Unlocked(st.hs)
    ensures Unlocked(Step(st, op).hs) && GoesThrough(st, op)
  {
    hide Paired, Bounded;
  }

  /** What the lock and the constant flag mean for the next write: taking the lock off lets it through again. */
  lemma FlagLaw<T>(st: State<T>, id: nat)
    requires WellFormed(st) && id in st.hs
    ensures Refuses(Step(st, SetConst(id)), id)
    ensures var n := st.counts[st.hs[id].count];
            && (Refuses(Step(st, ResetLock(id)), id) <==> st.hs[id].constref)
            && (Refuses(Step(st, SetLock(id)), id) <==> st.hs[id].constref || n > 1)
    ensures forall op: Op<T>, j: nat :: (op == SetLock(id) || op == ResetLock(id) || op == SetConst(id)) && j in st.hs ==>
              Step(st, op).objs == st.objs && Step(st, op).counts == st.counts &&
              (j != id ==> Step(st, op).hs[j] == st.hs[j]) && Step(st, op).hs[id].p == st.hs[id].p
  {}

  /** Copies take over what the handle is locked, constant or temporary for, and are never the last ones. */
  lemma CopiesTakeFlags<T>(st: State<T>, op: Op<T>)
    requires WellFormed(st) && Legal(op, st.hs.Keys) && (op.CopyTo? || op.AssignTo?)
    ensures var h, g := Step(st, op).hs[op.id], st.hs[op.src];
            h.locked == g.locked && h.constref == g.constref && h.tmp == g.tmp && !h.last && h.p == g.p && h.count == g.count
    ensures Step(st, op).objs == st.objs && forall j :: j in st.hs && j != op.id ==> Step(st, op).hs[j] == st.hs[j]
  {}

  // ----- The exact account of the counts -----

  /** By how much a count exceeds the number of handles that share it. */
  ghost function Slack<T>(st: State<T>, c: nat): int {
    if c < |st.counts| then st.counts[c] - |Sharing(st.hs, c)| else 0
  }

  function OneIf(b: bool): int {
    if b then 1 else 0
  }

  /** What an operation adds to the slack of a count. */
  ghost function Gain<T>(st: State<T>, op: Op<T>, c: nat): int
    requires WellFormed(st) && Legal(op, st.hs.Keys)
  {
    match op
    case AssignTo(id, src) => OneIf(st.hs[id].count == c) - OneIf(st.hs[src].constref && st.hs[src].count == c)
    case Drop(id) => OneIf(st.hs[id].count == c && (st.hs[id].last || st.hs[id].tmp))
    case SetTmp(id) => -OneIf(st.hs[id].count == c)
    case SetLast(id) => -OneIf(st.hs[id].count == c)
    case _ => 0
  }

  lemma PutShares(hs: map<nat, Handle>, id: nat, h: Handle, c: nat)
    ensures |Sharing(hs[id := h], c)| == |Sharing(hs, c)| + OneIf(h.count == c) - OneIf(id in hs && hs[id].count == c)
  {
    var s, r := Sharing(hs, c), Sharing(hs[id := h], c);
    if h.count == c {
      assert r == s + {id};
    } else {
      assert r == s - {id};
    }
  }

  lemma ShareAccount<T>(st: State<T>, op: Op<T>, c: nat)
    requires WellFormed(st) && (op.CopyTo? || op.AssignTo?) && Legal(op, st.hs.Keys)
    ensures Slack(Step(st, op), c) == Slack(st, c) + Gain(st, op, c)
  {
    var h := st.hs[op.src].(last := false);
    assert Step(st, op).hs == st.hs[op.id := h];
    PutShares(st.hs, op.id, h, c);
    hide Sharing;
  }

  lemma OwnAccount<T>(st: State<T>, op: Op<T>, c: nat)
    requires WellFormed(st) && (op.Make? || op.WriteTo?) && Legal(op, st.hs.Keys)
    ensures Slack(Step(st, op), c) == Slack(st, c)
  {
    if op.WriteTo? && (Refuses(st, op.id) || st.counts[st.hs[op.id].count] <= 1) {
      assert Step(st, op).hs == st.hs && Step(st, op).counts == st.counts;
    } else {
      var h := Step(st, op).hs[op.id];
      assert h.count == |st.counts| && Step(st, op).hs == st.hs[op.id := h];
      PutShares(st.hs, op.id, h, c);
      assert Sharing(st.hs, |st.counts|) == {};
      hide Sharing, Refuses;
    }
  }

  lemma DropAccount<T>(st: State<T>, op: Op<T>, c: nat)
    requires WellFormed(st) && op.Drop? && Legal(op, st.hs.Keys)
    ensures Slack(Step(st, op), c) == Slack(st, c) + Gain(st, op, c)
  {
    SharingDrop(st.hs, op.id, c);
    hide Sharing;
  }

  lemma FlagAccount<T>(st: State<T>, op: Op<T>, c: nat)
    requires WellFormed(st) && Legal(op, st.hs.Keys)
    requires op.SetLock? || op.ResetLock? || op.SetConst? || op.SetTmp? || op.SetLast?
    ensures Slack(Step(st, op), c) == Slack(st, c) + Gain(st, op, c)
  {
    var h := Step(st, op).hs[op.id];
    assert h.count == st.hs[op.id].count && Step(st, op).hs == st.hs[op.id := h];
    PutShares(st.hs, op.id, h, c);
    hide Sharing;
  }

  /** Every operation, flags included: the account is exact. */
  lemma StepAccount<T>(st: State<T>, op: Op<T>, c: nat)
    requires WellFormed(st) && Legal(op, st.hs.Keys)
    ensures Slack(Step(st, op), c) == Slack(st, c) + Gain(st, op, c)
  {
    hide Slack, Step;
    match op
    case Make(_, _) => OwnAccount(st, op, c);
    case WriteTo(_, _) => OwnAccount(st, op, c);
    case CopyTo(_, _) => ShareAccount(st, op, c);
    case AssignTo(_, _) => ShareAccount(st, op, c);
    case Drop(_) => DropAccount(st, op, c);
    case _ => FlagAccount(st, op, c);
  }

  /** How often a run assigns to a handle that has the count. */
  ghost function Overwrites<T>(st: State<T>, ops: seq<Op<T>>, c: nat): nat
    requires WellFormed(st) && LegalRun(ops, st.hs.Keys)
    decreases |ops|
  {
    if ops == [] then 0 else
      (if ops[0].AssignTo? && st.hs[ops[0].id].count == c then 1 else 0) + Overwrites(Step(st, ops[0]), ops[1..], c)
  }

  /** How often a run assigns from a constant handle that has the count. */
  ghost function ConstSources<T>(st: State<T>, ops: seq<Op<T>>, c: nat): nat
    requires WellFormed(st) && LegalRun(ops, st.hs.Keys)
    decreases |ops|
  {
    if ops == [] then 0 else
      (if ops[0].AssignTo? && st.hs[ops[0].src].constref && st.hs[ops[0].src].count == c then 1 else 0)
        + ConstSources(Step(st, ops[0]), ops[1..], c)
  }

  ghost predicate Lasting(hs: map<nat, Handle>) {
    forall i :: i in hs ==> !hs[i].tmp && !hs[i].last
  }

  /** The operations that leave the temporary and last flags alone. */
  predicate Lasts<T>(op: Op<T>) {
    !op.SetTmp? && !op.SetLast?
  }

  /** Objects and counts are shared alike, whatever the flags. */
  ghost predicate Tied<T>(st: State<T>) {
    WellFormed(st) && Paired(st.hs)
  }

  lemma LastingStep<T>(st: State<T>, op: Op<T>)
    requires WellFormed(st) && Legal(op, st.hs.Keys) && Lasts(op) && Lasting(st.hs)
    ensures Lasting(Step(st, op).hs)
  {}

  lemma TiedStep<T>(st: State<T>, op: Op<T>)
    requires Tied(st) && Legal(op, st.hs.Keys)
    ensures Tied(Step(st, op))
  {
    hide Paired;
    var r := Step(st, op);
    match op
    case Make(id, _) => OwnPaired(st.hs, id, r.hs[id]);
    case WriteTo(id, _) => if r.hs != st.hs { OwnPaired(st.hs, id, r.hs[id]); }
    case CopyTo(id, src) => PutPaired(st.hs, id, r.hs[id], src);
    case AssignTo(id, src) => PutPaired(st.hs, id, r.hs[id], src);
    case Drop(id) => DropPaired(st.hs, id);
    case _ => PutPaired(st.hs, op.id, r.hs[op.id], op.id);
  }

  lemma DropPaired(hs: map<nat, Handle>, id: nat)
    requires Paired(hs)
    ensures Paired(hs - {id})
  {}

  /** Over a run without temporary and last handles: the assignments over handles, less those from constant ones. */
  lemma {:induction false} RunAccount<T>(st: State<T>, ops: seq<Op<T>>, c: nat)
    requires Tied(st) && Lasting(st.hs) && LegalRun(ops, st.hs.Keys) && forall k :: 0 <= k < |ops| ==> Lasts(ops[k])
    ensures var r := RunFrom(st, ops);
            Tied(r) && Lasting(r.hs) && Slack(r, c) == Slack(st, c) + Overwrites(st, ops, c) - ConstSources(st, ops, c)
    decreases |ops|
  {
    if ops != [] {
      TiedStep(st, ops[0]);
      LastingStep(st, ops[0]);
      StepAccount(st, ops[0], c);
      GainIs(st, ops[0], c);
      hide Paired, Lasting, Slack, Step, Gain, Lasts;
      RunAccount(Step(st, ops[0]), ops[1..], c);
    }
  }

  lemma GainIs<T>(st: State<T>, op: Op<T>, c: nat)
    requires WellFormed(st) && Legal(op, st.hs.Keys) && Lasts(op) && Lasting(st.hs)
    ensures Gain(st, op, c) == if op.AssignTo?
                               then OneIf(st.hs[op.id].count == c) - OneIf(st.hs[op.src].constref && st.hs[op.src].count == c)
                               else 0
  {}

  /** Nothing allocated, no handles. */
  function Nothing<T>(): (st: State<T>)
    ensures st.hs.Keys == {}
  {
    State([], [], map[])
  }

  ghost function After<T>(ops: seq<Op<T>>): (r: State<T>)
    requires LegalRun(ops, {})
    ensures WellFormed(r)
  {
    RunFrom(Nothing(), ops)
  }

  lemma NothingHeld<T>(c: nat)
    ensures var st: State<T> := Nothing(); Tied(st) && Lasting(st.hs) && Flagless(st.hs) && Slack(st, c) == 0
  {}

  lemma {:induction false} NoConstSources<T>(st: State<T>, ops: seq<Op<T>>, c: nat)
    requires WellFormed(st) && Flagless(st.hs) && LegalRun(ops, st.hs.Keys) && forall k :: 0 <= k < |ops| ==> Plain(ops[k])
    ensures ConstSources(st, ops, c) == 0 && Flagless(RunFrom(st, ops).hs)
    decreases |ops|
  {
    if ops != [] {
      FlaglessStep(st, ops[0]);
      assert ops[0].AssignTo? ==> !st.hs[ops[0].src].constref;
      hide Step, Flagless, Plain;
      NoConstSources(Step(st, ops[0]), ops[1..], c);
    }
  }

  lemma FlaglessStep<T>(st: State<T>, op: Op<T>)
    requires WellFormed(st) && Legal(op, st.hs.Keys) && Plain(op) && Flagless(st.hs)
    ensures Flagless(Step(st, op).hs)
  {}

  /**
   * After any plain run from the start, a locked handle refuses a write exactly when another handle shares its object
   * or some assignment has been made over a handle that shared it; so a handle that shares with nobody is refused
   * exactly because of such assignments.
   */
  lemma LockedRefusesWhen<T>(ops: seq<Op<T>>, id: nat)
    requires LegalRun(ops, {}) && forall k :: 0 <= k < |ops| ==> Plain(ops[k])
    requires id in After(ops).hs && After(ops).hs[id].locked
    ensures var r := After(ops); var c := r.hs[id].count;
            && (Refuses(r, id) <==> |Sharing(r.hs, c)| > 1 || Overwrites(Nothing(), ops, c) > 0)
            && (Sharing(r.hs, c) == {id} ==> (Refuses(r, id) <==> Overwrites(Nothing(), ops, c) > 0))
  {
    var st: State<T> := Nothing();
    var r := After(ops);
    var c := r.hs[id].count;
    NothingHeld<T>(c);
    hide Nothing, Plain;
    RunAccount(st, ops, c);
    NoConstSources(st, ops, c);
    hide RunFrom, Overwrites, ConstSources, Paired, Lasting;
    assert !r.hs[id].constref;
    HasSharer(r.hs, id);
    hide Sharing, Flagless;
  }

  lemma HasSharer(hs: map<nat, Handle>, id: nat)
    requires id in hs
    ensures |Sharing(hs, hs[id].count)| >= 1
  {
    assert id in Sharing(hs, hs[id].count);
    SmallerSet({id}, Sharing(hs, hs[id].count));
    assert |{id}| == 1;
  }

  /** A write through one handle is seen through another that shares its object exactly when the count lets it in place. */
  lemma SeenWhen<T>(st: State<T>, id: nat, j: nat, v: T)
    requires Tied(st) && id in st.hs && j in st.hs && j != id && st.hs[j].p == st.hs[id].p
    requires !st.hs[id].constref && v != View(st)[j]
    ensures View(Step(st, WriteTo(id, v)))[j] == v <==> st.counts[st.hs[id].count] <= 1
  {
    hide Paired;
  }

  /**
   * After any run from the start without temporary and last handles, a write through an ordinary handle is seen
   * through another one exactly when the assignments from constant handles have made up for the sharers but one and
   * for all the assignments over handles.
   */
  lemma ConstSharesWhen<T>(ops: seq<Op<T>>, id: nat, j: nat, v: T)
    requires LegalRun(ops, {}) && forall k :: 0 <= k < |ops| ==> Lasts(ops[k])
    requires var r := After(ops);
             && id in r.hs && j in r.hs && j != id && r.hs[j].p == r.hs[id].p && !r.hs[id].constref && v != View(r)[j]
    ensures var r := After(ops); var c := r.hs[id].count;
            && Legal(WriteTo(id, v), r.hs.Keys)
            && (View(Step(r, WriteTo(id, v)))[j] == v <==>
                |Sharing(r.hs, c)| + Overwrites(Nothing(), ops, c) <= 1 + ConstSources(Nothing(), ops, c))
  {
    var st: State<T> := Nothing();
    var r := After(ops);
    var c := r.hs[id].count;
    NothingHeld<T>(c);
    hide Nothing, Lasts;
    RunAccount(st, ops, c);
    hide RunFrom, Overwrites, ConstSources, Sharing, Lasting, Paired;
    SeenWhen(r, id, j, v);
    hide View, Step;
  }

  /**
   * An instance: two handles share an object, one of them is assigned another object and the first is locked.  It
   * shares with nobody, and refuses every write.
   */
  lemma LockedAloneRefuses<T>(st: State<T>, id: nat, other: nat, src: nat)
    requires Sound(st) && id in st.hs && other in st.hs && src in st.hs
    requires Sharing(st.hs, st.hs[id].count) == {id, other} && id != other && st.hs[src].count != st.hs[id].count
    ensures var a := Step(st, AssignTo(other, src)); var r := Step(a, SetLock(id));
            Sharing(r.hs, r.hs[id].count) == {id} && Refuses(r, id)
  {
    var c := st.hs[id].count;
    var a := Step(st, AssignTo(other, src));
    var r := Step(a, SetLock(id));
    assert other in Sharing(st.hs, c) && |{id, other}| == 2;
    assert Sharing(r.hs, c) == Sharing(st.hs, c) - {other};
    hide Paired, Sharing;
  }

  /**
   * A constant handle spoils the counts: assigning from it adds nothing, and its end takes one away. Here two handles
   * remain that share an object with a count of one, and a write through the first is seen through the second.
   */
  lemma ConstAssignmentShares(s: seq<State<int>>)
    requires |s| == 9 && s[0] == State([], [], map[])
    requires s[1] == Step(s[0], Make(0, 5)) && s[2] == Step(s[1], CopyTo(1, 0)) && s[3] == Step(s[2], SetConst(1))
    requires s[4] == Step(s[3], CopyTo(3, 0)) && s[5] == Step(s[4], Make(2, 6)) && s[6] == Step(s[5], AssignTo(2, 1))
    requires s[7] == Step(s[6], Drop(2)) && s[8] == Step(s[7], Drop(1))
    ensures s[8].hs.Keys == {0, 3} && Flagless(s[8].hs)
    ensures View(s[8])[3] == 5 && View(Step(s[8], WriteTo(0, 7)))[3] == 7
  {
    var h, c := Handle(0, 0, false, false, false, false), Handle(0, 0, false, true, false, false);
    hide *;
    ConstStarts(s[0], s[1], s[2], s[3], s[4], h, c);
    ConstEnds(s[4], s[5], s[6], s[7], s[8], h, c);
  }

  lemma ConstStarts(s0: State<int>, s1: State<int>, s2: State<int>, s3: State<int>, s4: State<int>, h: Handle, c: Handle)
    requires h == Handle(0, 0, false, false, false, false) && c == h.(constref := true)
    requires s0 == State([], [], map[]) && s1 == Step(s0, Make(0, 5)) && s2 == Step(s1, CopyTo(1, 0))
    requires s3 == Step(s2, SetConst(1)) && s4 == Step(s3, CopyTo(3, 0))
    ensures s4 == State([5], [3], map[0 := h, 1 := c, 3 := h])
  {
    assert s2 == State([5], [2], map[0 := h, 1 := h]);
  }

  lemma ConstAssigned(s4: State<int>, h: Handle, c: Handle)
    requires h == Handle(0, 0, false, false, false, false) && c == h.(constref := true)
    requires s4 == State([5], [3], map[0 := h, 1 := c, 3 := h])
    ensures Step(Step(s4, Make(2, 6)), AssignTo(2, 1)) == State([5, 6], [3, 1], map[0 := h, 1 := c, 2 := c, 3 := h])
  {
    var h2 := Handle(1, 1, false, false, false, false);
    assert Step(s4, Make(2, 6)) == State([5, 6], [3, 1], map[0 := h, 1 := c, 2 := h2, 3 := h]);
  }

  lemma ConstDropped(s6: State<int>, h: Handle, c: Handle)
    requires h == Handle(0, 0, false, false, false, false) && c == h.(constref := true)
    requires s6 == State([5, 6], [3, 1], map[0 := h, 1 := c, 2 := c, 3 := h])
    ensures Step(Step(s6, Drop(2)), Drop(1)) == State([5, 6], [1, 1], map[0 := h, 3 := h])
  {
    assert Step(s6, Drop(2)) == State([5, 6], [2, 1], map[0 := h, 1 := c, 3 := h]);
  }

  lemma ConstEnds(s4: State<int>, s5: State<int>, s6: State<int>, s7: State<int>, s8: State<int>, h: Handle, c: Handle)
    requires h == Handle(0, 0, false, false, false, false) && c == h.(constref := true)
    requires s4 == State([5], [3], map[0 := h, 1 := c, 3 := h])
    requires s5 == Step(s4, Make(2, 6)) && s6 == Step(s5, AssignTo(2, 1)) && s7 == Step(s6, Drop(2)) && s8 == Step(s7, Drop(1))
    ensures s8.hs.Keys == {0, 3} && Flagless(s8.hs)
    ensures View(s8)[3] == 5 && View(Step(s8, WriteTo(0, 7)))[3] == 7
  {
    ConstAssigned(s4, h, c);
    ConstDropped(s6, h, c);
    hide Step;
    LastWriteIsSeen(s8, h);
  }

  lemma LastWriteIsSeen(s: State<int>, h: Handle)
    requires h == Handle(0, 0, false, false, false, false) && s == State([5, 6], [1, 1], map[0 := h, 3 := h])
    ensures View(s)[3] == 5 && View(Step(s, WriteTo(0, 7)))[3] == 7
  {
    assert Step(s, WriteTo(0, 7)) == State([7, 6], [1, 1], map[0 := h, 3 := h]);
  }
}
