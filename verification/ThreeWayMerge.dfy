/** Three-way merge of collections. */
module ThreeWayMerge {

  // The co-iteration of the diffs of two maps, sets or structs, and the pointwise merge it computes.

  import opened Options
  import opened StructDiffs
  import opened Values

  /** How a conflict is resolved: not at all, or in favour of one candidate. */
  datatype Resolver = NoResolver | Ours | Theirs

  function Flip(r: Resolver): Resolver
  {
    match r
    case NoResolver => NoResolver
    case Ours => Theirs
    case Theirs => Ours
  }

  /** A merge succeeds, finds a conflict, or fails because a diff does. */
  datatype Result = Merged(value: Value) | Conflict | Failed

  /** The outcome under one key: what stays there, if anything, or a conflict or failure. */
  datatype Outcome = Keep(value: Option<Value>) | Clash | Fail

  predicate Unmergeable(a: Option<Value>, b: Option<Value>)
  {
    a.None? || b.None? || KindOf(a.value) != KindOf(b.value) || a.value.Prim?
  }

  function Resolve(a: Option<Value>, b: Option<Value>, res: Resolver): Outcome
  {
    match res
    case NoResolver => Clash
    case Ours => Keep(a)
    case Theirs => Keep(b)
  }

  /** The candidates and the parent are collections of one kind; structs have one name. */
  predicate Mergeable(a: Value, b: Value, p: Option<Value>)
  {
    && Compound(a)
    && KindOf(a) == KindOf(b)
    && (a.StructV? ==> a.name == b.name)
    && (p.Some? ==> KindOf(p.value) == KindOf(a))
  }

  /** A missing parent counts as an empty collection. */
  function Base(a: Value, p: Option<Value>): Value
  {
    if p.Some? then p.value else Rebuild(a, map[])
  }

  // ----- The pointwise merge -----

  function ThreeWay(a: Value, b: Value, p: Option<Value>, res: Resolver): Result
    decreases a, 2
  {
    if !Mergeable(a, b, p) then Conflict
    else
      if exists k :: k in KeysOf(a, b, p) && MergeAt(a, b, p, res, k).Clash? then Conflict
      else Merged(Rebuild(Base(a, p), Kept(a, b, p, res)))
  }

  function Kept(a: Value, b: Value, p: Option<Value>, res: Resolver): map<Key, Value>
    requires Mergeable(a, b, p)
    decreases a, 1
  {
    map k | k in KeysOf(a, b, p) && HasValue(MergeAt(a, b, p, res, k))
        :: MergeAt(a, b, p, res, k).value.value
  }

  predicate HasValue(o: Outcome)
  {
    o.Keep? && o.value.Some?
  }

  function MergeAt(a: Value, b: Value, p: Option<Value>, res: Resolver, k: Key): Outcome
    requires Mergeable(a, b, p)
    decreases a, 0
  {
    var av, bv, pv := Get(Children(a), k), Get(Children(b), k), Get(Children(Base(a, p)), k);
    if bv == pv then Keep(av)
    else if av == pv then Keep(bv)
    else if ChangeOf(pv, av) != ChangeOf(pv, bv) then Resolve(av, bv, res)
    else if av == bv then Keep(av)
    else if Unmergeable(av, bv) then Resolve(av, bv, res)
    else
      var r := ThreeWay(av.value, bv.value, pv, res);
      if r.Merged? then Keep(Some(r.value)) else Clash
  }

  // ----- What the co-iteration computes -----

  /**
   * The merge as the co-iteration of the two diffs makes it: as the pointwise merge, but from what the diffs report. A
   * field that a diff loses counts as unchanged, and the side that reports a field more often has the last word on it.
   */
  ghost function Coiterated(a: Value, b: Value, p: Option<Value>, res: Resolver, garbled: Garbled): Result
    decreases a, 3
  {
    if !Mergeable(a, b, p) then Conflict
    else if Unreadable(a, Base(a, p), garbled) || Unreadable(b, Base(a, p), garbled) then Failed
    else if exists k :: FirstClash(a, b, p, res, garbled, k) then Conflict
    else if exists k :: k in KeysOf(a, b, p) && !CoAt(a, b, p, res, garbled, k).Keep? then Failed
    else Merged(Rebuild(Base(a, p), CoKept(a, b, p, res, garbled)))
  }

  ghost function CoKept(a: Value, b: Value, p: Option<Value>, res: Resolver, garbled: Garbled): map<Key, Value>
    requires Mergeable(a, b, p)
    decreases a, 2
  {
    map k | k in KeysOf(a, b, p) && HasValue(CoAt(a, b, p, res, garbled, k))
        :: CoAt(a, b, p, res, garbled, k).value.value
  }

  /** The first key that does not merge is one that clashes. */
  ghost predicate FirstClash(a: Value, b: Value, p: Option<Value>, res: Resolver, garbled: Garbled, k: Key)
    requires Mergeable(a, b, p)
    decreases a, 2
  {
    && k in KeysOf(a, b, p) && CoAt(a, b, p, res, garbled, k).Clash?
    && forall j :: j in KeysOf(a, b, p) && j < k ==> CoAt(a, b, p, res, garbled, j).Keep?
  }

  ghost function CoAt(a: Value, b: Value, p: Option<Value>, res: Resolver, garbled: Garbled, k: Key): Outcome
    requires Mergeable(a, b, p)
    decreases a, 1
  {
    Settled(a, b, p, res, garbled, k, Reports(a, Base(a, p), k), Reports(b, Base(a, p), k))
  }

  /** The outcome after x reports of the key by a and y reports by b. */
  ghost function Settled(
      a: Value, b: Value, p: Option<Value>, res: Resolver, garbled: Garbled, k: Key, x: nat, y: nat): Outcome
    requires Mergeable(a, b, p)
    decreases a, 0, 1
  {
    var av, bv, pv := Get(Children(a), k), Get(Children(b), k), Get(Children(Base(a, p)), k);
    if x == 0 && y == 0 then Keep(pv)
    else if y == 0 then Keep(av)
    else if x == 0 then Keep(bv)
    else
      var both := BothAt(a, b, p, res, garbled, k);
      if !both.Keep? || x == y then both else if x > y then Keep(av) else Keep(bv)
  }

  /** The outcome of merging two changes of one key. */
  ghost function BothAt(a: Value, b: Value, p: Option<Value>, res: Resolver, garbled: Garbled, k: Key): Outcome
    requires Mergeable(a, b, p)
    decreases a, 0, 0
  {
    var av, bv, pv := Get(Children(a), k), Get(Children(b), k), Get(Children(Base(a, p)), k);
    if ChangeOf(pv, av) != ChangeOf(pv, bv) then Resolve(av, bv, res)
    else if av == bv then Keep(av)
    else if Unmergeable(av, bv) then Resolve(av, bv, res)
    else FromResult(Coiterated(av.value, bv.value, pv, res, garbled))
  }

  function FromResult(r: Result): Outcome
  {
    match r
    case Merged(v) => Keep(Some(v))
    case Conflict => Clash
    case Failed => Fail
  }

  /** The outcome under a key, with the outcome of merging two changes. */
  lemma Unfolded(a: Value, b: Value, p: Option<Value>, res: Resolver, garbled: Garbled, k: Key)
    requires Mergeable(a, b, p)
    ensures var av, bv, pv := Get(Children(a), k), Get(Children(b), k), Get(Children(Base(a, p)), k);
            var x, y := Reports(a, Base(a, p), k), Reports(b, Base(a, p), k);
            && (x == 0 && y == 0 ==> CoAt(a, b, p, res, garbled, k) == Keep(pv))
            && (x > 0 && y == 0 ==> CoAt(a, b, p, res, garbled, k) == Keep(av))
            && (x == 0 && y > 0 ==> CoAt(a, b, p, res, garbled, k) == Keep(bv))
            && (x == y > 0 ==> CoAt(a, b, p, res, garbled, k) == BothAt(a, b, p, res, garbled, k))
    ensures var av, bv, pv := Get(Children(a), k), Get(Children(b), k), Get(Children(Base(a, p)), k);
            && (av != bv && (ChangeOf(pv, av) != ChangeOf(pv, bv) || Unmergeable(av, bv)) ==>
                  BothAt(a, b, p, res, garbled, k) == Resolve(av, bv, res))
            && (av == bv ==> BothAt(a, b, p, res, garbled, k) == Keep(av))
            && (ChangeOf(pv, av) == ChangeOf(pv, bv) && av != bv && !Unmergeable(av, bv) ==>
                  BothAt(a, b, p, res, garbled, k) == FromResult(Coiterated(av.value, bv.value, pv, res, garbled)))
  {
    hide Coiterated, Reports;
    var x, y := Reports(a, Base(a, p), k), Reports(b, Base(a, p), k);
    assert CoAt(a, b, p, res, garbled, k) == Settled(a, b, p, res, garbled, k, x, y);
  }

  /** All keys are kept: the merge is made of what is kept. */
  lemma CoAllKept(a: Value, b: Value, p: Option<Value>, res: Resolver, garbled: Garbled, m: map<Key, Value>)
    requires Mergeable(a, b, p) && forall k :: CoAt(a, b, p, res, garbled, k) == Keep(Get(m, k))
    requires !Unreadable(a, Base(a, p), garbled) && !Unreadable(b, Base(a, p), garbled)
    ensures Coiterated(a, b, p, res, garbled) == Merged(Rebuild(Base(a, p), m))
  {
    hide CoAt, Mergeable, Base, Unreadable, Get, KeysOf;
    CoKeptIs(a, b, p, res, garbled, m);
  }

  lemma CoKeptIs(a: Value, b: Value, p: Option<Value>, res: Resolver, garbled: Garbled, m: map<Key, Value>)
    requires Mergeable(a, b, p) && forall k :: CoAt(a, b, p, res, garbled, k) == Keep(Get(m, k))
    ensures CoKept(a, b, p, res, garbled) == m
  {
    hide *;
    forall k ensures Get(CoKept(a, b, p, res, garbled), k) == Get(m, k) {
      CoKeptAt(a, b, p, res, garbled, k);
    }
    SameMaps(CoKept(a, b, p, res, garbled), m);
  }

  lemma CoKeptAt(a: Value, b: Value, p: Option<Value>, res: Resolver, garbled: Garbled, k: Key)
    requires Mergeable(a, b, p) && CoAt(a, b, p, res, garbled, k).Keep?
    ensures CoAt(a, b, p, res, garbled, k) == Keep(Get(CoKept(a, b, p, res, garbled), k))
  {
    hide CoAt, Mergeable, KeysOf;
    if k !in KeysOf(a, b, p) {
      CoAbsent(a, b, p, res, garbled, k);
    }
  }

  lemma CoAbsent(a: Value, b: Value, p: Option<Value>, res: Resolver, garbled: Garbled, k: Key)
    requires Mergeable(a, b, p) && k !in KeysOf(a, b, p)
    ensures CoAt(a, b, p, res, garbled, k) == Keep(None)
  {
    hide BothAt;
  }

  /** What is kept is one that may stand in the collection. */
  lemma CoFits(a: Value, b: Value, p: Option<Value>, res: Resolver, garbled: Garbled, k: Key, x: nat, y: nat)
    requires Mergeable(a, b, p) && Settled(a, b, p, res, garbled, k, x, y).Keep?
    ensures Fits(Base(a, p), k, Settled(a, b, p, res, garbled, k, x, y).value)
  {
    hide Coiterated;
  }

  /** What a successful merge holds under a key. */
  lemma CoMergedAt(a: Value, b: Value, p: Option<Value>, res: Resolver, garbled: Garbled, k: Key)
    requires Coiterated(a, b, p, res, garbled).Merged?
    ensures Mergeable(a, b, p)
    ensures CoAt(a, b, p, res, garbled, k) == Keep(Get(Children(Coiterated(a, b, p, res, garbled).value), k))
  {
    hide CoAt, CoKept, Children, Get, Rebuild, Base, Unreadable, FirstClash, Mergeable, KeysOf;
    CoKeptChildren(a, b, p, res, garbled);
    if k !in KeysOf(a, b, p) {
      CoAbsent(a, b, p, res, garbled, k);
    }
    CoKeptAt(a, b, p, res, garbled, k);
  }

  lemma CoKeptChildren(a: Value, b: Value, p: Option<Value>, res: Resolver, garbled: Garbled)
    requires Mergeable(a, b, p)
    ensures Children(Rebuild(Base(a, p), CoKept(a, b, p, res, garbled))) == CoKept(a, b, p, res, garbled)
  {
    hide Settled, Reports;
    forall k | k in CoKept(a, b, p, res, garbled)
      ensures Fits(Base(a, p), k, Some(CoKept(a, b, p, res, garbled)[k]))
    {
      CoFits(a, b, p, res, garbled, k, Reports(a, Base(a, p), k), Reports(b, Base(a, p), k));
    }
  }

  // ----- The co-iteration -----

  /** The value a candidate gives for a key; a set gives any key back. */
  function CandidateGet(v: Value, k: Key): Option<Value>
  {
    if v.SetV? then Some(Prim(k)) else Get(Children(v), k)
  }

  /** Edit one key of the merged collection. */
  function ApplyChange(target: Value, kind: ChangeType, k: Key, v: Option<Value>): Value
  {
    if kind.Removed? || v.None? then Rebuild(target, Children(target) - {k})
    else Rebuild(target, Children(target)[k := v.value])
  }

  /** v has the kind, and the struct name, of base. */
  predicate Shaped(v: Value, base: Value)
  {
    v == Rebuild(base, Children(v))
  }

  /** What may stand under key k in a collection like base. */
  predicate Fits(base: Value, k: Key, v: Option<Value>)
  {
    base.SetV? && v.Some? ==> v.value == Prim(k)
  }

  lemma ApplyPuts(target: Value, base: Value, kind: ChangeType, k: Key, v: Option<Value>, kept: Option<Value>)
    requires Compound(base) && Shaped(target, base) && Fits(base, k, kept)
    requires kept == if kind.Removed? then None else v
    ensures var r := ApplyChange(target, kind, k, v); Shaped(r, base) && Children(r) == Put(Children(target), k, kept)
  {
  }

  // ----- Progress of the co-iteration -----

  /** Under every key the merged collection is as settled by the reports so far. */
  ghost predicate Progress(a: Value, b: Value, p: Option<Value>, res: Resolver, garbled: Garbled,
                           ac: seq<Change>, i: nat, bc: seq<Change>, j: nat, m: map<Key, Value>)
    requires Mergeable(a, b, p)
  {
    && i <= |ac| && j <= |bc|
    && forall k :: ProgressAt(a, b, p, res, garbled, Occurs(ac[..i], k), Occurs(bc[..j], k), Get(m, k), k)
  }

  /** One side is ahead of the other under a key only if the other has no more reports of it. */
  ghost predicate ProgressAt(a: Value, b: Value, p: Option<Value>, res: Resolver, garbled: Garbled,
                             x: nat, y: nat, v: Option<Value>, k: Key)
    requires Mergeable(a, b, p)
  {
    && Settled(a, b, p, res, garbled, k, x, y) == Keep(v)
    && (x > y ==> y == Reports(b, Base(a, p), k))
    && (y > x ==> x == Reports(a, Base(a, p), k))
  }

  /** All reports of a key that lies before the next one have been handled. */
  lemma {:induction false} AllBefore(changes: seq<Change>, i: nat, k: Key)
    requires Rising(changes) && i <= |changes| && (i < |changes| ==> k < changes[i].key)
    ensures Occurs(changes[..i], k) == Occurs(changes, k)
  {
    if i == |changes| {
      assert changes[..i] == changes;
    } else {
      var n := |changes| - 1;
      AllBefore(changes[..n], i, k);
      assert changes[..n][..i] == changes[..i];
    }
  }

  /** Handling the next report. */
  lemma OneMore(changes: seq<Change>, i: nat, k: Key)
    requires i < |changes|
    ensures Occurs(changes[..i + 1], k) == Occurs(changes[..i], k) + if changes[i].key == k then 1 else 0
    ensures changes[i].key == k ==> Occurs(changes[..i], k) < Occurs(changes, k)
  {
    hide Occurs;
    assert changes[..i + 1] == changes[..i] + [changes[i]];
    OccursAppend(changes[..i], changes[i], k);
    OccursUpTo(changes, i + 1, k);
  }

  lemma ProgressStart(a: Value, b: Value, p: Option<Value>, res: Resolver, garbled: Garbled,
                      ac: seq<Change>, bc: seq<Change>)
    requires Mergeable(a, b, p)
    ensures Progress(a, b, p, res, garbled, ac, 0, bc, 0, Children(Base(a, p)))
  {
    hide Mergeable, Base, Children, Get, BothAt, Reports;
  }

  /** The two reports of a merge. */
  ghost predicate Reported(a: Value, b: Value, p: Option<Value>, ac: seq<Change>, bc: seq<Change>)
  {
    IsReport(ac, a, Base(a, p)) && IsReport(bc, b, Base(a, p))
  }

  lemma PutGet(m: map<Key, Value>, k: Key, v: Option<Value>, j: Key)
    ensures Get(Put(m, k, v), j) == if j == k then v else Get(m, j)
  {
  }

  /** One more report by a, when b has no more. */
  lemma SettledA(a: Value, b: Value, p: Option<Value>, res: Resolver, garbled: Garbled,
                 x: nat, y: nat, v: Option<Value>, k: Key)
    requires Mergeable(a, b, p) && ProgressAt(a, b, p, res, garbled, x, y, v, k)
    requires x < Reports(a, Base(a, p), k) && y == Reports(b, Base(a, p), k)
    ensures ProgressAt(a, b, p, res, garbled, x + 1, y, Get(Children(a), k), k)
  {
    hide BothAt, Reports, Mergeable;
  }

  lemma SettledB(a: Value, b: Value, p: Option<Value>, res: Resolver, garbled: Garbled,
                 x: nat, y: nat, v: Option<Value>, k: Key)
    requires Mergeable(a, b, p) && ProgressAt(a, b, p, res, garbled, x, y, v, k)
    requires x == Reports(a, Base(a, p), k) && y < Reports(b, Base(a, p), k)
    ensures ProgressAt(a, b, p, res, garbled, x, y + 1, Get(Children(b), k), k)
  {
    hide BothAt, Reports, Mergeable;
  }

  lemma SettledBoth(a: Value, b: Value, p: Option<Value>, res: Resolver, garbled: Garbled,
                    x: nat, y: nat, v: Option<Value>, k: Key, w: Option<Value>)
    requires Mergeable(a, b, p) && ProgressAt(a, b, p, res, garbled, x, y, v, k)
    requires x < Reports(a, Base(a, p), k) && y < Reports(b, Base(a, p), k)
    requires BothAt(a, b, p, res, garbled, k) == Keep(w)
    ensures ProgressAt(a, b, p, res, garbled, x + 1, y + 1, w, k)
  {
    hide BothAt, Reports, Mergeable;
  }

  /** The next report is of a alone. */
  lemma StepA(a: Value, b: Value, p: Option<Value>, res: Resolver, garbled: Garbled,
              ac: seq<Change>, i: nat, bc: seq<Change>, j: nat, m: map<Key, Value>)
    requires Mergeable(a, b, p) && Reported(a, b, p, ac, bc) && Progress(a, b, p, res, garbled, ac, i, bc, j, m)
    requires i < |ac| && (j == |bc| || ac[i].key < bc[j].key)
    ensures var k := ac[i].key;
            Progress(a, b, p, res, garbled, ac, i + 1, bc, j, Put(m, k, Get(Children(a), k)))
  {
    hide Mergeable, Base, Children, Settled, Reports, Occurs, Get, Put, ProgressAt;
    var k0 := ac[i].key;
    AllBefore(bc, j, k0);
    forall k
      ensures ProgressAt(a, b, p, res, garbled, Occurs(ac[..i + 1], k), Occurs(bc[..j], k),
                Get(Put(m, k0, Get(Children(a), k0)), k), k)
    {
      OneMore(ac, i, k);
      PutGet(m, k0, Get(Children(a), k0), k);
      assert ProgressAt(a, b, p, res, garbled, Occurs(ac[..i], k), Occurs(bc[..j], k), Get(m, k), k);
      if k == k0 {
        SettledA(a, b, p, res, garbled, Occurs(ac[..i], k), Occurs(bc[..j], k), Get(m, k), k);
      }
    }
  }

  /** The next report is of b alone. */
  lemma StepB(a: Value, b: Value, p: Option<Value>, res: Resolver, garbled: Garbled,
              ac: seq<Change>, i: nat, bc: seq<Change>, j: nat, m: map<Key, Value>)
    requires Mergeable(a, b, p) && Reported(a, b, p, ac, bc) && Progress(a, b, p, res, garbled, ac, i, bc, j, m)
    requires j < |bc| && (i == |ac| || bc[j].key < ac[i].key)
    ensures var k := bc[j].key;
            Progress(a, b, p, res, garbled, ac, i, bc, j + 1, Put(m, k, Get(Children(b), k)))
  {
    hide Mergeable, Base, Children, Settled, Reports, Occurs, Get, Put, ProgressAt;
    var k0 := bc[j].key;
    AllBefore(ac, i, k0);
    forall k
      ensures ProgressAt(a, b, p, res, garbled, Occurs(ac[..i], k), Occurs(bc[..j + 1], k),
                Get(Put(m, k0, Get(Children(b), k0)), k), k)
    {
      OneMore(bc, j, k);
      PutGet(m, k0, Get(Children(b), k0), k);
      assert ProgressAt(a, b, p, res, garbled, Occurs(ac[..i], k), Occurs(bc[..j], k), Get(m, k), k);
      if k == k0 {
        SettledB(a, b, p, res, garbled, Occurs(ac[..i], k), Occurs(bc[..j], k), Get(m, k), k);
      }
    }
  }

  /** Both report the same key next. */
  lemma StepBoth(a: Value, b: Value, p: Option<Value>, res: Resolver, garbled: Garbled,
                 ac: seq<Change>, i: nat, bc: seq<Change>, j: nat, m: map<Key, Value>, v: Option<Value>)
    requires Mergeable(a, b, p) && Reported(a, b, p, ac, bc) && Progress(a, b, p, res, garbled, ac, i, bc, j, m)
    requires i < |ac| && j < |bc| && ac[i].key == bc[j].key
    requires BothAt(a, b, p, res, garbled, ac[i].key) == Keep(v)
    ensures Progress(a, b, p, res, garbled, ac, i + 1, bc, j + 1, Put(m, ac[i].key, v))
  {
    hide Mergeable, Base, Children, Settled, BothAt, Reports, Occurs, Get, Put, ProgressAt;
    var k0 := ac[i].key;
    forall k
      ensures ProgressAt(a, b, p, res, garbled, Occurs(ac[..i + 1], k), Occurs(bc[..j + 1], k),
                Get(Put(m, k0, v), k), k)
    {
      OneMore(ac, i, k);
      OneMore(bc, j, k);
      PutGet(m, k0, v, k);
      assert ProgressAt(a, b, p, res, garbled, Occurs(ac[..i], k), Occurs(bc[..j], k), Get(m, k), k);
      if k == k0 {
        SettledBoth(a, b, p, res, garbled, Occurs(ac[..i], k), Occurs(bc[..j], k), Get(m, k), k, v);
      }
    }
  }

  /** With all reports handled the merged collection is the result. */
  lemma ProgressEnd(a: Value, b: Value, p: Option<Value>, res: Resolver, garbled: Garbled,
                    ac: seq<Change>, bc: seq<Change>, merged: Value)
    requires Mergeable(a, b, p) && Shaped(merged, Base(a, p)) && Reported(a, b, p, ac, bc)
    requires !Unreadable(a, Base(a, p), garbled) && !Unreadable(b, Base(a, p), garbled)
    requires Progress(a, b, p, res, garbled, ac, |ac|, bc, |bc|, Children(merged))
    ensures Coiterated(a, b, p, res, garbled) == Merged(merged)
  {
    hide Settled, Mergeable, Base, Shaped, Coiterated, Children, Rebuild, Unreadable, Occurs, Reports, Get;
    assert ac[..|ac|] == ac && bc[..|bc|] == bc;
    var m := Children(merged);
    forall k ensures CoAt(a, b, p, res, garbled, k) == Keep(Get(m, k)) {
      assert ProgressAt(a, b, p, res, garbled, Occurs(ac[..|ac|], k), Occurs(bc[..|bc|], k), Get(m, k), k);
    }
    CoAllKept(a, b, p, res, garbled, m);
    ShapedIs(merged, Base(a, p));
  }

  /** The changes of one key do not merge: the co-iteration ends there. */
  lemma Stops(a: Value, b: Value, p: Option<Value>, res: Resolver, garbled: Garbled,
              ac: seq<Change>, i: nat, bc: seq<Change>, j: nat, m: map<Key, Value>)
    requires Mergeable(a, b, p) && Reported(a, b, p, ac, bc) && Progress(a, b, p, res, garbled, ac, i, bc, j, m)
    requires !Unreadable(a, Base(a, p), garbled) && !Unreadable(b, Base(a, p), garbled)
    requires i < |ac| && j < |bc| && ac[i].key == bc[j].key
    requires !BothAt(a, b, p, res, garbled, ac[i].key).Keep?
    ensures Coiterated(a, b, p, res, garbled) ==
            if BothAt(a, b, p, res, garbled, ac[i].key).Clash? then Conflict else Failed
  {
    hide Mergeable, Base, Children, BothAt, Reports, Occurs, Unreadable, Get, KeysOf, CoKept;
    var k0 := ac[i].key;
    OneMore(ac, i, k0);
    OneMore(bc, j, k0);
    assert CoAt(a, b, p, res, garbled, k0) == BothAt(a, b, p, res, garbled, k0);
    KeyOfMerge(a, b, p, res, garbled, k0);
    forall k | k < k0 ensures CoAt(a, b, p, res, garbled, k).Keep? {
      AllBefore(ac, i, k);
      AllBefore(bc, j, k);
      assert ProgressAt(a, b, p, res, garbled, Occurs(ac[..i], k), Occurs(bc[..j], k), Get(m, k), k);
    }
    FirstDecides(a, b, p, res, garbled, k0);
  }

  lemma KeyOfMerge(a: Value, b: Value, p: Option<Value>, res: Resolver, garbled: Garbled, k: Key)
    requires Mergeable(a, b, p) && !CoAt(a, b, p, res, garbled, k).Keep?
    ensures k in KeysOf(a, b, p)
  {
    hide KeysOf, CoAt;
    if k !in KeysOf(a, b, p) {
      CoAbsent(a, b, p, res, garbled, k);
    }
  }

  /** The first key that does not merge decides between a conflict and a failure. */
  lemma FirstDecides(a: Value, b: Value, p: Option<Value>, res: Resolver, garbled: Garbled, k: Key)
    requires Mergeable(a, b, p) && k in KeysOf(a, b, p) && !CoAt(a, b, p, res, garbled, k).Keep?
    requires !Unreadable(a, Base(a, p), garbled) && !Unreadable(b, Base(a, p), garbled)
    requires forall j :: j in KeysOf(a, b, p) && j < k ==> CoAt(a, b, p, res, garbled, j).Keep?
    ensures Coiterated(a, b, p, res, garbled) ==
            if CoAt(a, b, p, res, garbled, k).Clash? then Conflict else Failed
  {
    hide CoAt, Mergeable, Base, Unreadable, KeysOf, CoKept, Rebuild;
    if CoAt(a, b, p, res, garbled, k).Clash? {
      assert FirstClash(a, b, p, res, garbled, k);
    } else {
      FailsFirst(a, b, p, res, garbled, k);
    }
  }

  lemma AllKept(a: Value, b: Value, p: Option<Value>, res: Resolver, m: map<Key, Value>)
    requires Mergeable(a, b, p) && forall k :: MergeAt(a, b, p, res, k) == Keep(Get(m, k))
    ensures ThreeWay(a, b, p, res) == Merged(Rebuild(Base(a, p), m))
  {
    hide MergeAt, Mergeable, Base, Children, Rebuild, Kept, Get;
    KeptIs(a, b, p, res, m);
  }

  /** The keys a merge looks at. */
  function KeysOf(a: Value, b: Value, p: Option<Value>): set<Key>
  {
    Children(a).Keys + Children(b).Keys + Children(Base(a, p)).Keys
  }

  lemma KeptIs(a: Value, b: Value, p: Option<Value>, res: Resolver, m: map<Key, Value>)
    requires Mergeable(a, b, p) && forall k :: MergeAt(a, b, p, res, k) == Keep(Get(m, k))
    ensures Kept(a, b, p, res) == m
  {
    hide *;
    forall k ensures Get(Kept(a, b, p, res), k) == Get(m, k) {
      KeptAt(a, b, p, res, m, k);
    }
    SameMaps(Kept(a, b, p, res), m);
  }

  lemma KeptAt(a: Value, b: Value, p: Option<Value>, res: Resolver, m: map<Key, Value>, k: Key)
    requires Mergeable(a, b, p) && MergeAt(a, b, p, res, k) == Keep(Get(m, k))
    ensures Get(Kept(a, b, p, res), k) == Get(m, k)
  {
    hide MergeAt, Mergeable, KeysOf, ThreeWay;
    if k in m {
      NoKeyFromNothing(a, b, p, res, k);
    }
  }

  lemma SameMaps(m: map<Key, Value>, n: map<Key, Value>)
    requires forall k :: Get(m, k) == Get(n, k)
    ensures m == n
  {
    forall k ensures (k in m <==> k in n) && (k in m ==> m[k] == n[k]) {
      assert Get(m, k) == Get(n, k);
    }
  }

  lemma ShapedIs(v: Value, base: Value)
    requires Shaped(v, base)
    ensures v == Rebuild(base, Children(v))
  {
  }

  lemma NoKeyFromNothing(a: Value, b: Value, p: Option<Value>, res: Resolver, k: Key)
    requires Mergeable(a, b, p) && HasValue(MergeAt(a, b, p, res, k))
    ensures k in KeysOf(a, b, p)
  {
  }

  /** A clash under one key makes the whole merge a conflict. */
  lemma ClashConflicts(a: Value, b: Value, p: Option<Value>, res: Resolver, k: Key)
    requires Mergeable(a, b, p) && MergeAt(a, b, p, res, k).Clash?
    ensures ThreeWay(a, b, p, res) == Conflict
  {
  }

  /** The kept value is one that may stand in the collection. */
  lemma KeptFits(a: Value, b: Value, p: Option<Value>, res: Resolver, k: Key)
    requires Mergeable(a, b, p) && MergeAt(a, b, p, res, k).Keep?
    ensures Fits(Base(a, p), k, MergeAt(a, b, p, res, k).value)
  {
    hide ThreeWay;
  }

  /** Both candidates changed the key: agree, merge deeper, resolve or conflict. */
  method MergeChanges(a: Value, b: Value, p: Option<Value>, res: Resolver, garbled: Garbled,
                      aChange: Change, bChange: Change)
    returns (err: Option<Result>, kind: ChangeType, v: Option<Value>)
    requires Mergeable(a, b, p) && aChange.key == bChange.key
    requires var k := aChange.key; var pv := Get(Children(Base(a, p)), k);
             && Get(Children(a), k) != pv && Get(Children(b), k) != pv
             && aChange.kind == ChangeOf(pv, Get(Children(a), k)) && bChange.kind == ChangeOf(pv, Get(Children(b), k))
    ensures err == Some(Conflict) <==> BothAt(a, b, p, res, garbled, aChange.key).Clash?
    ensures err == Some(Failed) <==> BothAt(a, b, p, res, garbled, aChange.key).Fail?
    ensures err.Some? ==> !err.value.Merged?
    ensures err.None? ==> BothAt(a, b, p, res, garbled, aChange.key) == Keep(if kind.Removed? then None else v)
    ensures var av, bv := Get(Children(a), aChange.key), Get(Children(b), aChange.key);
            var merged := if kind.Removed? then None else v;
            && (av == bv ==> err.None? && merged == av)
            && (av != bv && Irreconcilable(av, bv) && res == NoResolver ==> err == Some(Conflict))
            && (av != bv && Irreconcilable(av, bv) && res != NoResolver ==>
                  err.None? && merged == if res.Ours? then av else bv)
    decreases a, 0
  {
    hide Coiterated;
    var k := aChange.key;
    var aValue, bValue := CandidateGet(a, k), CandidateGet(b, k);
    if aChange.kind != bChange.kind {
      match res
      case NoResolver => return Some(Conflict), Modified, None;
      case Ours => return None, aChange.kind, aValue;
      case Theirs => return None, bChange.kind, bValue;
    }
    if aChange.kind.Removed? || aValue == bValue {
      return None, aChange.kind, aValue;
    }
    if !Unmergeable(aValue, bValue) {
      var r := MergeValues(aValue.value, bValue.value, Get(Children(Base(a, p)), k), res, garbled);
      if r.Merged? {
        return None, aChange.kind, Some(r.value);
      }
      return Some(r), Modified, None;
    }
    match res
    case NoResolver => return Some(Conflict), Modified, None;
    case Ours => return None, aChange.kind, aValue;
    case Theirs => return None, bChange.kind, bValue;
  }

  /** Dispatch on the kind of the candidates. */
  method MergeValues(a: Value, b: Value, p: Option<Value>, res: Resolver, garbled: Garbled) returns (r: Result)
    ensures r == Coiterated(a, b, p, res, garbled)
    ensures Readable(a, b, p, res) ==>
              && r == ThreeWay(a, b, p, res)
              && (r == Conflict <==> Conflicting(a, b, p, res))
              && (r != Conflict ==> r.Merged? && MergedFrom(r.value, a, b, p, res))
    decreases a, 2
  {
    hide Readable, ThreeWay, CoAt, FirstClash, CoKept, Conflicting, MergedFrom;
    if !Mergeable(a, b, p) {
      r := Conflict;
    } else {
      r := OrderedSequenceMerge(a, b, p, res, garbled);
    }
    if Readable(a, b, p, res) {
      ReadableMerges(a, b, p, res, garbled);
      ConflictExactly(a, b, p, res);
      NeverFails(a, b, p, res);
      if r.Merged? {
        MergeHolds(a, b, p, res);
      }
    }
  }

  /** Go through the two diffs in key order and apply what they report to the base. */
  method OrderedSequenceMerge(a: Value, b: Value, p: Option<Value>, res: Resolver, garbled: Garbled)
    returns (r: Result)
    requires Mergeable(a, b, p)
    ensures r == Coiterated(a, b, p, res, garbled)
    decreases a, 1
  {
    hide *;
    var base := Base(a, p);
    var aReport := Report(a, base, garbled);
    var bReport := Report(b, base, garbled);
    if aReport.None? || bReport.None? {
      DiffFails(a, b, p, res, garbled);
      return Failed;
    }
    var aChanges, bChanges := aReport.value, bReport.value;
    var merged := base;
    ProgressStart(a, b, p, res, garbled, aChanges, bChanges);
    BaseShaped(a, b, p);
    assert Reported(a, b, p, aChanges, bChanges) by { BothReported(a, b, p, aChanges, bChanges); }
    var i, j := 0, 0;
    while i < |aChanges| || j < |bChanges|
      invariant 0 <= i <= |aChanges| && 0 <= j <= |bChanges| && Shaped(merged, base)
      invariant Progress(a, b, p, res, garbled, aChanges, i, bChanges, j, Children(merged))
      decreases |aChanges| - i + |bChanges| - j
    {
      if i < |aChanges| && (j == |bChanges| || aChanges[i].key < bChanges[j].key) {
        var c := aChanges[i];
        StepA(a, b, p, res, garbled, aChanges, i, bChanges, j, Children(merged));
        AppliedA(a, b, p, aChanges, bChanges, i, merged);
        merged := ApplyChange(merged, c.kind, c.key, CandidateGet(a, c.key));
        i := i + 1;
      } else if j < |bChanges| && (i == |aChanges| || bChanges[j].key < aChanges[i].key) {
        var c := bChanges[j];
        StepB(a, b, p, res, garbled, aChanges, i, bChanges, j, Children(merged));
        AppliedB(a, b, p, aChanges, bChanges, j, merged);
        merged := ApplyChange(merged, c.kind, c.key, CandidateGet(b, c.key));
        j := j + 1;
      } else {
        var k := aChanges[i].key;
        BothChanged(a, b, p, aChanges, i, bChanges, j);
        var err, kind, v := MergeChanges(a, b, p, res, garbled, aChanges[i], bChanges[j]);
        if err.Some? {
          Stops(a, b, p, res, garbled, aChanges, i, bChanges, j, Children(merged)) by {
            NotKept(a, b, p, res, garbled, k, err);
          }
          return err.value;
        }
        StepBoth(a, b, p, res, garbled, aChanges, i, bChanges, j, Children(merged), if kind.Removed? then None else v);
        AppliedBoth(a, b, p, res, garbled, merged, k, kind, v);
        merged := ApplyChange(merged, kind, k, v);
        i, j := i + 1, j + 1;
      }
    }
    ProgressEnd(a, b, p, res, garbled, aChanges, bChanges, merged);
    return Merged(merged);
  }

  lemma NotKept(a: Value, b: Value, p: Option<Value>, res: Resolver, garbled: Garbled, k: Key, err: Option<Result>)
    requires Mergeable(a, b, p) && err.Some? && !err.value.Merged?
    requires err == Some(Conflict) <==> BothAt(a, b, p, res, garbled, k).Clash?
    requires err == Some(Failed) <==> BothAt(a, b, p, res, garbled, k).Fail?
    ensures !BothAt(a, b, p, res, garbled, k).Keep?
  {
  }

  lemma DiffFails(a: Value, b: Value, p: Option<Value>, res: Resolver, garbled: Garbled)
    requires Mergeable(a, b, p)
    requires Unreadable(a, Base(a, p), garbled) || Unreadable(b, Base(a, p), garbled)
    ensures Coiterated(a, b, p, res, garbled) == Failed
  {
    hide Unreadable, CoAt;
  }

  lemma BaseShaped(a: Value, b: Value, p: Option<Value>)
    requires Mergeable(a, b, p)
    ensures Compound(Base(a, p)) && Shaped(Base(a, p), Base(a, p))
  {
  }

  lemma BothReported(a: Value, b: Value, p: Option<Value>, ac: seq<Change>, bc: seq<Change>)
    requires IsReport(ac, a, Base(a, p)) && IsReport(bc, b, Base(a, p))
    ensures Reported(a, b, p, ac, bc)
  {
  }

  lemma IsChanged(changes: seq<Change>, now: Value, last: Value, i: nat)
    requires IsReport(changes, now, last) && i < |changes|
    ensures var k := changes[i].key;
            && Get(Children(now), k) != Get(Children(last), k)
            && changes[i].kind == ChangeOf(Get(Children(last), k), Get(Children(now), k))
  {
    hide Children, Occurs, ChangeOf;
    assert Changes(changes, changes[i].key);
    OccursWhere(changes, changes[i].key);
  }

  /** Applying a change of a puts what a has under the key. */
  lemma AppliedA(a: Value, b: Value, p: Option<Value>, ac: seq<Change>, bc: seq<Change>, i: nat, merged: Value)
    requires Mergeable(a, b, p) && Reported(a, b, p, ac, bc) && i < |ac| && Shaped(merged, Base(a, p))
    ensures var c := ac[i]; var r := ApplyChange(merged, c.kind, c.key, CandidateGet(a, c.key));
            Shaped(r, Base(a, p)) && Children(r) == Put(Children(merged), c.key, Get(Children(a), c.key))
  {
    hide IsReport;
    var k := ac[i].key;
    IsChanged(ac, a, Base(a, p), i);
    CandidateAgrees(a, k, Get(Children(Base(a, p)), k));
    ApplyPuts(merged, Base(a, p), ac[i].kind, k, CandidateGet(a, k), Get(Children(a), k));
  }

  lemma AppliedB(a: Value, b: Value, p: Option<Value>, ac: seq<Change>, bc: seq<Change>, j: nat, merged: Value)
    requires Mergeable(a, b, p) && Reported(a, b, p, ac, bc) && j < |bc| && Shaped(merged, Base(a, p))
    ensures var c := bc[j]; var r := ApplyChange(merged, c.kind, c.key, CandidateGet(b, c.key));
            Shaped(r, Base(a, p)) && Children(r) == Put(Children(merged), c.key, Get(Children(b), c.key))
  {
    hide IsReport;
    var k := bc[j].key;
    IsChanged(bc, b, Base(a, p), j);
    CandidateAgrees(b, k, Get(Children(Base(a, p)), k));
    ApplyPuts(merged, Base(a, p), bc[j].kind, k, CandidateGet(b, k), Get(Children(b), k));
  }

  lemma AppliedBoth(a: Value, b: Value, p: Option<Value>, res: Resolver, garbled: Garbled, merged: Value,
                    k: Key, kind: ChangeType, v: Option<Value>)
    requires Mergeable(a, b, p) && Shaped(merged, Base(a, p))
    requires BothAt(a, b, p, res, garbled, k) == Keep(if kind.Removed? then None else v)
    ensures var r := ApplyChange(merged, kind, k, v);
            && Shaped(r, Base(a, p))
            && Children(r) == Put(Children(merged), k, if kind.Removed? then None else v)
  {
    hide BothAt, Shaped, ApplyChange, Fits, Children, Base, Mergeable;
    BaseShaped(a, b, p);
    CoFits(a, b, p, res, garbled, k, 1, 1);
    ApplyPuts(merged, Base(a, p), kind, k, v, if kind.Removed? then None else v);
  }

  lemma BothChanged(a: Value, b: Value, p: Option<Value>, ac: seq<Change>, i: nat, bc: seq<Change>, j: nat)
    requires Reported(a, b, p, ac, bc) && i < |ac| && j < |bc| && ac[i].key == bc[j].key
    ensures var k := ac[i].key; var pv := Get(Children(Base(a, p)), k);
            && Get(Children(a), k) != pv && Get(Children(b), k) != pv
            && ac[i].kind == ChangeOf(pv, Get(Children(a), k)) && bc[j].kind == ChangeOf(pv, Get(Children(b), k))
  {
    hide IsReport, ChangeOf, Base, Children, Get;
    IsChanged(ac, a, Base(a, p), i);
    IsChanged(bc, b, Base(a, p), j);
  }

  lemma CandidateAgrees(v: Value, k: Key, last: Option<Value>)
    requires Get(Children(v), k) != last
    ensures Get(Children(v), k) == if ChangeOf(last, Get(Children(v), k)).Removed? then None else CandidateGet(v, k)
  {
  }

  // ----- When the co-iteration is the pointwise merge -----

  /** Both candidates changed the key to different collections of one kind, which are merged in turn. */
  predicate Deeper(a: Value, b: Value, p: Option<Value>, k: Key)
    requires Mergeable(a, b, p)
  {
    var av, bv, pv := Get(Children(a), k), Get(Children(b), k), Get(Children(Base(a, p)), k);
    av != pv && bv != pv && ChangeOf(pv, av) == ChangeOf(pv, bv) && av != bv && !Unmergeable(av, bv)
  }

  /** No key before k clashes. */
  ghost predicate GetsTo(a: Value, b: Value, p: Option<Value>, res: Resolver, k: Key)
    requires Mergeable(a, b, p)
  {
    forall j :: j in KeysOf(a, b, p) && j < k ==> !MergeAt(a, b, p, res, j).Clash?
  }

  /** The structs that the merge gets to are diffed rightly against their base. */
  ghost predicate Readable(a: Value, b: Value, p: Option<Value>, res: Resolver)
    decreases a
  {
    Mergeable(a, b, p) ==>
      && ShortTails(a, Base(a, p))
      && ShortTails(b, Base(a, p))
      && forall k :: Deeper(a, b, p, k) && GetsTo(a, b, p, res, k) ==> ReadableAt(a, b, p, res, k)
  }

  ghost predicate ReadableAt(a: Value, b: Value, p: Option<Value>, res: Resolver, k: Key)
    requires Mergeable(a, b, p) && Deeper(a, b, p, k)
    decreases a, 0
  {
    Readable(
      Get(Children(a), k).value, Get(Children(b), k).value, Get(Children(Base(a, p)), k), res)
  }

  /** With short tails a key is settled as the pointwise merge settles it, up to the merges below. */
  lemma ShortAt(a: Value, b: Value, p: Option<Value>, res: Resolver, garbled: Garbled, k: Key)
    requires Mergeable(a, b, p) && ShortTails(a, Base(a, p)) && ShortTails(b, Base(a, p))
    ensures !Deeper(a, b, p, k) ==> CoAt(a, b, p, res, garbled, k) == MergeAt(a, b, p, res, k)
    ensures Deeper(a, b, p, k) ==>
              var av, bv, pv := Get(Children(a), k).value, Get(Children(b), k).value, Get(Children(Base(a, p)), k);
              && CoAt(a, b, p, res, garbled, k) == FromResult(Coiterated(av, bv, pv, res, garbled))
              && MergeAt(a, b, p, res, k) == FromResult(ThreeWay(av, bv, pv, res))
  {
    hide ThreeWay, Coiterated, Reports, ShortTails;
    ShortTailsReport(a, Base(a, p), k);
    ShortTailsReport(b, Base(a, p), k);
    Unfolded(a, b, p, res, garbled, k);
    if Deeper(a, b, p, k) {
      NeverFails(Get(Children(a), k).value, Get(Children(b), k).value, Get(Children(Base(a, p)), k), res);
    }
  }

  lemma NeverFails(a: Value, b: Value, p: Option<Value>, res: Resolver)
    ensures !ThreeWay(a, b, p, res).Failed?
  {
    hide MergeAt, Kept;
  }

  lemma {:induction false} LeastOf(s: set<Key>) returns (k: Key)
    requires s != {}
    ensures First(s, k)
    decreases |s|
  {
    k :| k in s;
    var rest := s - {k};
    assert s == rest + {k};
    if rest != {} {
      var j := LeastOf(rest);
      if j < k {
        k := j;
      }
    }
  }

  /** Where diffs are right, the co-iteration computes the pointwise merge, whatever misreading would give. */
  lemma {:induction false} ReadableMerges(a: Value, b: Value, p: Option<Value>, res: Resolver, garbled: Garbled)
    requires Readable(a, b, p, res)
    ensures Coiterated(a, b, p, res, garbled) == ThreeWay(a, b, p, res)
    decreases a
  {
    hide MergeAt, CoAt, ShortTails, Unreadable, Kept, CoKept, KeysOf, Rebuild, FirstClash;
    if Mergeable(a, b, p) {
      ShortTailsRead(a, Base(a, p), garbled);
      ShortTailsRead(b, Base(a, p), garbled);
      forall k | GetsTo(a, b, p, res, k)
        ensures CoAt(a, b, p, res, garbled, k) == MergeAt(a, b, p, res, k)
      {
        ShortAt(a, b, p, res, garbled, k);
        if Deeper(a, b, p, k) {
          assert ReadableAt(a, b, p, res, k);
          ReadableMerges(
            Get(Children(a), k).value, Get(Children(b), k).value, Get(Children(Base(a, p)), k), res, garbled);
        }
      }
      assert Agrees(a, b, p, res, garbled);
      SameEnd(a, b, p, res, garbled);
    }
  }

  /** The outcomes agree as far as the merge gets. */
  ghost predicate Agrees(a: Value, b: Value, p: Option<Value>, res: Resolver, garbled: Garbled)
    requires Mergeable(a, b, p)
  {
    forall k :: GetsTo(a, b, p, res, k) ==> CoAt(a, b, p, res, garbled, k) == MergeAt(a, b, p, res, k)
  }

  /** Then so do the results. */
  lemma SameEnd(a: Value, b: Value, p: Option<Value>, res: Resolver, garbled: Garbled)
    requires Mergeable(a, b, p) && !Unreadable(a, Base(a, p), garbled) && !Unreadable(b, Base(a, p), garbled)
    requires Agrees(a, b, p, res, garbled)
    ensures Coiterated(a, b, p, res, garbled) == ThreeWay(a, b, p, res)
  {
    hide *;
    var clashes := set k | k in KeysOf(a, b, p) && MergeAt(a, b, p, res, k).Clash?;
    if clashes != {} {
      var k := LeastOf(clashes);
      assert k in clashes && forall j :: j in KeysOf(a, b, p) && j < k ==> j !in clashes by { FirstIs(clashes, k); }
      SameConflict(a, b, p, res, garbled, k);
    } else {
      forall k | k in KeysOf(a, b, p) ensures !MergeAt(a, b, p, res, k).Clash? {
        assert k !in clashes;
      }
      SameMerge(a, b, p, res, garbled);
    }
  }

  lemma FirstIs(s: set<Key>, k: Key)
    requires First(s, k)
    ensures k in s && forall j :: j < k ==> j !in s
  {
  }

  lemma SameConflict(a: Value, b: Value, p: Option<Value>, res: Resolver, garbled: Garbled, k: Key)
    requires Mergeable(a, b, p) && !Unreadable(a, Base(a, p), garbled) && !Unreadable(b, Base(a, p), garbled)
    requires Agrees(a, b, p, res, garbled) && k in KeysOf(a, b, p) && MergeAt(a, b, p, res, k).Clash?
    requires forall j :: j in KeysOf(a, b, p) && j < k ==> !MergeAt(a, b, p, res, j).Clash?
    ensures Coiterated(a, b, p, res, garbled) == ThreeWay(a, b, p, res)
  {
    hide MergeAt, CoAt, Unreadable, KeysOf, Coiterated, ThreeWay, Mergeable, Base;
    forall j | j in KeysOf(a, b, p) && j < k ensures CoAt(a, b, p, res, garbled, j).Keep? {
      assert GetsTo(a, b, p, res, j);
      AtKeepsOrClashes(a, b, p, res, j);
    }
    assert GetsTo(a, b, p, res, k);
    FirstDecides(a, b, p, res, garbled, k);
    ClashConflicts(a, b, p, res, k);
  }

  lemma SameMerge(a: Value, b: Value, p: Option<Value>, res: Resolver, garbled: Garbled)
    requires Mergeable(a, b, p) && !Unreadable(a, Base(a, p), garbled) && !Unreadable(b, Base(a, p), garbled)
    requires Agrees(a, b, p, res, garbled)
    requires forall k :: k in KeysOf(a, b, p) ==> !MergeAt(a, b, p, res, k).Clash?
    ensures Coiterated(a, b, p, res, garbled) == ThreeWay(a, b, p, res)
  {
    hide MergeAt, CoAt, Unreadable, KeysOf, Coiterated, ThreeWay, Mergeable, Base, Get, Kept, Rebuild;
    var m := Kept(a, b, p, res);
    forall k ensures MergeAt(a, b, p, res, k) == Keep(Get(m, k)) {
      if k !in KeysOf(a, b, p) {
        Absent(a, b, p, res, k);
      }
      AtKeepsOrClashes(a, b, p, res, k);
      KeptGet(a, b, p, res, k);
    }
    forall k ensures CoAt(a, b, p, res, garbled, k) == Keep(Get(m, k)) {
      assert GetsTo(a, b, p, res, k);
    }
    AllKept(a, b, p, res, m);
    CoAllKept(a, b, p, res, garbled, m);
  }

  lemma AtKeepsOrClashes(a: Value, b: Value, p: Option<Value>, res: Resolver, k: Key)
    requires Mergeable(a, b, p)
    ensures !MergeAt(a, b, p, res, k).Fail?
  {
    hide ThreeWay;
  }

  /** Every misreading fails. */
  function AllGarbled(): Garbled
  {
    (a, b, n) => true
  }

  /** Where a diff is not right the co-iteration may fail, which the pointwise merge never does. */
  lemma {:induction false} UnreadableFails(a: Value, b: Value, p: Option<Value>, res: Resolver)
    requires !Readable(a, b, p, res)
    ensures Coiterated(a, b, p, res, AllGarbled()) == Failed
    decreases a
  {
    hide MergeAt, CoAt, ShortTails, Unreadable, CoKept, KeysOf, AllGarbled, Coiterated;
    var garbled := AllGarbled();
    if !ShortTails(a, Base(a, p)) || !ShortTails(b, Base(a, p)) {
      LongTailsFail(a, b, p);
      DiffFails(a, b, p, res, garbled);
    } else {
      var k :| Deeper(a, b, p, k) && GetsTo(a, b, p, res, k) && !ReadableAt(a, b, p, res, k);
      ShortTailsRead(a, Base(a, p), garbled);
      ShortTailsRead(b, Base(a, p), garbled);
      ShortAt(a, b, p, res, garbled, k);
      UnreadableFails(Get(Children(a), k).value, Get(Children(b), k).value, Get(Children(Base(a, p)), k), res);
      KeyOfMerge(a, b, p, res, garbled, k);
      forall j | j in KeysOf(a, b, p) && j < k ensures !CoAt(a, b, p, res, garbled, j).Clash? {
        ShortAt(a, b, p, res, garbled, j);
        if Deeper(a, b, p, j) {
          var av, bv, pv := Get(Children(a), j).value, Get(Children(b), j).value, Get(Children(Base(a, p)), j);
          if Readable(av, bv, pv, res) {
            ReadableMerges(av, bv, pv, res, garbled);
          } else {
            UnreadableFails(av, bv, pv, res);
          }
        }
      }
      FailsFirst(a, b, p, res, garbled, k);
    }
  }

  lemma LongTailsFail(a: Value, b: Value, p: Option<Value>)
    requires !ShortTails(a, Base(a, p)) || !ShortTails(b, Base(a, p))
    ensures Unreadable(a, Base(a, p), AllGarbled()) || Unreadable(b, Base(a, p), AllGarbled())
  {
    hide Leftover;
    var base, garbled := Base(a, p), AllGarbled();
    assert garbled(Children(a), Children(base), 1) && garbled(Children(base), Children(a), 1);
    assert garbled(Children(b), Children(base), 1) && garbled(Children(base), Children(b), 1);
  }

  /** A failure that no clash comes before is the result. */
  lemma FailsFirst(a: Value, b: Value, p: Option<Value>, res: Resolver, garbled: Garbled, k: Key)
    requires Mergeable(a, b, p) && !Unreadable(a, Base(a, p), garbled) && !Unreadable(b, Base(a, p), garbled)
    requires k in KeysOf(a, b, p) && CoAt(a, b, p, res, garbled, k).Fail?
    requires forall j :: j in KeysOf(a, b, p) && j < k ==> !CoAt(a, b, p, res, garbled, j).Clash?
    ensures Coiterated(a, b, p, res, garbled) == Failed
  {
    hide CoAt, Unreadable, CoKept, KeysOf, Mergeable, Base, Rebuild;
    forall c ensures !FirstClash(a, b, p, res, garbled, c) {}
    assert !CoAt(a, b, p, res, garbled, k).Keep?;
  }

  /**
   * The co-iteration computes the pointwise merge, whatever misreading gives, exactly if the structs it gets to have at
   * most one field after all fields of their base, and the other way round.
   */
  lemma MergeExact(a: Value, b: Value, p: Option<Value>, res: Resolver)
    ensures (forall garbled: Garbled :: Coiterated(a, b, p, res, garbled) == ThreeWay(a, b, p, res)) <==>
            Readable(a, b, p, res)
  {
    hide Coiterated, ThreeWay, Readable, AllGarbled;
    if Readable(a, b, p, res) {
      forall garbled: Garbled ensures Coiterated(a, b, p, res, garbled) == ThreeWay(a, b, p, res) {
        ReadableMerges(a, b, p, res, garbled);
      }
    } else {
      UnreadableFails(a, b, p, res);
      NeverFails(a, b, p, res);
    }
  }

  /** A value without structs. */
  ghost predicate Structless(v: Value)
  {
    !v.StructV? && forall k :: k in Children(v) && v.MapV? ==> Structless(Children(v)[k])
  }

  /** Maps and sets without structs always merge pointwise. */
  lemma {:induction false} StructlessReadable(a: Value, b: Value, p: Option<Value>, res: Resolver)
    requires Structless(a)
    ensures Readable(a, b, p, res)
    decreases a
  {
    hide MergeAt, KeysOf;
    if Mergeable(a, b, p) {
      forall k | Deeper(a, b, p, k) ensures ReadableAt(a, b, p, res, k) {
        StructlessReadable(
          Get(Children(a), k).value, Get(Children(b), k).value, Get(Children(Base(a, p)), k), res);
      }
    }
  }

  // ----- What merges and what conflicts -----

  /** Both sides changed the value, and not to the same. */
  predicate Contested(av: Option<Value>, bv: Option<Value>, pv: Option<Value>)
  {
    av != pv && bv != pv && av != bv
  }

  /** A side is missing or primitive, or the sides are of different kinds. */
  predicate Irreconcilable(av: Option<Value>, bv: Option<Value>)
  {
    || av.None? || bv.None?
    || KindOf(av.value) == PrimKind || KindOf(bv.value) == PrimKind || KindOf(av.value) != KindOf(bv.value)
  }

  /** The candidates and the parent are maps, sets or structs, all of one kind; the candidates have one struct name. */
  predicate SameShape(a: Value, b: Value, p: Option<Value>)
  {
    && KindOf(a) == KindOf(b) && KindOf(a) in {MapKind, SetKind, StructKind}
    && (a.StructV? && b.StructV? ==> a.name == b.name)
    && (p.Some? ==> KindOf(p.value) == KindOf(a))
  }

  /** What is under a key of the parent; there is nothing under the keys of a parent that is missing. */
  function ParentAt(p: Option<Value>, k: Key): Option<Value>
  {
    if p.None? then None else Get(Children(p.value), k)
  }

  /**
   * The values cannot be merged: their shapes differ, or both sides changed what is under some key, in ways that cannot
   * be reconciled when no side is preferred, or to values that cannot be merged in turn.
   */
  ghost predicate Conflicting(a: Value, b: Value, p: Option<Value>, res: Resolver)
    decreases a
  {
    || !SameShape(a, b, p)
    || exists k ::
         var av, bv, pv := Get(Children(a), k), Get(Children(b), k), ParentAt(p, k);
         && Contested(av, bv, pv)
         && if Irreconcilable(av, bv) then res == NoResolver else Conflicting(av.value, bv.value, pv, res)
  }

  ghost predicate ConflictingAt(a: Value, b: Value, p: Option<Value>, res: Resolver, k: Key)
  {
    var av, bv, pv := Get(Children(a), k), Get(Children(b), k), ParentAt(p, k);
    && Contested(av, bv, pv)
    && if Irreconcilable(av, bv) then res == NoResolver else Conflicting(av.value, bv.value, pv, res)
  }

  lemma ShapeIsMergeable(a: Value, b: Value, p: Option<Value>)
    ensures Mergeable(a, b, p) <==> SameShape(a, b, p)
  {
  }

  lemma ParentIs(a: Value, p: Option<Value>, k: Key)
    ensures Get(Children(Base(a, p)), k) == ParentAt(p, k)
  {
  }

  /** The outcome under one key, in terms of the three values. */
  lemma OutcomeAt(a: Value, b: Value, p: Option<Value>, res: Resolver, k: Key)
    requires Mergeable(a, b, p)
    ensures var av, bv, pv := Get(Children(a), k), Get(Children(b), k), ParentAt(p, k);
            && (av == pv ==> MergeAt(a, b, p, res, k) == Keep(bv))
            && (bv == pv || av == bv ==> MergeAt(a, b, p, res, k) == Keep(av))
            && (Contested(av, bv, pv) && Irreconcilable(av, bv) ==>
                  MergeAt(a, b, p, res, k) == if res.Ours? then Keep(av) else if res.Theirs? then Keep(bv) else Clash)
            && (Contested(av, bv, pv) && !Irreconcilable(av, bv) ==>
                  && av.value < a
                  && MergeAt(a, b, p, res, k) == FromResult(ThreeWay(av.value, bv.value, pv, res)))
  {
    hide ThreeWay;
    ParentIs(a, p, k);
    var av, bv, pv := Get(Children(a), k), Get(Children(b), k), ParentAt(p, k);
    if Contested(av, bv, pv) && !Irreconcilable(av, bv) {
      NeverFails(av.value, bv.value, pv, res);
      ChildLess(a, k);
    }
  }

  /** The pointwise merge is a conflict exactly if the three values conflict. */
  lemma {:induction false} ConflictExactly(a: Value, b: Value, p: Option<Value>, res: Resolver)
    ensures ThreeWay(a, b, p, res) == Conflict <==> Conflicting(a, b, p, res)
    decreases a, 1
  {
    hide MergeAt, Kept, KeysOf, Mergeable, SameShape, ConflictingAt, ThreeWay, Conflicting;
    ConflictingIs(a, b, p, res);
    ShapeIsMergeable(a, b, p);
    if !Mergeable(a, b, p) {
      NoMerge(a, b, p, res);
    } else {
      forall k ensures MergeAt(a, b, p, res, k).Clash? <==> ConflictingAt(a, b, p, res, k) {
        ConflictExactlyAt(a, b, p, res, k);
      }
      ConflictSomewhere(a, b, p, res);
      if Conflicting(a, b, p, res) {
        var k :| ConflictingAt(a, b, p, res, k);
        ClashConflicts(a, b, p, res, k);
      }
    }
  }

  lemma ConflictingIs(a: Value, b: Value, p: Option<Value>, res: Resolver)
    ensures Conflicting(a, b, p, res) <==> !SameShape(a, b, p) || exists k :: ConflictingAt(a, b, p, res, k)
  {
    hide SameShape, Contested;
    if SameShape(a, b, p) && Conflicting(a, b, p, res) {
      var k :|
        var av, bv, pv := Get(Children(a), k), Get(Children(b), k), ParentAt(p, k);
        && Contested(av, bv, pv)
        && if Irreconcilable(av, bv) then res == NoResolver else Conflicting(av.value, bv.value, pv, res);
      assert ConflictingAt(a, b, p, res, k);
    }
  }

  lemma ConflictExactlyAt(a: Value, b: Value, p: Option<Value>, res: Resolver, k: Key)
    requires Mergeable(a, b, p)
    ensures MergeAt(a, b, p, res, k).Clash? <==> ConflictingAt(a, b, p, res, k)
    decreases a, 0
  {
    hide MergeAt, ThreeWay, Mergeable, Conflicting;
    OutcomeAt(a, b, p, res, k);
    var av, bv, pv := Get(Children(a), k), Get(Children(b), k), ParentAt(p, k);
    if Contested(av, bv, pv) && !Irreconcilable(av, bv) {
      ConflictExactly(av.value, bv.value, pv, res);
    }
  }

  lemma NoMerge(a: Value, b: Value, p: Option<Value>, res: Resolver)
    requires !Mergeable(a, b, p)
    ensures ThreeWay(a, b, p, res) == Conflict
  {
  }

  lemma ConflictSomewhere(a: Value, b: Value, p: Option<Value>, res: Resolver)
    requires Mergeable(a, b, p)
    ensures ThreeWay(a, b, p, res) == Conflict <==> exists k :: MergeAt(a, b, p, res, k).Clash?
  {
    hide MergeAt, Mergeable, KeysOf, Kept;
    if k :| MergeAt(a, b, p, res, k).Clash? {
      ClashConflicts(a, b, p, res, k);
    }
  }

  /**
   * What a successful merge holds under every key: the value of the side that changed it; of a contested key the merge
   * of the two values, or, if they cannot be reconciled, what the preferred side has there, if anything.
   */
  ghost predicate MergedFrom(v: Value, a: Value, b: Value, p: Option<Value>, res: Resolver)
  {
    && KindOf(v) == KindOf(a)
    && (v.StructV? && a.StructV? ==> v.name == if p.Some? && p.value.StructV? then p.value.name else a.name)
    && forall k ::
         var av, bv, pv, r := Get(Children(a), k), Get(Children(b), k), ParentAt(p, k), Get(Children(v), k);
         && (av == pv ==> r == bv)
         && (bv == pv ==> r == av)
         && (av == bv ==> r == av)
         && (Contested(av, bv, pv) && Irreconcilable(av, bv) ==> res != NoResolver && r == if res.Ours? then av else bv)
         && (Contested(av, bv, pv) && !Irreconcilable(av, bv) ==>
               r.Some? && ThreeWay(av.value, bv.value, pv, res) == Merged(r.value))
  }

  lemma MergeHolds(a: Value, b: Value, p: Option<Value>, res: Resolver)
    requires ThreeWay(a, b, p, res).Merged?
    ensures MergedFrom(ThreeWay(a, b, p, res).value, a, b, p, res)
  {
    hide MergeAt, ThreeWay, Contested, Kept, KeysOf;
    var v := ThreeWay(a, b, p, res).value;
    MergedAt(a, b, p, res, 0);
    MergedShape(a, b, p, res);
    forall k
      ensures var av, bv, pv, r := Get(Children(a), k), Get(Children(b), k), ParentAt(p, k), Get(Children(v), k);
              && (av == pv ==> r == bv)
              && (bv == pv || av == bv ==> r == av)
              && (Contested(av, bv, pv) && Irreconcilable(av, bv) ==>
                    res != NoResolver && r == if res.Ours? then av else bv)
              && (Contested(av, bv, pv) && !Irreconcilable(av, bv) ==>
                    r.Some? && ThreeWay(av.value, bv.value, pv, res) == Merged(r.value))
    {
      MergedAt(a, b, p, res, k);
      OutcomeAt(a, b, p, res, k);
    }
  }

  lemma MergedShape(a: Value, b: Value, p: Option<Value>, res: Resolver)
    requires ThreeWay(a, b, p, res).Merged?
    ensures Mergeable(a, b, p) && Rebuild(ThreeWay(a, b, p, res).value, map[]) == Rebuild(Base(a, p), map[])
  {
    hide MergeAt, Kept, KeysOf;
  }

  // ----- Laws of the merge -----

  lemma SameBase(a: Value, b: Value, p: Option<Value>)
    requires Mergeable(a, b, p)
    ensures Mergeable(b, a, p) && Base(a, p) == Base(b, p) && KeysOf(a, b, p) == KeysOf(b, a, p)
  {
  }

  /** Exchanging the candidates, and with them the preference, does not change what the co-iteration computes. */
  lemma {:induction false} CoSymmetric(a: Value, b: Value, p: Option<Value>, res: Resolver, garbled: Garbled)
    ensures Coiterated(a, b, p, res, garbled) == Coiterated(b, a, p, Flip(res), garbled)
    decreases a, 1
  {
    hide Coiterated, CoAt;
    if Mergeable(a, b, p) {
      SameBase(a, b, p);
      forall k ensures CoAt(a, b, p, res, garbled, k) == CoAt(b, a, p, Flip(res), garbled, k) {
        CoSymmetricAt(a, b, p, res, garbled, k);
      }
      CoSame(a, b, p, res, garbled);
    } else {
      if Mergeable(b, a, p) {
        SameBase(b, a, p);
      }
      NotMergeable(a, b, p, res, garbled);
      NotMergeable(b, a, p, Flip(res), garbled);
    }
  }

  lemma CoSymmetricAt(a: Value, b: Value, p: Option<Value>, res: Resolver, garbled: Garbled, k: Key)
    requires Mergeable(a, b, p) && Mergeable(b, a, p)
    ensures CoAt(a, b, p, res, garbled, k) == CoAt(b, a, p, Flip(res), garbled, k)
    decreases a, 0, 1
  {
    hide Coiterated, Reports, Mergeable, Children, Base, KeysOf, Settled, BothAt;
    SameBase(a, b, p);
    BothSymmetric(a, b, p, res, garbled, k);
    SettledSymmetric(a, b, p, res, garbled, k, Reports(a, Base(a, p), k), Reports(b, Base(a, p), k));
  }

  lemma SettledSymmetric(
      a: Value, b: Value, p: Option<Value>, res: Resolver, garbled: Garbled, k: Key, x: nat, y: nat)
    requires Mergeable(a, b, p) && Mergeable(b, a, p) && Base(a, p) == Base(b, p)
    requires BothAt(a, b, p, res, garbled, k) == BothAt(b, a, p, Flip(res), garbled, k)
    ensures Settled(a, b, p, res, garbled, k, x, y) == Settled(b, a, p, Flip(res), garbled, k, y, x)
  {
    hide BothAt, Mergeable, Children, Base, Get, Flip;
  }

  lemma BothSymmetric(a: Value, b: Value, p: Option<Value>, res: Resolver, garbled: Garbled, k: Key)
    requires Mergeable(a, b, p) && Mergeable(b, a, p)
    ensures BothAt(a, b, p, res, garbled, k) == BothAt(b, a, p, Flip(res), garbled, k)
    decreases a, 0, 0
  {
    hide *;
    SameBase(a, b, p);
    Unfolded(a, b, p, res, garbled, k);
    Unfolded(b, a, p, Flip(res), garbled, k);
    var av, bv, pv := Get(Children(a), k), Get(Children(b), k), Get(Children(Base(a, p)), k);
    Exchanged(av, bv, res);
    if !Unmergeable(av, bv) {
      ChildLess(a, k);
      CoSymmetric(av.value, bv.value, pv, res, garbled);
    }
  }

  lemma Exchanged(av: Option<Value>, bv: Option<Value>, res: Resolver)
    ensures Resolve(av, bv, res) == Resolve(bv, av, Flip(res)) && (Unmergeable(av, bv) <==> Unmergeable(bv, av))
    ensures !Unmergeable(av, bv) ==> av.Some? && bv.Some? && !av.value.Prim?
  {
  }

  lemma ChildLess(a: Value, k: Key)
    ensures var av := Get(Children(a), k); av.Some? && !av.value.Prim? ==> av.value < a
  {
  }

  /** Merges with the same outcomes have the same result. */
  lemma CoSame(a: Value, b: Value, p: Option<Value>, res: Resolver, garbled: Garbled)
    requires Mergeable(a, b, p) && Mergeable(b, a, p) && Base(a, p) == Base(b, p) && KeysOf(a, b, p) == KeysOf(b, a, p)
    requires forall k :: CoAt(a, b, p, res, garbled, k) == CoAt(b, a, p, Flip(res), garbled, k)
    ensures Coiterated(a, b, p, res, garbled) == Coiterated(b, a, p, Flip(res), garbled)
  {
    hide CoAt, Mergeable, Base, KeysOf, Unreadable, Rebuild, Flip, FirstClash, CoKept, HasValue;
    forall k ensures FirstClash(a, b, p, res, garbled, k) <==> FirstClash(b, a, p, Flip(res), garbled, k) {
      CoSameClash(a, b, p, res, garbled, k);
    }
    CoSameKept(a, b, p, res, garbled);
  }

  lemma CoSameClash(a: Value, b: Value, p: Option<Value>, res: Resolver, garbled: Garbled, k: Key)
    requires Mergeable(a, b, p) && Mergeable(b, a, p) && KeysOf(a, b, p) == KeysOf(b, a, p)
    requires forall k :: CoAt(a, b, p, res, garbled, k) == CoAt(b, a, p, Flip(res), garbled, k)
    ensures FirstClash(a, b, p, res, garbled, k) <==> FirstClash(b, a, p, Flip(res), garbled, k)
  {
    hide CoAt, Mergeable, KeysOf, Flip;
  }

  lemma CoSameKept(a: Value, b: Value, p: Option<Value>, res: Resolver, garbled: Garbled)
    requires Mergeable(a, b, p) && Mergeable(b, a, p) && KeysOf(a, b, p) == KeysOf(b, a, p)
    requires forall k :: CoAt(a, b, p, res, garbled, k) == CoAt(b, a, p, Flip(res), garbled, k)
    ensures CoKept(a, b, p, res, garbled) == CoKept(b, a, p, Flip(res), garbled)
  {
    hide *;
    forall k ensures Get(CoKept(a, b, p, res, garbled), k) == Get(CoKept(b, a, p, Flip(res), garbled), k) {
      CoKeptGet(a, b, p, res, garbled, k);
      CoKeptGet(b, a, p, Flip(res), garbled, k);
    }
    SameMaps(CoKept(a, b, p, res, garbled), CoKept(b, a, p, Flip(res), garbled));
  }

  lemma CoKeptGet(a: Value, b: Value, p: Option<Value>, res: Resolver, garbled: Garbled, k: Key)
    requires Mergeable(a, b, p)
    ensures var o := CoAt(a, b, p, res, garbled, k);
            Get(CoKept(a, b, p, res, garbled), k) == if k in KeysOf(a, b, p) && o.Keep? then o.value else None
  {
    hide CoAt, Mergeable, KeysOf;
  }

  /** Exchanging the candidates, and with them the preference, does not change the pointwise merge. */
  lemma {:induction false} Symmetric(a: Value, b: Value, p: Option<Value>, res: Resolver)
    ensures ThreeWay(a, b, p, res) == ThreeWay(b, a, p, Flip(res))
    decreases a, 1
  {
    if Mergeable(a, b, p) {
      SameBase(a, b, p);
      forall k ensures MergeAt(a, b, p, res, k) == MergeAt(b, a, p, Flip(res), k) {
        SymmetricAt(a, b, p, res, k);
      }
      SameOutcomes(a, b, p, b, a, p, res, Flip(res));
    } else if Mergeable(b, a, p) {
      SameBase(b, a, p);
    }
  }

  lemma SymmetricAt(a: Value, b: Value, p: Option<Value>, res: Resolver, k: Key)
    requires Mergeable(a, b, p) && Mergeable(b, a, p)
    ensures MergeAt(a, b, p, res, k) == MergeAt(b, a, p, Flip(res), k)
    decreases a, 0
  {
    hide ThreeWay;
    SameBase(a, b, p);
    var av, bv, pv := Get(Children(a), k), Get(Children(b), k), Get(Children(Base(a, p)), k);
    if !Unmergeable(av, bv) {
      Symmetric(av.value, bv.value, pv, res);
    }
  }

  /** Merges with the same parent and the same outcome under every key have the same result. */
  lemma SameOutcomes(a: Value, b: Value, p: Option<Value>, a': Value, b': Value, p': Option<Value>, res: Resolver,
      res': Resolver)
    requires Mergeable(a, b, p) && Mergeable(a', b', p') && Base(a, p) == Base(a', p')
    requires forall k :: MergeAt(a, b, p, res, k) == MergeAt(a', b', p', res', k)
    ensures ThreeWay(a, b, p, res) == ThreeWay(a', b', p', res')
  {
    hide MergeAt, Mergeable, Base, Kept, Rebuild, ThreeWay, Get;
    if k :| MergeAt(a, b, p, res, k).Clash? {
      ClashConflicts(a, b, p, res, k);
      ClashConflicts(a', b', p', res', k);
    } else {
      var m := Kept(a, b, p, res);
      forall k ensures MergeAt(a, b, p, res, k) == Keep(Get(m, k)) {
        AtKeepsOrClashes(a, b, p, res, k);
        KeptGet(a, b, p, res, k);
      }
      AllKept(a, b, p, res, m);
      AllKept(a', b', p', res', m);
    }
  }

  lemma KeptGet(a: Value, b: Value, p: Option<Value>, res: Resolver, k: Key)
    requires Mergeable(a, b, p) && MergeAt(a, b, p, res, k).Keep?
    ensures MergeAt(a, b, p, res, k) == Keep(Get(Kept(a, b, p, res), k))
  {
    hide MergeAt, ThreeWay;
    if k !in KeysOf(a, b, p) {
      Absent(a, b, p, res, k);
    }
  }

  lemma NothingReported(p: Value, k: Key)
    ensures Reports(p, p, k) == 0
  {
  }

  /** Merging with a side that did not change gives the other side exactly if the other side is diffed rightly. */
  lemma UnchangedSide(a: Value, p: Value, res: Resolver, garbled: Garbled)
    requires Mergeable(a, p, Some(p))
    ensures Coiterated(a, p, Some(p), res, garbled) == Merged(a) <==> ShortTails(a, p)
    ensures Coiterated(p, a, Some(p), res, garbled) == Merged(a) <==> ShortTails(a, p)
  {
    hide Coiterated, Reports, ShortTails, Unreadable, BothAt, Children, Get;
    forall k
      ensures CoAt(a, p, Some(p), res, garbled, k) == CoAt(p, a, Some(p), res, garbled, k) ==
              Keep(if Reports(a, p, k) == 0 then Get(Children(p), k) else Get(Children(a), k))
    {
      NothingReported(p, k);
    }
    assert !Unreadable(p, p, garbled) by { NothingUnreadable(p, garbled); }
    assert Rebuild(p, Children(a)) == a by { Rebuilds(a, p); }
    OneSided(a, a, p, p, res, garbled);
    OneSided(a, p, a, p, res, garbled);
  }

  lemma NothingUnreadable(p: Value, garbled: Garbled)
    ensures !Unreadable(p, p, garbled)
  {
    assert Leftover(Children(p), Children(p)) == {};
  }

  /** A merge that leaves what a reports and what is in the base gives a exactly if a's diff is right. */
  lemma OneSided(a: Value, x: Value, y: Value, p: Value, res: Resolver, garbled: Garbled)
    requires Mergeable(x, y, Some(p)) && Rebuild(p, Children(a)) == a
    requires Unreadable(x, p, garbled) || Unreadable(y, p, garbled) ==> Unreadable(a, p, garbled)
    requires forall k ::
               CoAt(x, y, Some(p), res, garbled, k) ==
               Keep(if Reports(a, p, k) == 0 then Get(Children(p), k) else Get(Children(a), k))
    ensures Coiterated(x, y, Some(p), res, garbled) == Merged(a) <==> ShortTails(a, p)
  {
    hide Coiterated, Reports, ShortTails, Unreadable, CoAt, Children, Get, Mergeable, Rebuild;
    if ShortTails(a, p) {
      ShortTailsRead(a, p, garbled);
      forall k ensures CoAt(x, y, Some(p), res, garbled, k) == Keep(Get(Children(a), k)) {
        ShortTailsReport(a, p, k);
      }
      CoAllKept(x, y, Some(p), res, garbled, Children(a));
    } else if Coiterated(x, y, Some(p), res, garbled) == Merged(a) {
      var k := LongTailsLose(a, p);
      CoMergedAt(x, y, Some(p), res, garbled, k);
    }
  }

  lemma Rebuilds(a: Value, p: Value)
    requires Compound(a) && KindOf(a) == KindOf(p) && (a.StructV? ==> a.name == p.name)
    ensures Rebuild(p, Children(a)) == a
  {
  }

  /** Sets never conflict: an element stays if neither side removed it and comes if either side added it. */
  lemma SetsMerge(a: set<Key>, b: set<Key>, p: Option<set<Key>>, res: Resolver, garbled: Garbled)
    ensures var parent := if p.Some? then Some(SetV(p.value)) else None;
            var before := if p.Some? then p.value else {};
            Coiterated(SetV(a), SetV(b), parent, res, garbled) == ThreeWay(SetV(a), SetV(b), parent, res) ==
              Merged(SetV(set k | k in a + b && (k in before ==> k in a && k in b)))
  {
    hide ThreeWay, Coiterated, Readable;
    var parent := if p.Some? then Some(SetV(p.value)) else None;
    StructlessReadable(SetV(a), SetV(b), parent, res);
    ReadableMerges(SetV(a), SetV(b), parent, res, garbled);
    var before := if p.Some? then p.value else {};
    var r := set k | k in a + b && (k in before ==> k in a && k in b);
    assert Children(Base(SetV(a), parent)).Keys == before;
    forall k ensures MergeAt(SetV(a), SetV(b), parent, res, k) == Keep(Get(Children(SetV(r)), k)) {}
    AllKept(SetV(a), SetV(b), parent, res, Children(SetV(r)));
    assert Children(SetV(r)).Keys == r;
  }

  /**
   * Two identical candidates merge to themselves exactly if they and the parent are collections of one kind and name,
   * and are diffed rightly.
   */
  lemma IdenticalCandidates(a: Value, p: Option<Value>, res: Resolver, garbled: Garbled)
    ensures Coiterated(a, a, p, res, garbled) == Merged(a) <==>
            && Compound(a)
            && (p.Some? ==> KindOf(p.value) == KindOf(a) && (a.StructV? ==> p.value.name == a.name))
            && ShortTails(a, Base(a, p))
  {
    hide Coiterated, Reports, ShortTails, Unreadable, Get, Children;
    if Mergeable(a, a, p) {
      forall k
        ensures CoAt(a, a, p, res, garbled, k) ==
                Keep(if Reports(a, Base(a, p), k) == 0 then Get(Children(Base(a, p)), k) else Get(Children(a), k))
      {
        Unfolded(a, a, p, res, garbled, k);
      }
      if ShortTails(a, Base(a, p)) {
        ShortTailsRead(a, Base(a, p), garbled);
        forall k ensures CoAt(a, a, p, res, garbled, k) == Keep(Get(Children(a), k)) {
          ShortTailsReport(a, Base(a, p), k);
        }
        CoAllKept(a, a, p, res, garbled, Children(a));
        BaseNamed(a, p);
      } else if Coiterated(a, a, p, res, garbled) == Merged(a) {
        var k := LongTailsLose(a, Base(a, p));
        CoMergedAt(a, a, p, res, garbled, k);
      }
    } else {
      NotMergeable(a, a, p, res, garbled);
    }
  }

  lemma BaseNamed(a: Value, p: Option<Value>)
    requires Mergeable(a, a, p)
    ensures Rebuild(Base(a, p), Children(a)) == a <==> (p.Some? && a.StructV? ==> p.value.name == a.name)
  {
  }

  lemma NotMergeable(a: Value, b: Value, p: Option<Value>, res: Resolver, garbled: Garbled)
    requires !Mergeable(a, b, p)
    ensures Coiterated(a, b, p, res, garbled) == Conflict && ThreeWay(a, b, p, res) == Conflict
  {
  }

  /** A struct renamed by both candidates keeps the parent's name. */
  lemma RenameIsLost(garbled: Garbled)
    ensures Coiterated(
              StructV("new", map[]), StructV("new", map[]), Some(StructV("old", map[])), NoResolver, garbled)
              == Merged(StructV("old", map[]))
  {
    hide Coiterated;
    var a, p := StructV("new", map[]), StructV("old", map[]);
    assert Leftover(Children(a), Children(p)) == {} == Leftover(Children(p), Children(a));
    forall k ensures CoAt(a, a, Some(p), NoResolver, garbled, k) == Keep(Get(map[], k)) {
      Unfolded(a, a, Some(p), NoResolver, garbled, k);
    }
    CoAllKept(a, a, Some(p), NoResolver, garbled, map[]);
  }

  /**
   * A struct that one side gave its first two fields: the merge loses the second, or fails, although the other side
   * changed nothing.
   */
  lemma FieldIsLost(x: Value, y: Value, res: Resolver, garbled: Garbled)
    ensures var p, a := StructV("S", map[]), StructV("S", map[0 := x, 1 := y]);
            Coiterated(a, p, Some(p), res, garbled) ==
            if garbled(a.entries, p.entries, 1) then Failed else Merged(StructV("S", map[0 := x]))
  {
    hide Coiterated;
    var p, a, m := StructV("S", map[]), StructV("S", map[0 := x, 1 := y]), map[0 := x];
    TwoLeftover(x, y);
    assert Unreadable(a, p, garbled) <==> garbled(a.entries, p.entries, 1);
    assert !Unreadable(p, p, garbled) by { NothingUnreadable(p, garbled); }
    if garbled(a.entries, p.entries, 1) {
      DiffFails(a, p, Some(p), res, garbled);
    } else {
      forall k ensures CoAt(a, p, Some(p), res, garbled, k) == Keep(Get(m, k)) {
        Unfolded(a, p, Some(p), res, garbled, k);
        NothingReported(p, k);
      }
      CoAllKept(a, p, Some(p), res, garbled, m);
    }
  }

  /** If the other side has the lost field too, the merge may be right all the same: it depends on what is misread. */
  lemma LossMadeGood(x: Value, y: Value, res: Resolver, garbled: Garbled)
    ensures var p, a, b := StructV("S", map[]), StructV("S", map[0 := x, 1 := y]), StructV("S", map[1 := y]);
            && !Readable(a, b, Some(p), res)
            && (Coiterated(a, b, Some(p), res, garbled) == ThreeWay(a, b, Some(p), res) <==>
                !garbled(a.entries, p.entries, 1))
  {
    hide Coiterated, ThreeWay;
    var p, a, b := StructV("S", map[]), StructV("S", map[0 := x, 1 := y]), StructV("S", map[1 := y]);
    TwoLeftover(x, y);
    assert Leftover(b.entries, p.entries) == {1} && Leftover(p.entries, b.entries) == {};
    assert Unreadable(a, p, garbled) <==> garbled(a.entries, p.entries, 1);
    assert !Unreadable(b, p, garbled);
    forall k ensures MergeAt(a, b, Some(p), res, k) == Keep(Get(a.entries, k)) {}
    AllKept(a, b, Some(p), res, a.entries);
    if garbled(a.entries, p.entries, 1) {
      DiffFails(a, b, Some(p), res, garbled);
    } else {
      forall k ensures CoAt(a, b, Some(p), res, garbled, k) == Keep(Get(a.entries, k)) {
        Unfolded(a, b, Some(p), res, garbled, k);
      }
      CoAllKept(a, b, Some(p), res, garbled, a.entries);
    }
  }

  lemma TwoLeftover(x: Value, y: Value)
    ensures var a: map<Key, Value>, p: map<Key, Value> := map[0 := x, 1 := y], map[];
            Leftover(a, p) == {0, 1} && |Leftover(a, p)| == 2 && Leftover(p, a) == {}
  {
    var a: map<Key, Value>, p: map<Key, Value> := map[0 := x, 1 := y], map[];
    assert Leftover(a, p) == {0, 1};
  }

  /** What a successful merge holds under a key. */
  lemma MergedAt(a: Value, b: Value, p: Option<Value>, res: Resolver, k: Key)
    requires ThreeWay(a, b, p, res).Merged?
    ensures Mergeable(a, b, p)
    ensures MergeAt(a, b, p, res, k) == Keep(Get(Children(ThreeWay(a, b, p, res).value), k))
  {
    hide MergeAt, Kept, Children, Get, Rebuild, Base;
    KeptChildren(a, b, p, res);
    AtKeepsOrClashes(a, b, p, res, k);
    if MergeAt(a, b, p, res, k).Clash? {
      ClashConflicts(a, b, p, res, k);
    }
    KeptGet(a, b, p, res, k);
  }

  lemma Absent(a: Value, b: Value, p: Option<Value>, res: Resolver, k: Key)
    requires Mergeable(a, b, p) && k !in KeysOf(a, b, p)
    ensures MergeAt(a, b, p, res, k) == Keep(None)
  {
    hide ThreeWay;
  }

  lemma KeptChildren(a: Value, b: Value, p: Option<Value>, res: Resolver)
    requires Mergeable(a, b, p)
    ensures Children(Rebuild(Base(a, p), Kept(a, b, p, res))) == Kept(a, b, p, res)
  {
    hide ThreeWay, MergeAt;
    forall k | k in Kept(a, b, p, res) ensures Fits(Base(a, p), k, Some(Kept(a, b, p, res)[k])) {
      KeptFits(a, b, p, res, k);
    }
  }
}
