/** Differences and patches. */
module DiffPatch {

  // Differences between nested maps, sets and structs, and what applying them one by one does.

  import opened Options
  import opened Sorting
  import opened StructDiffs
  import opened Values

  /** A hash of a key; hashes are taken to be injective. */
  datatype Hash = HashOf(key: Key)

  /** One step from a collection to a child. */
  datatype Part = Field(key: Key) | Index(key: Key) | HashIndex(hash: Hash)

  function KeyOf(part: Part): Key
  {
    if part.HashIndex? then part.hash.key else part.key
  }

  type Path = seq<Part>

  datatype Difference = Difference(path: Path, kind: ChangeType, oldValue: Option<Value>, newValue: Option<Value>)

  type Patch = seq<Difference>

  // ----- Setting a value at a path -----

  /** A difference seen from the child its path starts with. */
  function Tail(d: Difference): Difference
    requires d.path != []
  {
    d.(path := d.path[1..])
  }

  /** c after the difference. */
  function SetAt(c: Option<Value>, d: Difference): Option<Value>
    decreases |d.path|
  {
    if d.path == [] then (if d.kind.Removed? then None else d.newValue)
    else if c.None? then None
    else
      var m := Children(c.value);
      var k := KeyOf(d.path[0]);
      Some(Rebuild(c.value, Put(m, k, SetAt(Get(m, k), Tail(d)))))
  }

  function SetAll(c: Option<Value>, patch: Patch): Option<Value>
    decreases |patch|
  {
    if patch == [] then c else SetAll(SetAt(c, patch[0]), patch[1..])
  }

  /** The change an element of a set can undergo. */
  predicate ElementChange(d: Difference, k: Key)
  {
    || (d.kind.Added? && d.oldValue == None && d.newValue == Some(Prim(k)))
    || (d.kind.Removed? && d.oldValue == Some(Prim(k)) && d.newValue == None)
  }

  /** The path leads through collections that are there, and the difference is one its last collection can take. */
  predicate Fits(c: Option<Value>, d: Difference)
    decreases |d.path|
  {
    if d.path == [] then d.kind.Removed? || d.newValue.Some?
    else
      var k := KeyOf(d.path[0]);
      && c.Some?
      && Compound(c.value)
      && (c.value.SetV? ==> |d.path| == 1 && ElementChange(d, k))
      && Fits(Get(Children(c.value), k), Tail(d))
  }

  predicate AllFit(c: Option<Value>, patch: Patch)
    decreases |patch|
  {
    patch == [] || (Fits(c, patch[0]) && AllFit(SetAt(c, patch[0]), patch[1..]))
  }

  /** Where a difference leads through a key, what it does under that key. */
  function Project(patch: Patch, k: Key): Patch
  {
    if patch == [] then []
    else
      var rest := Project(patch[1..], k);
      if patch[0].path != [] && KeyOf(patch[0].path[0]) == k then [Tail(patch[0])] + rest else rest
  }

  lemma {:induction false} ProjectAppend(a: Patch, b: Patch, k: Key)
    ensures Project(a + b, k) == Project(a, k) + Project(b, k)
  {
    if a == [] {
      assert a + b == b;
    } else {
      assert (a + b)[1..] == a[1..] + b;
      ProjectAppend(a[1..], b, k);
    }
  }

  predicate Below(patch: Patch)
  {
    forall i :: 0 <= i < |patch| ==> patch[i].path != []
  }

  /** One difference below v changes the child under its key and nothing else. */
  lemma SetBelow(v: Value, d: Difference)
    requires d.path != [] && Fits(Some(v), d)
    ensures var k := KeyOf(d.path[0]); var r := SetAt(Some(v), d);
            && r.Some? && Compound(r.value) && KindOf(r.value) == KindOf(v)
            && Rebuild(r.value, map[]) == Rebuild(v, map[])
            && Children(r.value) == Put(Children(v), k, SetAt(Get(Children(v), k), Tail(d)))
  {
  }

  /** The elements a patch below a set names undergo changes that elements can undergo. */
  predicate FitsSet(v: Value, patch: Patch)
  {
    v.SetV? ==> forall i :: 0 <= i < |patch| && patch[i].path != [] ==>
      |patch[i].path| == 1 && ElementChange(patch[i], KeyOf(patch[i].path[0]))
  }

  /** A patch below a collection acts on each child by itself, in whatever order its differences come. */
  lemma {:induction false} SetAllBelow(v: Value, patch: Patch)
    requires Compound(v) && Below(patch) && FitsSet(v, patch)
    requires forall k :: AllFit(Get(Children(v), k), Project(patch, k))
    ensures AllFit(Some(v), patch)
    ensures var r := SetAll(Some(v), patch);
            && r.Some? && KindOf(r.value) == KindOf(v) && Rebuild(r.value, map[]) == Rebuild(v, map[])
            && forall k :: Get(Children(r.value), k) == SetAll(Get(Children(v), k), Project(patch, k))
    decreases |patch|
  {
    hide Children, Get, SetAt, KindOf, Rebuild, Fits;
    if patch != [] {
      var d, rest := patch[0], patch[1..];
      var k0 := KeyOf(d.path[0]);
      FitsBelow(v, d) by { assert AllFit(Get(Children(v), k0), Project(patch, k0)); }
      SetBelow(v, d);
      var v' := SetAt(Some(v), d).value;
      forall k
        ensures Get(Children(v'), k) == if k == k0 then SetAt(Get(Children(v), k), Tail(d)) else Get(Children(v), k)
      {
        GetPut(Children(v), k0, SetAt(Get(Children(v), k0), Tail(d)), k);
      }
      forall k ensures AllFit(Get(Children(v'), k), Project(rest, k)) {
        assert AllFit(Get(Children(v), k), Project(patch, k));
      }
      SetKept(v, v', d, rest);
      SetAllBelow(v', rest);
    }
  }

  lemma GetPut(m: map<Key, Value>, k: Key, v: Option<Value>, j: Key)
    ensures Get(Put(m, k, v), j) == if j == k then v else Get(m, j)
  {
  }

  lemma FitsBelow(v: Value, d: Difference)
    requires Compound(v) && d.path != [] && FitsSet(v, [d]) && Fits(Get(Children(v), KeyOf(d.path[0])), Tail(d))
    ensures Fits(Some(v), d)
  {
    assert [d][0] == d;
  }

  lemma SetKept(v: Value, v': Value, d: Difference, rest: Patch)
    requires KindOf(v') == KindOf(v) && FitsSet(v, [d] + rest)
    ensures FitsSet(v', rest) && FitsSet(v, [d])
  {
    var patch := [d] + rest;
    assert patch[0] == d;
    assert forall i :: 0 <= i < |rest| ==> rest[i] == patch[i + 1];
  }

  // ----- Differences between two values -----

  /** Two values are compared child by child instead of being replaced as a whole. */
  predicate ShouldDescend(v1: Value, v2: Value)
  {
    Compound(v1) && KindOf(v1) == KindOf(v2)
  }

  predicate Descends(c1: Option<Value>, c2: Option<Value>)
  {
    c1 != c2 && c1.Some? && c2.Some? && ShouldDescend(c1.value, c2.value)
  }

  /** How a child is named in a path; which keys can be written as an index is a property of the key. */
  function PartFor(v: Value, k: Key, indexable: Key -> bool): Part
  {
    if v.StructV? then Field(k) else if indexable(k) then Index(k) else HashIndex(HashOf(k))
  }

  /** A part names a field exactly in a struct, and a key by its hash exactly if it cannot be written as an index. */
  predicate Suits(part: Part, v: Value, indexable: Key -> bool)
  {
    if v.StructV? then part.Field?
    else !part.Field? && (part.Index? <==> indexable(KeyOf(part)))
  }

  /** The difference between children that are not compared any deeper. */
  function Leaf(c1: Option<Value>, c2: Option<Value>): Patch
  {
    if c1 == c2 then [] else [Difference([], ChangeOf(c1, c2), c1, c2)]
  }

  /** A difference that is reported several times. */
  function Again(patch: Patch, n: nat): Patch
  {
    if n == 0 then [] else patch + Again(patch, n - 1)
  }

  /**
   * The patch lists the differences from v1 to v2 below their root, in any order. Fields that the diff of two structs
   * loses are missing, and the one it reports in their place is repeated.
   */
  ghost predicate IsPatchBelow(patch: Patch, v1: Value, v2: Value, indexable: Key -> bool)
    requires ShouldDescend(v1, v2)
    decreases v1
  {
    && (forall i :: 0 <= i < |patch| ==>
          patch[i].path != [] && Suits(patch[i].path[0], v1, indexable))
    && forall k ::
         var c1, c2 := Get(Children(v1), k), Get(Children(v2), k);
         if Descends(c1, c2) then IsPatchBelow(Project(patch, k), c1.value, c2.value, indexable)
         else Project(patch, k) == Again(Leaf(c1, c2), Reports(v2, v1, k))
  }

  ghost predicate IsPatch(patch: Patch, c1: Option<Value>, c2: Option<Value>, indexable: Key -> bool)
  {
    if Descends(c1, c2) then IsPatchBelow(patch, c1.value, c2.value, indexable) else patch == Leaf(c1, c2)
  }

  /** The part of a patch that lies under one key. */
  ghost predicate IsChildPatch(sub: Patch, c1: Option<Value>, c2: Option<Value>, times: nat, indexable: Key -> bool)
  {
    if Descends(c1, c2) then IsPatchBelow(sub, c1.value, c2.value, indexable) else sub == Again(Leaf(c1, c2), times)
  }

  lemma IsPatchAt(patch: Patch, v1: Value, v2: Value, indexable: Key -> bool, k: Key)
    requires ShouldDescend(v1, v2) && IsPatchBelow(patch, v1, v2, indexable)
    ensures IsChildPatch(
              Project(patch, k), Get(Children(v1), k), Get(Children(v2), k), Reports(v2, v1, k), indexable)
    ensures Below(patch)
  {
    hide Reports;
  }

  /** A child that is compared any deeper is in both values, and reported once. */
  lemma DescendsOnce(v1: Value, v2: Value, k: Key)
    requires Descends(Get(Children(v1), k), Get(Children(v2), k))
    ensures Reports(v2, v1, k) == 1
  {
  }

  lemma {:induction false} AgainHas(patch: Patch, n: nat, d: Difference)
    requires d in Again(patch, n)
    ensures d in patch
  {
    if d !in patch {
      AgainHas(patch, n - 1, d);
    }
  }

  lemma {:induction false} AgainMore(patch: Patch, n: nat)
    ensures Again(patch, n) + patch == Again(patch, n + 1)
  {
    if n == 0 {
      assert [] + patch == patch + [];
    } else {
      AgainMore(patch, n - 1);
      assert (patch + Again(patch, n - 1)) + patch == patch + (Again(patch, n - 1) + patch);
    }
  }

  // ----- What a patch leads to -----

  /**
   * v2, except that structs that were compared field by field keep their names from v1, and stay as in v1 in the fields
   * their diff loses.
   */
  ghost function Reached(v1: Value, v2: Value): Value
    requires ShouldDescend(v1, v2)
    decreases v1
  {
    Rebuild(v1, map k | k in Children(v1).Keys + Children(v2).Keys && ReachedAt(v1, v2, k).Some?
                     :: ReachedAt(v1, v2, k).value)
  }

  ghost function ReachedAt(v1: Value, v2: Value, k: Key): Option<Value>
    requires ShouldDescend(v1, v2)
    decreases v1, 0
  {
    var c1, c2 := Get(Children(v1), k), Get(Children(v2), k);
    if Descends(c1, c2) then Some(Reached(c1.value, c2.value)) else if Reports(v2, v1, k) == 0 then c1 else c2
  }

  ghost function Target(c1: Option<Value>, c2: Option<Value>): Option<Value>
  {
    if Descends(c1, c2) then Some(Reached(c1.value, c2.value)) else c2
  }

  lemma ReachedIs(v1: Value, v2: Value, k: Key)
    requires ShouldDescend(v1, v2)
    ensures Get(Children(Reached(v1, v2)), k) == ReachedAt(v1, v2, k)
    ensures KindOf(Reached(v1, v2)) == KindOf(v1) && Rebuild(Reached(v1, v2), map[]) == Rebuild(v1, map[])
  {
    hide Reports;
  }

  lemma SameValue(a: Value, b: Value)
    requires Compound(a) && KindOf(a) == KindOf(b) && Rebuild(a, map[]) == Rebuild(b, map[])
    requires forall k :: Get(Children(a), k) == Get(Children(b), k)
    ensures a == b
  {
    forall k ensures k in Children(a) <==> k in Children(b) {
      assert Get(Children(a), k) == Get(Children(b), k);
    }
    forall k | k in Children(a) ensures Children(a)[k] == Children(b)[k] {
      assert Get(Children(a), k) == Get(Children(b), k);
    }
    assert Children(a) == Children(b);
    if a.SetV? {
      assert Children(a).Keys == a.elems && Children(b).Keys == b.elems;
    }
  }

  lemma PatchFitsSet(patch: Patch, v1: Value, v2: Value, indexable: Key -> bool)
    requires ShouldDescend(v1, v2) && IsPatchBelow(patch, v1, v2, indexable)
    ensures FitsSet(v1, patch)
  {
    if v1.SetV? {
      forall i | 0 <= i < |patch| ensures |patch[i].path| == 1 && ElementChange(patch[i], KeyOf(patch[i].path[0])) {
        var k := KeyOf(patch[i].path[0]);
        ProjectHas(patch, i);
        IsPatchAt(patch, v1, v2, indexable, k);
        AgainHas(Leaf(Get(Children(v1), k), Get(Children(v2), k)), Reports(v2, v1, k), Tail(patch[i]));
      }
    }
  }

  lemma ProjectHas(patch: Patch, i: nat)
    requires i < |patch| && patch[i].path != []
    ensures Tail(patch[i]) in Project(patch, KeyOf(patch[i].path[0]))
  {
    var k := KeyOf(patch[i].path[0]);
    assert patch == patch[..i] + ([patch[i]] + patch[i + 1..]);
    ProjectAppend(patch[..i], [patch[i]] + patch[i + 1..], k);
    ProjectAppend([patch[i]], patch[i + 1..], k);
    assert [patch[i]][1..] == [];
    assert Project([patch[i]], k) == [Tail(patch[i])];
  }

  /** Applying the differences reported from c1 to c2 to c1, in any order, gives what they lead to. */
  lemma PatchLeads(patch: Patch, c1: Option<Value>, c2: Option<Value>, indexable: Key -> bool)
    requires IsPatch(patch, c1, c2, indexable)
    ensures AllFit(c1, patch) && SetAll(c1, patch) == Target(c1, c2)
  {
    if !Descends(c1, c2) {
      LeafLeads(c1, c2);
    } else {
      PatchLeadsBelow(patch, c1.value, c2.value, indexable);
    }
  }

  lemma LeafLeads(c1: Option<Value>, c2: Option<Value>)
    ensures AllFit(c1, Leaf(c1, c2)) && SetAll(c1, Leaf(c1, c2)) == c2
  {
    AgainLeads(c1, c1, c2, 1);
    assert Again(Leaf(c1, c2), 0) == [] && Leaf(c1, c2) + [] == Leaf(c1, c2);
  }

  /** Repeating a difference makes no difference; leaving it out does. */
  lemma {:induction false} AgainLeads(c: Option<Value>, c1: Option<Value>, c2: Option<Value>, n: nat)
    requires c == c1 || c == c2
    ensures AllFit(c, Again(Leaf(c1, c2), n))
    ensures SetAll(c, Again(Leaf(c1, c2), n)) == if n == 0 then c else c2
    decreases n
  {
    if n > 0 {
      if c1 == c2 {
        AgainLeads(c, c1, c2, n - 1);
        assert [] + Again(Leaf(c1, c2), n - 1) == Again(Leaf(c1, c2), n - 1);
      } else {
        var d := Difference([], ChangeOf(c1, c2), c1, c2);
        AgainLeads(c2, c1, c2, n - 1);
        assert Again(Leaf(c1, c2), n)[1..] == Again(Leaf(c1, c2), n - 1);
        assert SetAt(c, d) == c2;
      }
    }
  }

  lemma {:induction false} PatchLeadsBelow(patch: Patch, v1: Value, v2: Value, indexable: Key -> bool)
    requires ShouldDescend(v1, v2) && IsPatchBelow(patch, v1, v2, indexable)
    ensures AllFit(Some(v1), patch) && SetAll(Some(v1), patch) == Some(Reached(v1, v2))
    decreases v1
  {
    hide IsPatchBelow, SetAll, AllFit, Reached, Rebuild, FitsSet, Below, Leaf, Again, Reports;
    assert Below(patch) by { IsPatchAt(patch, v1, v2, indexable, 0); }
    PatchFitsSet(patch, v1, v2, indexable);
    forall k ensures AllFit(Get(Children(v1), k), Project(patch, k))
               && SetAll(Get(Children(v1), k), Project(patch, k)) == ReachedAt(v1, v2, k)
    {
      IsPatchAt(patch, v1, v2, indexable, k);
      var c1, c2 := Get(Children(v1), k), Get(Children(v2), k);
      if Descends(c1, c2) {
        PatchLeadsBelow(Project(patch, k), c1.value, c2.value, indexable);
      } else {
        AgainLeads(c1, c1, c2, Reports(v2, v1, k));
      }
    }
    SetAllBelow(v1, patch);
    var r := SetAll(Some(v1), patch).value;
    forall k ensures Get(Children(r), k) == Get(Children(Reached(v1, v2)), k) {
      ReachedIs(v1, v2, k);
    }
    ReachedIs(v1, v2, 0);
    SameValue(r, Reached(v1, v2));
  }

  // ----- When the target is the second value -----

  /** Structs that are compared field by field have the same names. */
  ghost predicate NamesAgree(c1: Option<Value>, c2: Option<Value>)
  {
    Descends(c1, c2) ==> NamesAgreeBelow(c1.value, c2.value)
  }

  ghost predicate NamesAgreeBelow(v1: Value, v2: Value)
    requires ShouldDescend(v1, v2)
    decreases v1
  {
    && (v1.StructV? ==> v1.name == v2.name)
    && forall k ::
         var c1, c2 := Get(Children(v1), k), Get(Children(v2), k);
         Descends(c1, c2) ==> NamesAgreeBelow(c1.value, c2.value)
  }

  /** Of two structs that are compared field by field neither has two fields after all fields of the other. */
  ghost predicate TailsShort(c1: Option<Value>, c2: Option<Value>)
  {
    Descends(c1, c2) ==> TailsShortBelow(c1.value, c2.value)
  }

  ghost predicate TailsShortBelow(v1: Value, v2: Value)
    requires ShouldDescend(v1, v2)
    decreases v1
  {
    && ShortTails(v2, v1)
    && forall k ::
         var c1, c2 := Get(Children(v1), k), Get(Children(v2), k);
         Descends(c1, c2) ==> TailsShortBelow(c1.value, c2.value)
  }

  lemma {:induction false} ReachedExact(v1: Value, v2: Value)
    requires ShouldDescend(v1, v2)
    ensures Reached(v1, v2) == v2 <==> NamesAgreeBelow(v1, v2) && TailsShortBelow(v1, v2)
    decreases v1
  {
    hide Reached, Rebuild, Reports, ShortTails;
    forall k
      ensures var c1, c2 := Get(Children(v1), k), Get(Children(v2), k);
              Get(Children(Reached(v1, v2)), k) == c2 <==>
              && (Reports(v2, v1, k) == 0 ==> c1 == c2)
              && (Descends(c1, c2) ==> NamesAgreeBelow(c1.value, c2.value) && TailsShortBelow(c1.value, c2.value))
    {
      ReachedIs(v1, v2, k);
      var c1, c2 := Get(Children(v1), k), Get(Children(v2), k);
      if Descends(c1, c2) {
        DescendsOnce(v1, v2, k);
        ReachedExact(c1.value, c2.value);
      }
    }
    ReachedIs(v1, v2, 0);
    NamesByRebuild(v1, v2);
    if !ShortTails(v2, v1) {
      var k := LongTailsLose(v2, v1);
      assert Get(Children(Reached(v1, v2)), k) != Get(Children(v2), k);
    } else if NamesAgreeBelow(v1, v2) && TailsShortBelow(v1, v2) {
      forall k ensures Reports(v2, v1, k) == 0 ==> Get(Children(v1), k) == Get(Children(v2), k) {
        ShortTailsReport(v2, v1, k);
      }
      SameValue(Reached(v1, v2), v2);
    }
  }

  lemma NamesByRebuild(v1: Value, v2: Value)
    requires ShouldDescend(v1, v2)
    ensures Rebuild(v1, map[]) == Rebuild(v2, map[]) <==> (v1.StructV? ==> v1.name == v2.name)
  {
  }

  /**
   * The documented law holds exactly when, of the structs on the way, none was renamed and none has two fields after
   * all fields of the other.
   */
  lemma PatchInvertsDiff(patch: Patch, v1: Value, v2: Value, indexable: Key -> bool)
    requires IsPatch(patch, Some(v1), Some(v2), indexable)
    ensures SetAll(Some(v1), patch) == Some(v2) <==>
            NamesAgree(Some(v1), Some(v2)) && TailsShort(Some(v1), Some(v2))
  {
    hide IsPatch, SetAll, Reached, NamesAgreeBelow, TailsShortBelow;
    PatchLeads(patch, Some(v1), Some(v2), indexable);
    if Descends(Some(v1), Some(v2)) {
      ReachedExact(v1, v2);
    }
  }

  // ----- Emitting differences -----

  /** The differences of a child as differences of its parent. */
  function Under(part: Part, patch: Patch): (r: Patch)
    ensures |r| == |patch| && forall i :: 0 <= i < |r| ==> r[i] == patch[i].(path := [part] + patch[i].path)
  {
    seq(|patch|, i requires 0 <= i < |patch| => patch[i].(path := [part] + patch[i].path))
  }

  lemma {:induction false} ProjectUnder(part: Part, patch: Patch, k: Key)
    ensures Project(Under(part, patch), k) == if KeyOf(part) == k then patch else []
  {
    if patch != [] {
      var r := Under(part, patch);
      assert r[1..] == Under(part, patch[1..]);
      ProjectUnder(part, patch[1..], k);
      assert Tail(r[0]) == patch[0] by { assert ([part] + patch[0].path)[1..] == patch[0].path; }
      assert patch == [patch[0]] + patch[1..];
    }
  }

  /** The differences under the keys handled so far. */
  ghost predicate Emitted(patch: Patch, v1: Value, v2: Value, indexable: Key -> bool, changes: seq<Change>, i: nat)
    requires i <= |changes|
  {
    && (forall j :: 0 <= j < |patch| ==>
          patch[j].path != [] && Suits(patch[j].path[0], v1, indexable))
    && forall k :: EmittedAt(Project(patch, k), v1, v2, indexable, Occurs(changes[..i], k), k)
  }

  ghost predicate EmittedAt(sub: Patch, v1: Value, v2: Value, indexable: Key -> bool, done: nat, k: Key)
  {
    var c1, c2 := Get(Children(v1), k), Get(Children(v2), k);
    if done == 0 then sub == [] else IsChildPatch(sub, c1, c2, done, indexable)
  }

  lemma EmittedStep(patch: Patch, v1: Value, v2: Value, indexable: Key -> bool, changes: seq<Change>, i: nat,
                    sub: Patch)
    requires i < |changes| && Emitted(patch, v1, v2, indexable, changes, i)
    requires var k := changes[i].key; var c1, c2 := Get(Children(v1), k), Get(Children(v2), k);
             IsPatch(sub, c1, c2, indexable) && (Descends(c1, c2) ==> Occurs(changes[..i], k) == 0)
    ensures Emitted(patch + Under(PartFor(v1, changes[i].key, indexable), sub), v1, v2, indexable, changes, i + 1)
  {
    hide IsPatch, IsChildPatch, Children, Get, Project, Occurs, Descends;
    var k0 := changes[i].key;
    var part := PartFor(v1, k0, indexable);
    var more := Under(part, sub);
    assert changes[..i + 1] == changes[..i] + [changes[i]];
    forall k ensures EmittedAt(Project(patch + more, k), v1, v2, indexable, Occurs(changes[..i + 1], k), k) {
      OccursAppend(changes[..i], changes[i], k);
      ProjectAppend(patch, more, k);
      ProjectUnder(part, sub, k);
      assert EmittedAt(Project(patch, k), v1, v2, indexable, Occurs(changes[..i], k), k);
      if k == k0 {
        var c1, c2 := Get(Children(v1), k), Get(Children(v2), k);
        OnceMore(Project(patch, k), sub, c1, c2, Occurs(changes[..i], k), indexable);
      } else {
        assert Project(patch + more, k) == Project(patch, k);
      }
    }
  }

  lemma OnceMore(done: Patch, sub: Patch, c1: Option<Value>, c2: Option<Value>, n: nat, indexable: Key -> bool)
    requires if n == 0 then done == [] else IsChildPatch(done, c1, c2, n, indexable)
    requires IsPatch(sub, c1, c2, indexable) && (Descends(c1, c2) ==> n == 0)
    ensures IsChildPatch(done + sub, c1, c2, n + 1, indexable)
  {
    hide IsPatchBelow, Leaf, Descends;
    AgainMore(Leaf(c1, c2), n);
    assert n == 0 ==> done + sub == sub;
  }

  lemma EmittedAll(patch: Patch, v1: Value, v2: Value, indexable: Key -> bool, changes: seq<Change>)
    requires ShouldDescend(v1, v2) && IsReport(changes, v2, v1)
    requires Emitted(patch, v1, v2, indexable, changes, |changes|)
    ensures IsPatchBelow(patch, v1, v2, indexable)
  {
    hide Children, Project, Get, Occurs, Reports, Leaf, Descends, IsChildPatch;
    assert changes[..|changes|] == changes;
    forall k
      ensures IsChildPatch(
                Project(patch, k), Get(Children(v1), k), Get(Children(v2), k), Reports(v2, v1, k), indexable)
    {
      assert EmittedAt(Project(patch, k), v1, v2, indexable, Occurs(changes[..|changes|], k), k);
      NothingReported(v1, v2, k, indexable);
    }
    BelowByKeys(patch, v1, v2, indexable);
  }

  lemma NothingReported(v1: Value, v2: Value, k: Key, indexable: Key -> bool)
    ensures Reports(v2, v1, k) == 0 ==> IsChildPatch([], Get(Children(v1), k), Get(Children(v2), k), 0, indexable)
  {
    hide Reports;
    if Descends(Get(Children(v1), k), Get(Children(v2), k)) {
      DescendsOnce(v1, v2, k);
    }
  }

  lemma BelowByKeys(patch: Patch, v1: Value, v2: Value, indexable: Key -> bool)
    requires ShouldDescend(v1, v2)
    requires forall i :: 0 <= i < |patch| ==>
               patch[i].path != [] && Suits(patch[i].path[0], v1, indexable)
    requires forall k :: IsChildPatch(
               Project(patch, k), Get(Children(v1), k), Get(Children(v2), k), Reports(v2, v1, k), indexable)
    ensures IsPatchBelow(patch, v1, v2, indexable)
  {
    hide Project, Reports, Leaf, Again;
    forall k
      ensures var c1, c2 := Get(Children(v1), k), Get(Children(v2), k);
              if Descends(c1, c2) then IsPatchBelow(Project(patch, k), c1.value, c2.value, indexable)
              else Project(patch, k) == Again(Leaf(c1, c2), Reports(v2, v1, k))
    {
      assert IsChildPatch(
          Project(patch, k), Get(Children(v1), k), Get(Children(v2), k), Reports(v2, v1, k), indexable);
    }
  }

  lemma NothingEmitted(v1: Value, v2: Value, indexable: Key -> bool, changes: seq<Change>)
    ensures Emitted([], v1, v2, indexable, changes, 0)
  {
  }

  /** The diff of two structs on the way fails. */
  ghost predicate Broken(v1: Value, v2: Value, garbled: Garbled)
    requires ShouldDescend(v1, v2)
    decreases v1
  {
    || Unreadable(v2, v1, garbled)
    || exists k ::
         var c1, c2 := Get(Children(v1), k), Get(Children(v2), k);
         Descends(c1, c2) && Broken(c1.value, c2.value, garbled)
  }

  ghost predicate BrokenAt(v1: Value, v2: Value, garbled: Garbled, k: Key)
  {
    var c1, c2 := Get(Children(v1), k), Get(Children(v2), k);
    Descends(c1, c2) && Broken(c1.value, c2.value, garbled)
  }

  lemma BrokenBy(v1: Value, v2: Value, garbled: Garbled, k: Key)
    requires ShouldDescend(v1, v2) && (Unreadable(v2, v1, garbled) || BrokenAt(v1, v2, garbled, k))
    ensures Broken(v1, v2, garbled)
  {
    hide Unreadable;
  }

  /** With short tails no diff fails. */
  lemma {:induction false} ShortNotBroken(v1: Value, v2: Value, garbled: Garbled)
    requires ShouldDescend(v1, v2) && TailsShortBelow(v1, v2)
    ensures !Broken(v1, v2, garbled)
    decreases v1
  {
    hide Unreadable, ShortTails;
    ShortTailsRead(v2, v1, garbled);
    forall k | Descends(Get(Children(v1), k), Get(Children(v2), k)) ensures !BrokenAt(v1, v2, garbled, k) {
      var c1, c2 := Get(Children(v1), k), Get(Children(v2), k);
      ChildBelow(v1, k, c1);
      ShortNotBroken(c1.value, c2.value, garbled);
    }
  }

  /** No diff under the keys handled so far fails. */
  ghost predicate SoundSoFar(v1: Value, v2: Value, garbled: Garbled, changes: seq<Change>, i: nat)
    requires i <= |changes|
  {
    forall k :: Occurs(changes[..i], k) > 0 ==> !BrokenAt(v1, v2, garbled, k)
  }

  lemma SoundStart(v1: Value, v2: Value, garbled: Garbled, changes: seq<Change>)
    ensures SoundSoFar(v1, v2, garbled, changes, 0)
  {
  }

  lemma SoundStep(v1: Value, v2: Value, garbled: Garbled, changes: seq<Change>, i: nat)
    requires i < |changes| && SoundSoFar(v1, v2, garbled, changes, i)
    requires !BrokenAt(v1, v2, garbled, changes[i].key)
    ensures SoundSoFar(v1, v2, garbled, changes, i + 1)
  {
    hide Occurs, BrokenAt;
    assert changes[..i + 1] == changes[..i] + [changes[i]];
    forall k | Occurs(changes[..i + 1], k) > 0 ensures !BrokenAt(v1, v2, garbled, k) {
      OccursAppend(changes[..i], changes[i], k);
    }
  }

  lemma SoundEnd(v1: Value, v2: Value, garbled: Garbled, changes: seq<Change>)
    requires ShouldDescend(v1, v2) && IsReport(changes, v2, v1) && !Unreadable(v2, v1, garbled)
    requires SoundSoFar(v1, v2, garbled, changes, |changes|)
    ensures !Broken(v1, v2, garbled)
  {
    hide Occurs, Reports, Unreadable;
    assert changes[..|changes|] == changes;
    forall k | Descends(Get(Children(v1), k), Get(Children(v2), k)) ensures !BrokenAt(v1, v2, garbled, k) {
      DescendsOnce(v1, v2, k);
      assert Occurs(changes[..|changes|], k) == 1;
    }
  }

  lemma FirstTime(v1: Value, v2: Value, changes: seq<Change>, i: nat)
    requires i < |changes| && IsReport(changes, v2, v1)
    ensures var k := changes[i].key;
            Descends(Get(Children(v1), k), Get(Children(v2), k)) ==> Occurs(changes[..i], k) == 0
  {
    hide Occurs, Reports, Descends;
    var k := changes[i].key;
    if Descends(Get(Children(v1), k), Get(Children(v2), k)) {
      DescendsOnce(v1, v2, k);
      OccursUpTo(changes, i + 1, k);
      OccursAppend(changes[..i], changes[i], k);
      assert changes[..i + 1] == changes[..i] + [changes[i]];
    }
  }

  /** Differences of two collections of one kind, in key order, deeper ones in the place of the child they are in. */
  method DiffOrdered(v1: Value, v2: Value, indexable: Key -> bool, garbled: Garbled) returns (r: Option<Patch>)
    requires ShouldDescend(v1, v2)
    ensures r.None? <==> Broken(v1, v2, garbled)
    ensures r.Some? ==> IsPatchBelow(r.value, v1, v2, indexable)
    decreases v1
  {
    hide *;
    var report := Report(v2, v1, garbled);
    if report.None? {
      BrokenBy(v1, v2, garbled, 0);
      return None;
    }
    var changes := report.value;
    var patch: Patch := [];
    NothingEmitted(v1, v2, indexable, changes);
    SoundStart(v1, v2, garbled, changes);
    for i := 0 to |changes|
      invariant Emitted(patch, v1, v2, indexable, changes, i) && SoundSoFar(v1, v2, garbled, changes, i)
    {
      var k := changes[i].key;
      var c1, c2 := Get(Children(v1), k), Get(Children(v2), k);
      FirstTime(v1, v2, changes, i);
      ChildPatch(v1, v2, k, indexable, garbled);
      var sub := Leaf(c1, c2);
      if Descends(c1, c2) {
        var deeper := DiffOrdered(c1.value, c2.value, indexable, garbled);
        if deeper.None? {
          BrokenBy(v1, v2, garbled, k);
          return None;
        }
        sub := deeper.value;
      }
      EmittedStep(patch, v1, v2, indexable, changes, i, sub);
      SoundStep(v1, v2, garbled, changes, i);
      patch := patch + Under(PartFor(v1, k, indexable), sub);
    }
    EmittedAll(patch, v1, v2, indexable, changes);
    SoundEnd(v1, v2, garbled, changes);
    r := Some(patch);
  }

  /** What a child is compared for. */
  lemma ChildPatch(v1: Value, v2: Value, k: Key, indexable: Key -> bool, garbled: Garbled)
    ensures var c1, c2 := Get(Children(v1), k), Get(Children(v2), k);
            && (Descends(c1, c2) ==>
                  && c1.Some? && c2.Some? && ShouldDescend(c1.value, c2.value) && c1.value < v1
                  && BrokenAt(v1, v2, garbled, k) == Broken(c1.value, c2.value, garbled)
                  && forall sub :: IsPatchBelow(sub, c1.value, c2.value, indexable) ==> IsPatch(sub, c1, c2, indexable))
            && (!Descends(c1, c2) ==> IsPatch(Leaf(c1, c2), c1, c2, indexable) && !BrokenAt(v1, v2, garbled, k))
  {
    hide Broken, IsPatchBelow, Leaf;
    var c1 := Get(Children(v1), k);
    if c1.Some? && Compound(c1.value) {
      ChildBelow(v1, k, c1);
    }
  }

  lemma ChildBelow(v: Value, k: Key, c: Option<Value>)
    requires c == Get(Children(v), k) && c.Some? && Compound(c.value)
    ensures c.value < v
  {
  }

  /** The diff of any two values; None if it fails. */
  method DiffValues(v1: Value, v2: Value, indexable: Key -> bool, garbled: Garbled) returns (r: Option<Patch>)
    ensures r.None? <==> Descends(Some(v1), Some(v2)) && Broken(v1, v2, garbled)
    ensures r.Some? ==> IsPatch(r.value, Some(v1), Some(v2), indexable)
    ensures TailsShort(Some(v1), Some(v2)) ==> r.Some?
  {
    hide Broken, IsPatchBelow, TailsShortBelow;
    if v1 == v2 {
      return Some([]);
    }
    if !ShouldDescend(v1, v2) {
      return Some([Difference([], Modified, Some(v1), Some(v2))]);
    }
    r := DiffOrdered(v1, v2, indexable, garbled);
    if TailsShortBelow(v1, v2) {
      ShortNotBroken(v1, v2, garbled);
    }
  }

  /** Two maps, two sets or two structs. */
  predicate SameCollections(c1: Option<Value>, c2: Option<Value>)
  {
    c1.Some? && c2.Some? && KindOf(c1.value) == KindOf(c2.value) && KindOf(c1.value) in {MapKind, SetKind, StructKind}
  }

  /** No difference turns a collection into another of its kind: such changes are given by deeper differences. */
  lemma {:induction false} DifferencesAreLeaves(
      patch: Patch, c1: Option<Value>, c2: Option<Value>, times: nat, indexable: Key -> bool, d: Difference)
    requires IsChildPatch(patch, c1, c2, times, indexable) && d in patch
    ensures !SameCollections(d.oldValue, d.newValue) && d.oldValue != d.newValue
    ensures SameCollections(c1, c2) ==> d.path != []
    decreases |d.path|
  {
    hide Again, Reports, Project;
    if Descends(c1, c2) {
      var v1, v2 := c1.value, c2.value;
      var i :| 0 <= i < |patch| && patch[i] == d;
      var k := KeyOf(d.path[0]);
      ProjectHas(patch, i);
      IsPatchAt(patch, v1, v2, indexable, k);
      DifferencesAreLeaves(
        Project(patch, k), Get(Children(v1), k), Get(Children(v2), k), Reports(v2, v1, k), indexable, Tail(d));
    } else {
      AgainHas(Leaf(c1, c2), times, d);
    }
  }

  // ----- Any order of a patch will do -----

  lemma {:induction false} ProjectPermuted(p: Patch, q: Patch, k: Key)
    requires multiset(p) == multiset(q)
    ensures multiset(Project(p, k)) == multiset(Project(q, k))
    decreases |p|
  {
    hide Project, Tail, KeyOf;
    if p == [] {
      SameMembers(p, q);
    } else {
      var j := Position(p, q);
      var q' := q[..j] + q[j + 1..];
      Rests(p, q, j);
      ProjectPermuted(p[1..], q', k);
      ProjectMiddle(q, j, k);
      ProjectMiddle(p, 0, k);
      assert p[..0] + p[1..] == p[1..];
    }
  }

  function Head(d: Difference, k: Key): Patch
  {
    if d.path != [] && KeyOf(d.path[0]) == k then [Tail(d)] else []
  }

  lemma ProjectMiddle(q: Patch, j: nat, k: Key)
    requires j < |q|
    ensures multiset(Project(q, k)) == multiset(Project(q[..j] + q[j + 1..], k)) + multiset(Head(q[j], k))
  {
    hide Project, Head;
    assert q == q[..j] + ([q[j]] + q[j + 1..]);
    ProjectAppend(q[..j], [q[j]] + q[j + 1..], k);
    ProjectAppend(q[..j], q[j + 1..], k);
    ProjectOne(q[j], q[j + 1..], k);
  }

  lemma ProjectOne(d: Difference, rest: Patch, k: Key)
    ensures Project([d] + rest, k) == Head(d, k) + Project(rest, k)
  {
    assert ([d] + rest)[1..] == rest;
  }

  /** Reordering a patch gives a patch for the same two values. */
  lemma PatchPermuted(p: Patch, q: Patch, c1: Option<Value>, c2: Option<Value>, indexable: Key -> bool)
    requires multiset(p) == multiset(q) && IsPatch(p, c1, c2, indexable)
    ensures IsPatch(q, c1, c2, indexable)
  {
    if Descends(c1, c2) {
      BelowPermuted(p, q, c1.value, c2.value, indexable);
    } else {
      LeafPermuted(p, q, c1, c2);
    }
  }

  lemma LeafPermuted(p: Patch, q: Patch, c1: Option<Value>, c2: Option<Value>)
    requires multiset(p) == multiset(q) && p == Leaf(c1, c2)
    ensures q == p
  {
    assert Leaf(c1, c2) + [] == Leaf(c1, c2) && Again(Leaf(c1, c2), 0) == [];
    AgainPermuted(p, q, c1, c2, 1);
  }

  lemma AgainPermuted(p: Patch, q: Patch, c1: Option<Value>, c2: Option<Value>, n: nat)
    requires multiset(p) == multiset(q) && p == Again(Leaf(c1, c2), n)
    ensures q == p
  {
    hide Again;
    SameMembers(p, q);
    forall i | 0 <= i < |p| ensures p[i] == q[i] {
      assert p[i] in p && q[i] in q;
      AgainHas(Leaf(c1, c2), n, p[i]);
      AgainHas(Leaf(c1, c2), n, q[i]);
    }
  }

  lemma {:induction false} BelowPermuted(p: Patch, q: Patch, v1: Value, v2: Value, indexable: Key -> bool)
    requires multiset(p) == multiset(q) && ShouldDescend(v1, v2) && IsPatchBelow(p, v1, v2, indexable)
    ensures IsPatchBelow(q, v1, v2, indexable)
    decreases v1
  {
    hide Project, Leaf, Again, Reports, Suits;
    SameMembers(p, q);
    forall i | 0 <= i < |q| ensures q[i].path != [] && Suits(q[i].path[0], v1, indexable) {
      assert q[i] in p;
    }
    forall k
      ensures IsChildPatch(Project(q, k), Get(Children(v1), k), Get(Children(v2), k), Reports(v2, v1, k), indexable)
    {
      ProjectPermuted(p, q, k);
      IsPatchAt(p, v1, v2, indexable, k);
      var c1, c2 := Get(Children(v1), k), Get(Children(v2), k);
      if Descends(c1, c2) {
        BelowPermuted(Project(p, k), Project(q, k), c1.value, c2.value, indexable);
      } else {
        AgainPermuted(Project(p, k), Project(q, k), c1, c2, Reports(v2, v1, k));
      }
    }
    BelowByKeys(q, v1, v2, indexable);
  }
}
