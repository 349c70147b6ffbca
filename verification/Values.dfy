/** Noms values as far as merging and patching look into them. */
module Values {

  import opened Options

  /** Keys, elements and field names by their place in the order of values. */
  type Key = nat

  datatype Value =
    | Prim(n: nat)
    | Tuple(n: nat)
    | MapV(entries: map<Key, Value>)
    | SetV(elems: set<Key>)
    | StructV(name: string, entries: map<Key, Value>)

  datatype Kind = PrimKind | TupleKind | MapKind | SetKind | StructKind

  function KindOf(v: Value): Kind
  {
    match v
    case Prim(_) => PrimKind
    case Tuple(_) => TupleKind
    case MapV(_) => MapKind
    case SetV(_) => SetKind
    case StructV(_, _) => StructKind
  }

  predicate Compound(v: Value)
  {
    v.MapV? || v.SetV? || v.StructV?
  }

  /** What a collection holds under its keys; an element of a set is held under itself. */
  function Children(v: Value): map<Key, Value>
  {
    match v
    case MapV(m) => m
    case StructV(_, m) => m
    case SetV(s) => map k | k in s :: Prim(k)
    case _ => map[]
  }

  function Get(m: map<Key, Value>, k: Key): Option<Value>
  {
    if k in m then Some(m[k]) else None
  }

  /** The collection v with other contents. */
  function Rebuild(v: Value, m: map<Key, Value>): Value
  {
    match v
    case MapV(_) => MapV(m)
    case StructV(name, _) => StructV(name, m)
    case SetV(_) => SetV(m.Keys)
    case _ => v
  }

  function Put(m: map<Key, Value>, k: Key, v: Option<Value>): map<Key, Value>
  {
    if v.Some? then m[k := v.value] else m - {k}
  }

  // ----- Changes -----

  datatype ChangeType = Added | Removed | Modified
  datatype Change = Change(kind: ChangeType, key: Key)

  /** How the value under a key changed, for values that differ. */
  function ChangeOf(last: Option<Value>, now: Option<Value>): ChangeType
  {
    if last.None? then Added else if now.None? then Removed else Modified
  }

  ghost predicate InKeyOrder(changes: seq<Change>)
  {
    forall i, j :: 0 <= i < j < |changes| ==> changes[i].key < changes[j].key
  }

  ghost predicate Changes(changes: seq<Change>, k: Key)
  {
    exists i :: 0 <= i < |changes| && changes[i].key == k
  }

  /** The changes from last to now, in key order: one for every key under which they differ. */
  ghost predicate IsDiff(changes: seq<Change>, now: map<Key, Value>, last: map<Key, Value>)
  {
    && InKeyOrder(changes)
    && (forall k :: Changes(changes, k) <==> Get(now, k) != Get(last, k))
    && (forall i :: 0 <= i < |changes| ==>
          changes[i].kind == ChangeOf(Get(last, changes[i].key), Get(now, changes[i].key)))
  }

  /** k is the first key of s. */
  ghost predicate First(s: set<Key>, k: Key)
  {
    k in s && forall j :: j in s ==> k <= j
  }

  method Least(s: set<Key>) returns (k: Key)
    requires s != {}
    ensures First(s, k)
  {
    k :| k in s;
    var rest := s - {k};
    while rest != {}
      invariant k in s && rest <= s && forall j :: j in s ==> j in rest || k <= j
      decreases |rest|
    {
      var j :| j in rest;
      if j < k {
        k := j;
      }
      rest := rest - {j};
    }
  }

  /** The changes at all keys that are not left. */
  ghost predicate DiffSoFar(changes: seq<Change>, now: map<Key, Value>, last: map<Key, Value>, rest: set<Key>)
  {
    && InKeyOrder(changes)
    && (forall i, k :: 0 <= i < |changes| && k in rest ==> changes[i].key < k)
    && (forall k :: Changes(changes, k) <==> k !in rest && Get(now, k) != Get(last, k))
    && (forall i :: 0 <= i < |changes| ==>
          changes[i].kind == ChangeOf(Get(last, changes[i].key), Get(now, changes[i].key)))
  }

  lemma DiffStep(changes: seq<Change>, now: map<Key, Value>, last: map<Key, Value>, rest: set<Key>, k: Key)
    requires DiffSoFar(changes, now, last, rest) && First(rest, k)
    ensures var c := Change(ChangeOf(Get(last, k), Get(now, k)), k);
            DiffSoFar(if Get(now, k) != Get(last, k) then changes + [c] else changes, now, last, rest - {k})
  {
    hide Get, ChangeOf;
    var c := Change(ChangeOf(Get(last, k), Get(now, k)), k);
    ChangesAppend(changes, c);
  }

  lemma ChangesAppend(changes: seq<Change>, c: Change)
    ensures forall k :: Changes(changes + [c], k) <==> k == c.key || Changes(changes, k)
  {
    var r := changes + [c];
    assert r[|changes|] == c;
    forall k | Changes(changes, k) ensures Changes(r, k) {
      var i :| 0 <= i < |changes| && changes[i].key == k;
      assert r[i].key == k;
    }
  }

  /** Walk both collections in key order and report what differs. */
  method Diff(now: map<Key, Value>, last: map<Key, Value>) returns (changes: seq<Change>)
    ensures IsDiff(changes, now, last)
  {
    hide DiffSoFar;
    changes := [];
    var rest := now.Keys + last.Keys;
    DiffStart(now, last);
    while rest != {}
      invariant DiffSoFar(changes, now, last, rest)
      decreases |rest|
    {
      var k := Least(rest);
      DiffStep(changes, now, last, rest, k);
      if Get(now, k) != Get(last, k) {
        changes := changes + [Change(ChangeOf(Get(last, k), Get(now, k)), k)];
      }
      rest := rest - {k};
    }
    DiffEnd(changes, now, last);
  }

  lemma DiffStart(now: map<Key, Value>, last: map<Key, Value>)
    ensures DiffSoFar([], now, last, now.Keys + last.Keys)
  {
  }

  lemma DiffEnd(changes: seq<Change>, now: map<Key, Value>, last: map<Key, Value>)
    requires DiffSoFar(changes, now, last, {})
    ensures IsDiff(changes, now, last)
  {
  }
}
