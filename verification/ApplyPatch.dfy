/** The patch stack. */
module ApplyPatch {

  // Differences are applied to nodes on a stack, and each node is folded into its parent when it is popped.

  import opened DiffPatch
  import opened Options
  import opened Sorting
  import opened StructDiffs
  import opened Values

  // ----- The order of a patch -----

  function PartClass(p: Part): nat
  {
    match p
    case Field(_) => 0
    case Index(_) => 1
    case HashIndex(_) => 2
  }

  function PartRank(p: Part, hashRank: Key -> nat): nat
  {
    if p.HashIndex? then hashRank(p.hash.key) else p.key
  }

  function PartCompare(p: Part, q: Part, hashRank: Key -> nat): int
  {
    if PartClass(p) != PartClass(q) then (if PartClass(p) < PartClass(q) then -1 else 1)
    else if PartRank(p, hashRank) == PartRank(q, hashRank) then 0
    else if PartRank(p, hashRank) < PartRank(q, hashRank) then -1 else 1
  }

  function PathIsLess(p: Path, q: Path, hashRank: Key -> nat): bool
  {
    if p == [] then |q| > 0
    else if q == [] then false
    else
      var c := PartCompare(p[0], q[0], hashRank);
      if c != 0 then c < 0 else PathIsLess(p[1..], q[1..], hashRank)
  }

  function KindRank(k: ChangeType): nat
  {
    match k
    case Removed => 0
    case Modified => 1
    case Added => 2
  }

  predicate Less(d: Difference, e: Difference, hashRank: Key -> nat)
  {
    if d.path == e.path then KindRank(d.kind) < KindRank(e.kind) else PathIsLess(d.path, e.path, hashRank)
  }

  ghost predicate Injective(hashRank: Key -> nat)
  {
    forall a, b :: hashRank(a) == hashRank(b) ==> a == b
  }

  /** Different paths are ordered one way or the other, never both. */
  lemma {:induction false} PathsOrdered(p: Path, q: Path, hashRank: Key -> nat)
    requires Injective(hashRank)
    ensures p != q ==> (PathIsLess(p, q, hashRank) <==> !PathIsLess(q, p, hashRank))
    ensures !PathIsLess(p, p, hashRank)
    decreases |p|
  {
    if p != [] {
      PathsOrdered(p[1..], p[1..], hashRank);
      if q != [] {
        PathsOrdered(p[1..], q[1..], hashRank);
        assert p == [p[0]] + p[1..] && q == [q[0]] + q[1..];
      }
    }
  }

  lemma {:induction false} PathsTransitive(p: Path, q: Path, r: Path, hashRank: Key -> nat)
    requires PathIsLess(p, q, hashRank) && PathIsLess(q, r, hashRank)
    ensures PathIsLess(p, r, hashRank)
    decreases |p|
  {
    if p != [] && PartCompare(p[0], q[0], hashRank) == 0 && PartCompare(q[0], r[0], hashRank) == 0 {
      PathsTransitive(p[1..], q[1..], r[1..], hashRank);
    }
  }

  /** Fields come before indexes and these before hashes; fields and indexes by key, hashes by hash. */
  predicate PartBefore(p: Part, q: Part, hashRank: Key -> nat)
  {
    match (p, q)
    case (Field(k), Field(l)) => k < l
    case (Index(k), Index(l)) => k < l
    case (HashIndex(h), HashIndex(i)) => hashRank(h.key) < hashRank(i.key)
    case (Field(_), _) => true
    case (Index(_), HashIndex(_)) => true
    case _ => false
  }

  /** The paths part at n: there p ends, or its part comes before that of q. */
  ghost predicate PartAt(p: Path, q: Path, hashRank: Key -> nat, n: nat)
  {
    && n <= |p| && n < |q| && p[..n] == q[..n]
    && (n < |p| ==> PartBefore(p[n], q[n], hashRank))
  }

  /** The order of paths is that of their first parts that differ, a path coming before its extensions. */
  lemma {:induction false} PathOrder(p: Path, q: Path, hashRank: Key -> nat)
    requires Injective(hashRank)
    ensures PathIsLess(p, q, hashRank) <==> exists n :: PartAt(p, q, hashRank, n)
    decreases |p|
  {
    if p == [] || q == [] {
      assert q != [] ==> PartAt(p, q, hashRank, 0);
    } else {
      PartOrder(p[0], q[0], hashRank);
      PathOrder(p[1..], q[1..], hashRank);
      if PartBefore(p[0], q[0], hashRank) {
        assert PartAt(p, q, hashRank, 0);
      } else if p[0] == q[0] {
        assert p == [p[0]] + p[1..] && q == [q[0]] + q[1..];
        if n: nat :| PartAt(p[1..], q[1..], hashRank, n) {
          assert p[..n + 1] == [p[0]] + p[1..][..n] && q[..n + 1] == [q[0]] + q[1..][..n];
          assert PartAt(p, q, hashRank, n + 1);
        }
        if n: nat :| PartAt(p, q, hashRank, n) {
          assert n > 0 && p[1..][..n - 1] == p[..n][1..] && q[1..][..n - 1] == q[..n][1..];
          assert PartAt(p[1..], q[1..], hashRank, n - 1);
        }
      }
    }
  }

  lemma PartOrder(p: Part, q: Part, hashRank: Key -> nat)
    requires Injective(hashRank)
    ensures PartCompare(p, q, hashRank) < 0 <==> PartBefore(p, q, hashRank)
    ensures PartCompare(p, q, hashRank) == 0 <==> p == q
  {
  }

  /** Differences in the order of their paths; at one path removals first and additions last. */
  ghost predicate InPatchOrder(d: Difference, e: Difference, hashRank: Key -> nat)
  {
    || (d.path == e.path && (d.kind == e.kind || d.kind.Removed? || e.kind.Added?))
    || (d.path != e.path && exists n :: PartAt(d.path, e.path, hashRank, n))
  }

  lemma SortedInOrder(patch: Patch, hashRank: Key -> nat)
    requires Injective(hashRank) && Sorted(patch, NotAfter(hashRank))
    ensures forall i, j :: 0 <= i < j < |patch| ==> InPatchOrder(patch[i], patch[j], hashRank)
  {
    hide PathIsLess, Injective, PartAt;
    forall i, j | 0 <= i < j < |patch| ensures InPatchOrder(patch[i], patch[j], hashRank) {
      assert NotAfter(hashRank)(patch[i], patch[j]);
      PathsOrdered(patch[i].path, patch[j].path, hashRank);
      PathOrder(patch[i].path, patch[j].path, hashRank);
    }
  }

  function NotAfter(hashRank: Key -> nat): (Difference, Difference) -> bool
  {
    (d: Difference, e: Difference) => !Less(e, d, hashRank)
  }

  lemma LessIsOrder(d: Difference, e: Difference, f: Difference, hashRank: Key -> nat)
    requires Injective(hashRank)
    ensures !Less(e, d, hashRank) || !Less(d, e, hashRank)
    ensures !Less(e, d, hashRank) && !Less(f, e, hashRank) ==> !Less(f, d, hashRank)
  {
    hide PathIsLess, Injective;
    PathsOrdered(d.path, e.path, hashRank);
    PathsOrdered(e.path, f.path, hashRank);
    PathsOrdered(d.path, f.path, hashRank);
    if PathIsLess(d.path, e.path, hashRank) && PathIsLess(e.path, f.path, hashRank) {
      PathsTransitive(d.path, e.path, f.path, hashRank);
    }
  }

  method SortPatch(patch: Patch, hashRank: Key -> nat) returns (r: Patch)
    requires Injective(hashRank)
    ensures multiset(r) == multiset(patch)
    ensures forall i, j :: 0 <= i < j < |r| ==> InPatchOrder(r[i], r[j], hashRank)
  {
    hide Less, Injective;
    var le := NotAfter(hashRank);
    forall d, e, f ensures (le(d, e) || le(e, d)) && (le(d, e) && le(e, f) ==> le(d, f)) {
      LessIsOrder(d, e, f, hashRank);
    }
    r := Sort(patch, le);
    SortedInOrder(r, hashRank);
  }

  // ----- Nodes on the stack -----

  /** A node, how it is reached from the one below, and what is to become of it. */
  datatype Elem = Elem(part: Part, kind: ChangeType, oldValue: Option<Value>, newValue: Option<Value>)

  function Newest(e: Elem): Option<Value>
  {
    if e.newValue.Some? then e.newValue else e.oldValue
  }

  function Element(v: Value): Key
  {
    if v.Prim? then v.n else 0
  }

  /** Fold a node into its parent. */
  function UpdateNode(e: Elem, parent: Value): Value
  {
    var k := KeyOf(e.part);
    match parent
    case SetV(s) =>
      var less := if e.oldValue.Some? then s - {Element(e.oldValue.value)} else s;
      SetV(if e.newValue.Some? then less + {Element(e.newValue.value)} else less)
    case _ =>
      if e.kind.Removed? || e.newValue.None? then Rebuild(parent, Children(parent) - {k})
      else Rebuild(parent, Children(parent)[k := e.newValue.value])
  }

  function PutChild(v: Value, k: Key, c: Value): Value
  {
    Rebuild(v, Children(v)[k := c])
  }

  /** Nodes that hold collections reached by keys, except perhaps the last. */
  predicate IsSpine(vals: seq<Elem>)
  {
    && |vals| > 0
    && (forall i :: 0 <= i < |vals| ==> Newest(vals[i]).Some?)
    && (forall i :: 0 <= i < |vals| - 1 ==> Newest(vals[i]).value.MapV? || Newest(vals[i]).value.StructV?)
    && (forall i :: 0 < i < |vals| ==> vals[i].kind.Modified?)
  }

  /** The whole value: every node put into its parent. */
  function Folded(vals: seq<Elem>): Value
    requires IsSpine(vals)
  {
    var v := Newest(vals[0]).value;
    if |vals| == 1 then v else PutChild(v, KeyOf(vals[1].part), Folded(vals[1..]))
  }

  function Parts(vals: seq<Elem>): (r: Path)
    requires |vals| > 0
    ensures |r| == |vals| - 1 && forall i :: 0 <= i < |r| ==> r[i] == vals[i + 1].part
  {
    seq(|vals| - 1, i requires 0 <= i < |vals| - 1 => vals[i + 1].part)
  }

  /** Replace the value of the last node. */
  function WithTop(vals: seq<Elem>, v: Value): seq<Elem>
    requires |vals| > 0
  {
    vals[..|vals| - 1] + [vals[|vals| - 1].(newValue := Some(v))]
  }

  lemma {:induction false} FoldedPop(vals: seq<Elem>)
    requires IsSpine(vals) && |vals| >= 2 && vals[|vals| - 1].newValue.Some?
    ensures var n := |vals| - 1;
            var parent := Newest(vals[n - 1]).value;
            && IsSpine(WithTop(vals[..n], UpdateNode(vals[n], parent)))
            && Folded(WithTop(vals[..n], UpdateNode(vals[n], parent))) == Folded(vals)
    decreases |vals|
  {
    var n := |vals| - 1;
    var parent := Newest(vals[n - 1]).value;
    var w := WithTop(vals[..n], UpdateNode(vals[n], parent));
    if |vals| == 2 {
      assert vals[1..] == [vals[1]];
    } else {
      FoldedPop(vals[1..]);
      assert vals[1..][..n - 1] == vals[1..n];
      assert w[1..] == WithTop(vals[1..][..n - 1], UpdateNode(vals[n], parent));
    }
  }

  lemma {:induction false} FoldedPush(vals: seq<Elem>, e: Elem)
    requires IsSpine(vals) && e.kind.Modified? && e.newValue.None? && e.oldValue.Some?
    requires var top := Newest(vals[|vals| - 1]).value;
             (top.MapV? || top.StructV?) && Get(Children(top), KeyOf(e.part)) == e.oldValue
    ensures IsSpine(vals + [e]) && Folded(vals + [e]) == Folded(vals)
    decreases |vals|
  {
    if |vals| == 1 {
      assert (vals + [e])[1..] == [e];
      var m := Children(Newest(vals[0]).value);
      assert m[KeyOf(e.part) := e.oldValue.value] == m;
    } else {
      FoldedPush(vals[1..], e);
      assert (vals + [e])[1..] == vals[1..] + [e];
    }
  }

  /** What fits the whole value at a path through all nodes fits the last node at the rest of the path. */
  lemma {:induction false} FitsTop(vals: seq<Elem>, d: Difference)
    requires IsSpine(vals) && |vals| - 1 <= |d.path|
    requires d.path[..|vals| - 1] == Parts(vals) && Fits(Some(Folded(vals)), d)
    ensures Fits(Newest(vals[|vals| - 1]), d.(path := d.path[|vals| - 1..]))
    decreases |vals|
  {
    if |vals| == 1 {
      assert d.path[0..] == d.path;
    } else {
      TailParts(vals, d.path);
      ChildPut(vals);
      FitsTop(vals[1..], Tail(d));
      assert Tail(d).path[|vals| - 2..] == d.path[|vals| - 1..];
    }
  }

  lemma TailParts(vals: seq<Elem>, path: Path)
    requires |vals| >= 2 && |vals| - 1 <= |path| && path[..|vals| - 1] == Parts(vals)
    ensures path != [] && path[0] == vals[1].part && path[1..][..|vals| - 2] == Parts(vals[1..])
  {
    assert path[0] == path[..|vals| - 1][0];
    forall i | 0 <= i < |vals| - 2 ensures path[1..][..|vals| - 2][i] == Parts(vals[1..])[i] {
      assert path[i + 1] == path[..|vals| - 1][i + 1];
    }
  }

  lemma ChildPut(vals: seq<Elem>)
    requires IsSpine(vals) && |vals| >= 2
    ensures IsSpine(vals[1..])
    ensures Get(Children(Folded(vals)), KeyOf(vals[1].part)) == Some(Folded(vals[1..]))
  {
  }

  /** Changing the whole value at a path through all nodes is changing the last node at the rest of the path. */
  lemma {:induction false} FoldedSet(vals: seq<Elem>, d: Difference)
    requires IsSpine(vals) && |vals| - 1 < |d.path|
    requires d.path[..|vals| - 1] == Parts(vals) && Fits(Some(Folded(vals)), d)
    ensures var top := SetAt(Newest(vals[|vals| - 1]), d.(path := d.path[|vals| - 1..]));
            && top.Some? && IsSpine(WithTop(vals, top.value))
            && SetAt(Some(Folded(vals)), d) == Some(Folded(WithTop(vals, top.value)))
    decreases |vals|
  {
    hide SetAt, Folded, Fits, Newest, PutChild;
    var n := |vals| - 1;
    if n == 0 {
      assert d.path[0..] == d.path;
      SetRoot(vals, d);
    } else {
      TailParts(vals, d.path);
      ChildPut(vals);
      assert Fits(Some(Folded(vals[1..])), Tail(d)) by { FitsTail(Folded(vals), d); }
      FoldedSet(vals[1..], Tail(d));
      assert Tail(d).path[n - 1..] == d.path[n..];
      var top := SetAt(Newest(vals[n]), d.(path := d.path[n..]));
      WithTopTail(vals, top.value);
      SetThrough(vals, d, Folded(WithTop(vals[1..], top.value)));
    }
  }

  lemma FitsTail(v: Value, d: Difference)
    requires d.path != [] && Fits(Some(v), d)
    ensures Fits(Get(Children(v), KeyOf(d.path[0])), Tail(d))
  {
  }

  lemma SetRoot(vals: seq<Elem>, d: Difference)
    requires IsSpine(vals) && |vals| == 1 && d.path != [] && Fits(Some(Folded(vals)), d)
    ensures var top := SetAt(Newest(vals[0]), d);
            && top.Some? && IsSpine(WithTop(vals, top.value))
            && SetAt(Some(Folded(vals)), d) == Some(Folded(WithTop(vals, top.value)))
  {
    SetBelow(Folded(vals), d);
  }

  lemma WithTopTail(vals: seq<Elem>, v: Value)
    requires IsSpine(vals) && |vals| >= 2 && IsSpine(WithTop(vals[1..], v))
    ensures IsSpine(WithTop(vals, v)) && WithTop(vals, v)[1..] == WithTop(vals[1..], v)
    ensures Folded(WithTop(vals, v)) ==
              PutChild(Newest(vals[0]).value, KeyOf(vals[1].part), Folded(WithTop(vals[1..], v)))
  {
    assert WithTop(vals, v)[1..] == WithTop(vals[1..], v);
    assert WithTop(vals, v)[0] == vals[0] && WithTop(vals, v)[1].part == vals[1].part;
  }

  /** Changing a child that was put into its parent is putting the changed child there. */
  lemma SetThrough(vals: seq<Elem>, d: Difference, c: Value)
    requires IsSpine(vals) && |vals| >= 2 && d.path != [] && d.path[0] == vals[1].part
    requires SetAt(Get(Children(Folded(vals)), KeyOf(d.path[0])), Tail(d)) == Some(c)
    ensures SetAt(Some(Folded(vals)), d) == Some(PutChild(Newest(vals[0]).value, KeyOf(vals[1].part), c))
  {
    var v, k, was := Newest(vals[0]).value, KeyOf(vals[1].part), Folded(vals[1..]);
    assert Children(v)[k := was][k := c] == Children(v)[k := c];
  }

  /** Folding a changed leaf into its parent is applying the change there. */
  lemma UpdateIsSet(d: Difference, parent: Value)
    requires |d.path| == 1 && Fits(Some(parent), d)
    ensures SetAt(Some(parent), d) == Some(UpdateNode(Elem(d.path[0], d.kind, d.oldValue, d.newValue), parent))
  {
    assert Tail(d).path == [];
    var k := KeyOf(d.path[0]);
    if parent.SetV? {
      assert Put(Children(parent), k, SetAt(Get(Children(parent), k), Tail(d))).Keys
          == if d.kind.Removed? then parent.elems - {k} else parent.elems + {k};
    }
  }

  // ----- The stack machine -----

  /** The stack after popping its last node. */
  function Popped(vals: seq<Elem>): seq<Elem>
    requires |vals| > 0 && (|vals| > 1 ==> Newest(vals[|vals| - 2]).Some?)
  {
    var n := |vals| - 1;
    if n == 0 then [] else WithTop(vals[..n], UpdateNode(vals[n], Newest(vals[n - 1]).value))
  }

  class PatchStack {
    var vals: seq<Elem>

    constructor (root: Value)
      ensures vals == [Elem(Field(0), Modified, Some(root), None)]
    {
      vals := [Elem(Field(0), Modified, Some(root), None)];
    }

    method Push(e: Elem)
      modifies this
      ensures vals == old(vals) + [e]
    {
      vals := vals + [e];
    }

    method Pop() returns (top: Elem)
      requires |vals| > 0 && (|vals| > 1 ==> Newest(vals[|vals| - 2]).Some?)
      modifies this
      ensures top == old(vals[|vals| - 1]) && vals == Popped(old(vals))
    {
      var n := |vals| - 1;
      top := vals[n];
      vals := vals[..n];
      if n > 0 {
        var newTop := vals[n - 1];
        vals := vals[..n - 1] + [newTop.(newValue := Some(UpdateNode(top, Newest(newTop).value)))];
      }
    }
  }

  /** All nodes along the path are on the stack; the last one may be a leaf whose change is still to be made. */
  ghost predicate Holds(vals: seq<Elem>, path: Path, v: Value, leaf: bool)
  {
    && |vals| > 0 && Parts(vals) == path
    && if leaf then |vals| > 1 && IsSpine(vals[..|vals| - 1]) && IsSpine(Popped(vals)) && Folded(Popped(vals)) == v
       else IsSpine(vals) && Folded(vals) == v && (|vals| > 1 ==> vals[|vals| - 1].newValue.Some?)
  }

  lemma HoldsPop(vals: seq<Elem>, path: Path, v: Value, leaf: bool)
    requires Holds(vals, path, v, leaf) && |vals| > 1
    ensures Newest(vals[|vals| - 2]).Some? && path != [] && Holds(Popped(vals), path[..|path| - 1], v, false)
  {
    var n := |vals| - 1;
    if leaf {
      assert Newest(vals[..n][n - 1]).Some?;
    } else {
      FoldedPop(vals);
    }
    var w := Popped(vals);
    forall i | 0 <= i < |w| - 1 ensures Parts(w)[i] == path[i] {
      assert path[i] == vals[i + 1].part;
    }
  }

  method CommonPrefixCount(p: Path, q: Path) returns (cnt: nat)
    ensures cnt <= |p| && cnt <= |q| && p[..cnt] == q[..cnt]
    ensures cnt == |p| || cnt == |q| || p[cnt] != q[cnt]
  {
    cnt := 0;
    while cnt < |p| && cnt < |q| && p[cnt] == q[cnt]
      invariant cnt <= |p| && cnt <= |q| && p[..cnt] == q[..cnt]
    {
      cnt := cnt + 1;
    }
  }

  /** Neither path leads through the end of the other. */
  predicate Apart(p: Path, q: Path)
  {
    p == q || (exists i :: 0 <= i < |p| && i < |q| && p[i] != q[i])
  }

  /** Pop until just the first idx steps of the path are on the stack. */
  method PopTo(stack: PatchStack, idx: nat, path: Path, ghost v: Value, ghost leaf: bool)
    requires Holds(stack.vals, path, v, leaf) && idx <= |path| && (leaf ==> idx < |path|)
    modifies stack
    ensures Holds(stack.vals, path[..idx], v, false)
  {
    hide Folded, IsSpine, Popped, Holds;
    ghost var p, pending := path, leaf;
    assert path[..|path|] == path;
    HoldsLen(stack.vals, p, v, pending);
    while idx < |stack.vals| - 1
      invariant idx <= |p| <= |path| && p == path[..|p|] && |stack.vals| == |p| + 1
      invariant Holds(stack.vals, p, v, pending) && (pending ==> idx < |p|)
      decreases |stack.vals|
    {
      HoldsPop(stack.vals, p, v, pending);
      var _ := stack.Pop();
      p, pending := p[..|p| - 1], false;
      HoldsLen(stack.vals, p, v, pending);
    }
  }

  lemma HoldsLen(vals: seq<Elem>, path: Path, v: Value, leaf: bool)
    requires Holds(vals, path, v, leaf)
    ensures |vals| == |path| + 1
  {
  }

  /** Push the nodes along the rest of the path, the last one with the change of the difference. */
  method PushTail(stack: PatchStack, dif: Difference, idx: nat, ghost v: Value)
    requires idx < |dif.path| && Holds(stack.vals, dif.path[..idx], v, false) && Fits(Some(v), dif)
    modifies stack
    ensures SetAt(Some(v), dif).Some? && Holds(stack.vals, dif.path, SetAt(Some(v), dif).value, true)
  {
    hide Folded, SetAt;
    var p := dif.path;
    var i := idx;
    assert p[..idx] == Parts(stack.vals);
    while i < |p| - 1
      invariant idx <= i < |p| && |stack.vals| == i + 1 && IsSpine(stack.vals)
      invariant Parts(stack.vals) == p[..i] && Folded(stack.vals) == v
    {
      FitsTop(stack.vals, dif);
      var parent := Newest(stack.vals[|stack.vals| - 1]).value;
      NextNode(parent, dif.(path := p[i..]));
      var e := Elem(p[i], Modified, Get(Children(parent), KeyOf(p[i])), None);
      FoldedPush(stack.vals, e);
      PartsPush(stack.vals, e, p, i);
      stack.Push(e);
      i := i + 1;
    }
    ghost var spine := stack.vals;
    FitsTop(spine, dif);
    FoldedSet(spine, dif);
    ghost var last := dif.(path := p[i..]);
    UpdateIsSet(last, Newest(spine[i]).value);
    var e := Elem(p[i], dif.kind, dif.oldValue, dif.newValue);
    PartsPush(spine, e, p, i);
    stack.Push(e);
    assert stack.vals[..|stack.vals| - 1] == spine;
  }

  lemma NextNode(parent: Value, d: Difference)
    requires |d.path| > 1 && Fits(Some(parent), d)
    ensures (parent.MapV? || parent.StructV?) && Get(Children(parent), KeyOf(d.path[0])).Some?
  {
    assert Tail(d).path != [];
  }

  lemma PartsPush(vals: seq<Elem>, e: Elem, p: Path, i: nat)
    requires |vals| == i + 1 && i < |p| && Parts(vals) == p[..i] && e.part == p[i]
    ensures Parts(vals + [e]) == p[..i + 1] && (i + 1 == |p| ==> p[..i + 1] == p)
  {
  }

  /** One difference: pop to the last common node, push the rest of the path, put the change on top. */
  method ApplyOne(stack: PatchStack, lastPath: Path, dif: Difference, ghost v: Value)
    requires Holds(stack.vals, lastPath, v, lastPath != []) && Fits(Some(v), dif)
    requires dif.path != [] && (lastPath != [] ==> Apart(lastPath, dif.path))
    modifies stack
    ensures SetAt(Some(v), dif).Some? && Holds(stack.vals, dif.path, SetAt(Some(v), dif).value, true)
  {
    hide Holds, SetAt, Fits;
    var p := dif.path;
    var idx;
    if p == lastPath {
      HoldsLen(stack.vals, lastPath, v, true);
      HoldsPop(stack.vals, lastPath, v, true);
      var _ := stack.Pop();
      idx := |p| - 1;
      PopTo(stack, idx, p[..idx], v, false);
      assert p[..idx][..idx] == p[..idx];
    } else {
      idx := CommonPrefixCount(lastPath, p);
      PopTo(stack, idx, lastPath, v, lastPath != []);
    }
    PushTail(stack, dif, idx, v);
  }

  /** Every difference leads below the root and apart from the next. */
  predicate Unnested(patch: Patch)
  {
    && Below(patch)
    && forall i :: 0 <= i < |patch| - 1 ==> Apart(patch[i].path, patch[i + 1].path)
  }

  /** The stack machine applies the differences one after the other. */
  method ApplyBelow(root: Value, patch: Patch) returns (r: Value)
    requires patch != [] && Unnested(patch) && AllFit(Some(root), patch)
    ensures SetAll(Some(root), patch) == Some(r)
  {
    hide Holds, SetAt, Fits, SetAll, AllFit, Apart, Folded;
    var stack := new PatchStack(root);
    var lastPath: Path := [];
    ghost var v := root;
    RootHeld(root);
    SetAllStart(patch);
    for i := 0 to |patch|
      invariant Holds(stack.vals, lastPath, v, lastPath != [])
      invariant i > 0 ==> lastPath == patch[i - 1].path
      invariant i == 0 ==> lastPath == []
      invariant SetAll(Some(v), patch[i..]) == SetAll(Some(root), patch) && AllFit(Some(v), patch[i..])
    {
      var dif := patch[i];
      SetAllStep(Some(v), patch, i);
      ApplyOne(stack, lastPath, dif, v);
      v := SetAt(Some(v), dif).value;
      lastPath := dif.path;
    }
    SetAllEnd(Some(v), patch);
    HoldsLen(stack.vals, lastPath, v, true);
    PopTo(stack, 0, lastPath, v, true);
    RootFolded(stack.vals, lastPath[..0], v);
    var newRoot := stack.Pop();
    r := Newest(newRoot).value;
  }

  lemma RootHeld(root: Value)
    ensures Holds([Elem(Field(0), Modified, Some(root), None)], [], root, false)
  {
  }

  lemma RootFolded(vals: seq<Elem>, path: Path, v: Value)
    requires Holds(vals, path, v, false) && path == []
    ensures |vals| == 1 && Newest(vals[0]) == Some(v)
  {
  }

  lemma SetAllStart(patch: Patch)
    ensures patch[0..] == patch
  {
  }

  lemma SetAllStep(c: Option<Value>, patch: Patch, i: nat)
    requires i < |patch| && AllFit(c, patch[i..])
    ensures Fits(c, patch[i]) && AllFit(SetAt(c, patch[i]), patch[i + 1..])
    ensures SetAll(c, patch[i..]) == SetAll(SetAt(c, patch[i]), patch[i + 1..])
  {
    assert patch[i..][1..] == patch[i + 1..];
  }

  lemma SetAllEnd(c: Option<Value>, patch: Patch)
    ensures patch[|patch|..] == [] && SetAll(c, patch[|patch|..]) == c
  {
  }

  // ----- Diff, then apply -----

  /** Two differences of one patch lie apart, or are at the same place. */
  lemma {:induction false} DifferencesApart(a: Patch, x: Difference, y: Difference, b: Patch,
      c1: Option<Value>, c2: Option<Value>, times: nat, indexable: Key -> bool)
    requires IsChildPatch(a + [x, y] + b, c1, c2, times, indexable) && x.path != []
    ensures y.path != [] && Apart(x.path, y.path)
    decreases |x.path|
  {
    hide Again, Reports;
    var patch := a + [x, y] + b;
    assert patch[|a|] == x && patch[|a| + 1] == y;
    if Descends(c1, c2) {
      var v1, v2 := c1.value, c2.value;
      if x.path[0] != y.path[0] {
        assert Apart(x.path, y.path);
      } else {
        var k := KeyOf(x.path[0]);
        ProjectPair(a, x, y, b, k);
        IsPatchAt(patch, v1, v2, indexable, k);
        var d1, d2, n := Get(Children(v1), k), Get(Children(v2), k), Reports(v2, v1, k);
        if Tail(x).path == [] {
          SameRoot(Project(a, k), Tail(x), Tail(y), Project(b, k), d1, d2, n, indexable);
          assert x.path == [x.path[0]] + Tail(x).path && y.path == [y.path[0]] + Tail(y).path;
        } else {
          DifferencesApart(Project(a, k), Tail(x), Tail(y), Project(b, k), d1, d2, n, indexable);
          ApartUnder(x.path, y.path);
        }
      }
    } else {
      AgainHas(Leaf(c1, c2), times, patch[|a|]);
    }
  }

  lemma ApartUnder(p: Path, q: Path)
    requires p != [] && q != [] && p[0] == q[0] && Apart(p[1..], q[1..])
    ensures Apart(p, q)
  {
    if p[1..] == q[1..] {
      assert p == [p[0]] + p[1..] && q == [q[0]] + q[1..];
    } else {
      var i :| 0 <= i < |p[1..]| && i < |q[1..]| && p[1..][i] != q[1..][i];
      assert p[i + 1] != q[i + 1];
    }
  }

  /** With a difference of a whole value there are only differences of the whole value. */
  lemma SameRoot(a: Patch, x: Difference, y: Difference, b: Patch, c1: Option<Value>, c2: Option<Value>, times: nat,
      indexable: Key -> bool)
    requires IsChildPatch(a + [x, y] + b, c1, c2, times, indexable) && x.path == []
    ensures y.path == []
  {
    hide Again, Reports;
    var patch := a + [x, y] + b;
    assert patch[|a|] == x && patch[|a| + 1] == y;
    if !Descends(c1, c2) {
      AgainHas(Leaf(c1, c2), times, patch[|a| + 1]);
    }
  }

  lemma ProjectPair(a: Patch, x: Difference, y: Difference, b: Patch, k: Key)
    requires x.path != [] && y.path != [] && KeyOf(x.path[0]) == k && KeyOf(y.path[0]) == k
    ensures Project(a + [x, y] + b, k) == Project(a, k) + [Tail(x), Tail(y)] + Project(b, k)
  {
    hide Project;
    assert a + [x, y] + b == a + ([x] + ([y] + b));
    ProjectAppend(a, [x] + ([y] + b), k);
    ProjectOne(x, [y] + b, k);
    ProjectOne(y, b, k);
  }

  lemma AsChild(patch: Patch, c1: Option<Value>, c2: Option<Value>, indexable: Key -> bool)
    requires IsPatch(patch, c1, c2, indexable)
    ensures IsChildPatch(patch, c1, c2, 1, indexable)
  {
    hide IsPatchBelow, Leaf;
    assert Again(Leaf(c1, c2), 0) == [] && Leaf(c1, c2) + [] == Leaf(c1, c2);
  }

  lemma PatchUnnested(patch: Patch, v1: Value, v2: Value, indexable: Key -> bool)
    requires IsPatch(patch, Some(v1), Some(v2), indexable) && ShouldDescend(v1, v2)
    ensures Unnested(patch)
  {
    hide Project;
    AsChild(patch, Some(v1), Some(v2), indexable);
    forall i | 0 <= i < |patch| - 1 ensures Apart(patch[i].path, patch[i + 1].path) {
      var a, b := patch[..i], patch[i + 2..];
      assert patch == a + [patch[i], patch[i + 1]] + b;
      DifferencesApart(a, patch[i], patch[i + 1], b, Some(v1), Some(v2), 1, indexable);
    }
  }

  /** Apply a patch made from two values to the first. */
  method Apply(root: Value, patch: Patch, hashRank: Key -> nat, ghost v2: Value,
      ghost indexable: Key -> bool) returns (r: Value)
    requires Injective(hashRank) && IsPatch(patch, Some(root), Some(v2), indexable)
    ensures Some(r) == Target(Some(root), Some(v2))
  {
    hide IsPatch, SetAll, AllFit, Unnested, Reached, NotAfter, Injective;
    PatchLeads(patch, Some(root), Some(v2), indexable);
    if patch == [] {
      NothingToApply(root);
      return root;
    }
    var sorted := SortPatch(patch, hashRank);
    PatchPermuted(patch, sorted, Some(root), Some(v2), indexable);
    PatchLeads(sorted, Some(root), Some(v2), indexable);
    SameMembers(patch, sorted);
    if sorted[0].path == [] {
      RootReplaced(sorted, root, v2, indexable);
      return sorted[0].newValue.value;
    }
    ShouldBeBelow(sorted, root, v2, indexable);
    PatchUnnested(sorted, root, v2, indexable);
    r := ApplyBelow(root, sorted);
  }

  lemma NothingToApply(root: Value)
    ensures SetAll(Some(root), []) == Some(root)
  {
  }

  lemma RootReplaced(patch: Patch, v1: Value, v2: Value, indexable: Key -> bool)
    requires IsPatch(patch, Some(v1), Some(v2), indexable) && patch != [] && patch[0].path == []
    ensures patch[0].newValue == Some(v2) && Target(Some(v1), Some(v2)) == Some(v2)
  {
  }

  lemma ShouldBeBelow(patch: Patch, v1: Value, v2: Value, indexable: Key -> bool)
    requires IsPatch(patch, Some(v1), Some(v2), indexable) && patch != [] && patch[0].path != []
    ensures ShouldDescend(v1, v2)
  {
  }

  /**
   * Diffing two values and applying the patch to the first gives the second exactly if, of the structs on the way, none
   * was renamed and none has two fields after all fields of the other. Otherwise it gives another value or fails.
   */
  method DiffThenApply(v1: Value, v2: Value, indexable: Key -> bool, hashRank: Key -> nat, garbled: Garbled)
    returns (r: Option<Value>)
    requires Injective(hashRank)
    ensures r == Some(v2) <==> NamesAgree(Some(v1), Some(v2)) && TailsShort(Some(v1), Some(v2))
    ensures r.Some? ==> r == Target(Some(v1), Some(v2))
    ensures r.None? <==> Descends(Some(v1), Some(v2)) && Broken(v1, v2, garbled)
  {
    hide IsPatch, SetAll, AllFit, NamesAgree, TailsShort, Reached, Injective, Broken;
    var patch := DiffValues(v1, v2, indexable, garbled);
    if patch.None? {
      return None;
    }
    var applied := Apply(v1, patch.value, hashRank, v2, indexable);
    PatchLeads(patch.value, Some(v1), Some(v2), indexable);
    PatchInvertsDiff(patch.value, v1, v2, indexable);
    r := Some(applied);
  }

  /** Two structs that differ only in name: the patch is empty and the new name is lost. */
  lemma RenameIsLost()
    ensures !NamesAgree(Some(StructV("old", map[])), Some(StructV("new", map[])))
    ensures Target(Some(StructV("old", map[])), Some(StructV("new", map[]))) == Some(StructV("old", map[]))
  {
    hide Reports;
    var v1, v2 := StructV("old", map[]), StructV("new", map[]);
    assert v1.name[0] != v2.name[0];
    forall k ensures Get(Children(Reached(v1, v2)), k) == Get(Children(v1), k) {
      ReachedIs(v1, v2, k);
    }
    ReachedIs(v1, v2, 0);
    SameValue(Reached(v1, v2), v1);
  }

  /** A struct without fields and one with two: the second field is lost, although no struct was renamed. */
  lemma FieldIsLost(x: Value, y: Value)
    ensures var v1, v2 := StructV("S", map[]), StructV("S", map[0 := x, 1 := y]);
            && NamesAgree(Some(v1), Some(v2)) && !TailsShort(Some(v1), Some(v2))
            && Target(Some(v1), Some(v2)) == Some(StructV("S", map[0 := x]))
  {
    var v1, v2, r := StructV("S", map[]), StructV("S", map[0 := x, 1 := y]), StructV("S", map[0 := x]);
    assert Leftover(Children(v2), Children(v1)) == {0, 1} && Leftover(Children(v1), Children(v2)) == {};
    assert 0 in Children(v2);
    forall k ensures Get(Children(Reached(v1, v2)), k) == Get(Children(r), k) {
      ReachedIs(v1, v2, k);
    }
    ReachedIs(v1, v2, 0);
    SameValue(Reached(v1, v2), r);
  }
}
