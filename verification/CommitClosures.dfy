/** Eager, lazy and materialized closures of commits. */
module CommitClosures {

  import opened AncestorSearch
  import opened CommitGraph
  import opened Options

  // ----- Eager and lazy closures -----

  method TransitiveClosure(g: Graph, commit: Addr) returns (s: set<Addr>)
    requires Ranked(g) && commit in g
    ensures s == Ancestors(g, commit)
  {
    hide Ranked, Ordered, AncestorsOf, Ancestors;
    var heap := new CommitByHeightHeap(g, commit);
    s := {};
    AncestorsOfOne(g, commit);
    HeapKeys(heap);
    while !heap.Empty()
      invariant heap.Valid() && heap.g == g && Set(heap.q) <= g.Keys
      invariant s + AncestorsOf(g, Set(heap.q)) == Ancestors(g, commit)
      decreases heap.Top()
    {
      var curr := Expand(heap);
      s := s + Set(curr);
    }
    AncestorsOfNone(g);
  }

  lemma AncestorsOfOne(g: Graph, c: Addr)
    requires Ranked(g) && c in g
    ensures AncestorsOf(g, {c}) == Ancestors(g, c)
  {
    hide Ancestors;
  }

  lemma SelfIsAncestor(g: Graph, c: Addr)
    requires Ranked(g) && c in g
    ensures c in Ancestors(g, c)
  {
    hide StrictAncestors;
  }

  lemma AncestorsOfNone(g: Graph)
    requires Ranked(g)
    ensures AncestorsOf(g, {}) == {} && Set([]) == {}
  {
  }

  class LazyCommitClosure {
    const commit: Addr
    const heap: CommitByHeightHeap
    var seen: set<Addr>

    /** What was seen and what the queue still leads to make up the closure. */
    ghost predicate Valid()
      reads this, heap
    {
      && heap.Valid() && commit in heap.g && Set(heap.q) <= heap.g.Keys
      && seen + AncestorsOf(heap.g, Set(heap.q)) == Ancestors(heap.g, commit)
    }

    constructor (g: Graph, commit: Addr)
      requires Ranked(g) && commit in g
      ensures Valid() && fresh(heap) && this.commit == commit && heap.g == g
    {
      hide Ranked, Ordered, Ancestors, AncestorsOf;
      this.commit := commit;
      heap := new CommitByHeightHeap(g, commit);
      seen := {commit};
      new;
      HeapKeys(heap);
      AncestorsOfOne(g, commit);
      SelfIsAncestor(g, commit);
    }

    /** Move everything of height depth or more from the queue to what was seen. */
    method TraverseBelowDepth(depth: nat)
      requires Valid()
      modifies this, heap
      ensures Valid() && forall c :: c in heap.q ==> heap.g[c].height < depth
    {
      hide Ranked, Ordered, AncestorsOf, Ancestors;
      while !heap.Empty() && depth <= heap.MaxHeight()
        invariant Valid()
        decreases heap.Top()
      {
        var curr := Expand(heap);
        seen := seen + Set(curr);
      }
    }

    /** However many queries came before, the answer is that of the full closure. */
    method Contains(c: Addr) returns (ok: bool)
      requires Valid() && c in heap.g
      modifies this, heap
      ensures Valid() && ok == (c in Ancestors(heap.g, commit))
    {
      hide Ranked, Ordered, AncestorsOf, Ancestors;
      var depth := heap.g[c].height;
      TraverseBelowDepth(depth);
      HeapKeys(heap);
      if depth > 0 {
        FrontierBelow(heap.g, Set(heap.q), depth - 1);
      } else {
        Positive(heap.g, c);
      }
      return c in seen;
    }
  }

  /** The first of the given commits that is in the closure. */
  method FirstContained(cl: LazyCommitClosure, cs: seq<Addr>) returns (r: Option<Addr>)
    requires cl.Valid() && forall c :: c in cs ==> c in cl.heap.g
    modifies cl, cl.heap
    ensures cl.Valid()
    ensures match r
            case Some(c) => c in cs && c in Ancestors(cl.heap.g, cl.commit)
            case None => forall c :: c in cs ==> c !in Ancestors(cl.heap.g, cl.commit)
  {
    hide Ranked, Ordered, AncestorsOf, Ancestors;
    for i := 0 to |cs|
      invariant cl.Valid()
      invariant forall j :: 0 <= j < i ==> cs[j] !in Ancestors(cl.heap.g, cl.commit)
    {
      var ok := cl.Contains(cs[i]);
      if ok {
        return Some(cs[i]);
      }
    }
    return None;
  }

  /** The most recent ancestor of cm in the closure, asked lazily. */
  method FindClosureCommonAncestor(cl: LazyCommitClosure, cm: Addr) returns (r: Option<Addr>)
    requires cl.Valid() && cm in cl.heap.g
    modifies cl, cl.heap
    ensures cl.Valid() && Best(cl.heap.g, Common(cl.heap.g, cl.commit, cm), r)
  {
    hide Ranked, Ordered, AncestorsOf, Ancestors, Best, Set;
    ghost var g := cl.heap.g;
    ghost var common := Common(g, cl.commit, cm);
    var q := new CommitByHeightHeap(cl.heap.g, cm);
    HeapKeys(q);
    AncestorsOfOne(g, cm);
    while !q.Empty()
      invariant cl.Valid() && q.Valid() && fresh(q) && q.g == g && q != cl.heap && Set(q.q) <= g.Keys
      invariant AncestorsOf(g, Set(q.q)) <= Ancestors(g, cm) && common <= AncestorsOf(g, Set(q.q))
      decreases q.Top()
    {
      ghost var q0, h := Set(q.q), q.MaxHeight();
      FrontierBelow(g, q0, h);
      HeapKeys(q);
      var curr := Expand(q);
      r := FirstContained(cl, curr);
      if r.Some? {
        BestAtTop(g, common, q0, h, r.value);
        return;
      }
      assert common <= AncestorsOf(g, Set(q.q));
    }
    AncestorsOfNone(g);
    NoneBest(g, common);
    return None;
  }

  /** Whichever search is used, they agree on whether there is a common ancestor and on the height of the one found. */
  method SearchesAgree(g: Graph, c1: Addr, c2: Addr)
    returns (byParents: Option<Addr>, byClosures: Option<Addr>, lazily: Option<Addr>)
    requires Ranked(g) && c1 in g && c2 in g && ClosureExact(g, c1) && ClosureExact(g, c2)
    ensures byParents.Some? == byClosures.Some? == lazily.Some?
    ensures byParents.Some? ==>
              && {byParents.value, byClosures.value, lazily.value} <= Common(g, c1, c2) <= g.Keys
              && g[byParents.value].height == g[byClosures.value].height == g[lazily.value].height
  {
    hide Ranked, ClosureExact, Ancestors;
    ghost var common := Common(g, c1, c2);
    byParents := FindCommonAncestorUsingParentsList(g, c1, c2);
    byClosures := FindCommonAncestor(g, c1, c2);
    var cl := new LazyCommitClosure(g, c1);
    lazily := FindClosureCommonAncestor(cl, c2);
    BestAgree(g, common, byParents, byClosures);
    BestAgree(g, common, byParents, lazily);
    forall a | a in common ensures a in g {
      AncestorFacts(g, c1, a);
    }
  }

  lemma BestAtTop(g: Graph, common: set<Addr>, q: set<Addr>, h: nat, c: Addr)
    requires Ranked(g) && q <= g.Keys && common <= AncestorsOf(g, q) && c in common && c in g && g[c].height == h
    requires forall a :: a in AncestorsOf(g, q) ==> a in g && g[a].height <= h
    ensures Best(g, common, Some(c))
  {
    hide Ranked, AncestorsOf;
  }

  // ----- Materialized closures -----

  function KeySet(ks: seq<Key>): (r: set<Key>)
    ensures forall k :: k in r <==> k in ks
  {
    set k | k in ks
  }

  function Stored(g: Graph, c: Addr): seq<Key>
    requires c in g
  {
    if g[c].closure.Some? then g[c].closure.value else []
  }

  /** The keys of the parents and of everything in their stored closures. */
  ghost function Wanted(g: Graph, parents: seq<Addr>): set<Key>
    requires forall p :: p in parents ==> p in g
  {
    (set p, k | p in parents && k in Stored(g, p) :: k) + set p | p in parents :: KeyOf(g, p)
  }

  /** The mutable map a closure is edited in. */
  class ClosureEditor {
    var keys: seq<Key>

    constructor (keys: seq<Key>)
      ensures this.keys == keys
    {
      this.keys := keys;
    }

    method Add(k: Key)
      requires Ascending(keys)
      modifies this
      ensures Ascending(keys) && KeySet(keys) == KeySet(old(keys)) + {k}
    {
      var i := 0;
      while i < |keys| && KeyLess(keys[i], k)
        invariant 0 <= i <= |keys|
        invariant forall j :: 0 <= j < i ==> KeyLess(keys[j], k)
      {
        i := i + 1;
      }
      if i < |keys| && keys[i] == k {
        return;
      }
      InsertAscending(keys, i, k);
      keys := keys[..i] + [k] + keys[i..];
    }

    method AddAll(ks: seq<Key>, skip: seq<Key>)
      requires Ascending(keys) && KeySet(skip) <= KeySet(keys)
      modifies this
      ensures Ascending(keys) && KeySet(keys) == KeySet(old(keys)) + KeySet(ks)
    {
      hide Ascending, KeySet;
      KeyPrefix(ks, 0);
      for i := 0 to |ks|
        invariant Ascending(keys) && KeySet(skip) <= KeySet(keys)
        invariant KeySet(keys) == KeySet(old(keys)) + KeySet(ks[..i])
      {
        KeyPrefix(ks, i);
        if ks[i] !in skip {
          Add(ks[i]);
        }
      }
      assert ks[..|ks|] == ks;
    }
  }

  lemma KeyPrefix(ks: seq<Key>, i: nat)
    ensures KeySet(ks[..0]) == {}
    ensures i < |ks| ==> KeySet(ks[..i + 1]) == KeySet(ks[..i]) + {ks[i]}
  {
    if i < |ks| { assert ks[..i + 1] == ks[..i] + [ks[i]]; }
  }

  lemma InsertAscending(ks: seq<Key>, i: nat, k: Key)
    requires Ascending(ks) && i <= |ks|
    requires (forall j :: 0 <= j < i ==> KeyLess(ks[j], k)) && (i < |ks| ==> !KeyLess(ks[i], k) && ks[i] != k)
    ensures Ascending(ks[..i] + [k] + ks[i..]) && KeySet(ks[..i] + [k] + ks[i..]) == KeySet(ks) + {k}
  {
    var r := ks[..i] + [k] + ks[i..];
    assert ks == ks[..i] + ks[i..];
    forall a, b | 0 <= a < b < |r| ensures KeyLess(r[a], r[b]) {
      assert a == i && b > i + 1 ==> KeyLess(ks[i], ks[b - 1]);
    }
  }

  /** A stored closure for a commit with the given parents. */
  ghost predicate ClosureFor(g: Graph, parents: seq<Addr>, closure: Option<seq<Key>>)
    requires forall p :: p in parents ==> p in g
  {
    match closure
    case None => parents == []
    case Some(ks) => parents != [] && Ascending(ks) && KeySet(ks) == Wanted(g, parents)
  }

  /** Every closure stored in the graph is exact, and only commits without parents have none. */
  ghost predicate AllExact(g: Graph)
  {
    && Ranked(g)
    && forall c :: c in g ==> ClosureExact(g, c) && (g[c].closure.None? <==> g[c].parents == [])
  }

  /** The keys collected from the closures of the first n parents. */
  ghost function Collected(g: Graph, parents: seq<Addr>, n: nat): set<Key>
    requires n <= |parents| && forall p :: p in parents ==> p in g
  {
    if n == 0 then {} else Collected(g, parents, n - 1) + KeySet(Stored(g, parents[n - 1]))
  }

  lemma {:induction false} CollectedAll(g: Graph, parents: seq<Addr>, n: nat)
    requires n <= |parents| && forall p :: p in parents ==> p in g
    ensures forall k :: k in Collected(g, parents, n) <==> exists i :: 0 <= i < n && k in Stored(g, parents[i])
  {
    if n > 0 {
      CollectedAll(g, parents, n - 1);
    }
  }

  method WriteCommitParentClosure(g: Graph, parents: seq<Addr>) returns (closure: Option<seq<Key>>)
    requires AllExact(g) && forall p :: p in parents ==> p in g
    ensures ClosureFor(g, parents, closure)
  {
    hide Ascending, KeySet, Ranked, ClosureExact, Collected, Stored;
    if parents == [] {
      return None;
    }
    StoredAscending(g, parents[0]);
    var first := Stored(g, parents[0]);
    var editor := new ClosureEditor(first);
    CollectStep(g, parents, 0);
    for i := 1 to |parents|
      invariant fresh(editor) && Ascending(editor.keys)
      invariant KeySet(editor.keys) == Collected(g, parents, i) && KeySet(first) <= KeySet(editor.keys)
    {
      CollectStep(g, parents, i);
      editor.AddAll(Stored(g, parents[i]), first);
    }
    var keys := seq(|parents|, i requires 0 <= i < |parents| => KeyOf(g, parents[i]));
    editor.AddAll(keys, []) by { assert KeySet([]) == {} by { KeyPrefix([], 0); } }
    WantedIs(g, parents, keys);
    return Some(editor.keys);
  }

  lemma StoredAscending(g: Graph, c: Addr)
    requires AllExact(g) && c in g
    ensures Ascending(Stored(g, c))
  {
  }

  lemma CollectStep(g: Graph, parents: seq<Addr>, i: nat)
    requires i < |parents| && forall p :: p in parents ==> p in g
    ensures Collected(g, parents, i + 1) == Collected(g, parents, i) + KeySet(Stored(g, parents[i]))
    ensures Collected(g, parents, 0) == {}
  {
  }

  lemma WantedIs(g: Graph, parents: seq<Addr>, keys: seq<Key>)
    requires forall p :: p in parents ==> p in g
    requires |keys| == |parents| && forall i :: 0 <= i < |keys| ==> keys[i] == KeyOf(g, parents[i])
    ensures Wanted(g, parents) == Collected(g, parents, |parents|) + KeySet(keys)
  {
    hide Collected;
    CollectedAll(g, parents, |parents|);
    forall k ensures k in Wanted(g, parents) <==> k in Collected(g, parents, |parents|) + KeySet(keys) {
      if p :| p in parents && k == KeyOf(g, p) {
        var i :| 0 <= i < |parents| && parents[i] == p;
        assert keys[i] == k;
      }
    }
  }

  // ----- Histories -----

  /** g' is g with a new commit whose height and closure are made from its parents. */
  ghost predicate Commits(g: Graph, addr: Addr, parents: seq<Addr>, g': Graph)
  {
    && addr !in g
    && (forall p :: p in parents ==> p in g)
    && addr in g'
    && ClosureFor(g, parents, g'[addr].closure)
    && g' == g[addr := Commit(parents, 1 + MaxHeight(Heights(g, parents)), g'[addr].closure)]
  }

  method NewCommit(g: Graph, addr: Addr, parents: seq<Addr>) returns (g': Graph)
    requires AllExact(g) && addr !in g && forall p :: p in parents ==> p in g
    ensures Commits(g, addr, parents, g')
  {
    var closure := WriteCommitParentClosure(g, parents);
    g' := g[addr := Commit(parents, 1 + MaxHeight(Heights(g, parents)), closure)];
  }

  lemma CommitRanked(g: Graph, addr: Addr, parents: seq<Addr>, g': Graph)
    requires Ranked(g) && Commits(g, addr, parents, g')
    ensures Ranked(g')
  {
    forall c ensures RankedAt(g', c) {
      if c in g' {
        var ps := g'[c].parents;
        assert RankedAt(g, c);
        assert forall p :: p in ps ==> p in g;
        assert Heights(g', ps) == Heights(g, ps);
      }
    }
  }

  /** The keys wanted for a new commit are those of its strict ancestors. */
  lemma WantedExact(g: Graph, addr: Addr, parents: seq<Addr>, g': Graph, k: Key)
    requires AllExact(g) && Commits(g, addr, parents, g') && Ranked(g')
    ensures k in Wanted(g, parents) <==> k.addr in StrictAncestors(g', addr) && k.addr in g' && k == KeyOf(g', k.addr)
  {
    hide Ranked, Ascending, ClosureFor, StrictAncestors, Ancestors;
    forall p | p in parents
      ensures k in Stored(g, p) || k == KeyOf(g, p) <==>
              k.addr in Ancestors(g', p) && k.addr in g' && k == KeyOf(g', k.addr)
    {
      AncestorsKept(g, g', p);
      ParentKeys(g, p, k);
      if k.addr in Ancestors(g, p) { AncestorFacts(g, p, k.addr); }
    }
    StrictStep(g', addr, k.addr);
  }

  lemma StrictStep(g: Graph, c: Addr, a: Addr)
    requires Ranked(g) && c in g
    ensures forall p :: p in g[c].parents ==> p in g
    ensures a in StrictAncestors(g, c) <==> exists p :: p in g[c].parents && a in Ancestors(g, p)
  {
    forall p | p in g[c].parents ensures p in g && g[p].height < g[c].height {
      ParentBelow(g, c, p);
    }
  }

  lemma ParentKeys(g: Graph, p: Addr, k: Key)
    requires AllExact(g) && p in g
    ensures k in Stored(g, p) || k == KeyOf(g, p) <==> k.addr in Ancestors(g, p) && k.addr in g && k == KeyOf(g, k.addr)
  {
    hide Ranked, Ascending, StrictAncestors;
    assert ClosureExact(g, p);
    if g[p].closure.None? {
      StrictStep(g, p, k.addr);
    }
  }

  lemma CommitExact(g: Graph, addr: Addr, parents: seq<Addr>, g': Graph)
    requires AllExact(g) && Commits(g, addr, parents, g')
    ensures AllExact(g')
  {
    hide Ranked, Ascending, StrictAncestors, Ancestors, Wanted, MaxHeight, Heights;
    CommitRanked(g, addr, parents, g');
    forall c | c in g' ensures ClosureExact(g', c) && (g'[c].closure.None? <==> g'[c].parents == []) {
      if c == addr {
        if g'[c].closure.Some? {
          forall k { WantedExact(g, addr, parents, g', k); }
          NewExact(g', addr, g'[c].closure.value);
        }
      } else {
        KeptExact(g, g', c);
      }
    }
  }

  lemma NewExact(g: Graph, c: Addr, ks: seq<Key>)
    requires Ranked(g) && c in g
    requires forall k :: k in ks <==> k.addr in StrictAncestors(g, c) && k.addr in g && k == KeyOf(g, k.addr)
    ensures KeysOf(g, ks, StrictAncestors(g, c))
  {
    hide Ranked, StrictAncestors;
    forall a | a in StrictAncestors(g, c) ensures a in g && KeyOf(g, a) in ks {
      StrictBelow(g, c, a);
    }
    forall i | 0 <= i < |ks|
      ensures ks[i].addr in StrictAncestors(g, c) && ks[i].addr in g && ks[i] == KeyOf(g, ks[i].addr)
    {
      assert ks[i] in ks;
    }
  }

  lemma KeptExact(g: Graph, g': Graph, c: Addr)
    requires AllExact(g) && Ranked(g') && c in g && forall a :: a in g ==> a in g' && g'[a] == g[a]
    ensures ClosureExact(g', c) && (g'[c].closure.None? <==> g'[c].parents == [])
  {
    hide Ranked, StrictAncestors, Ascending;
    AncestorsKept(g, g', c);
    assert ClosureExact(g, c);
  }

  ghost predicate Grows(g: Graph, g': Graph)
  {
    exists addr, parents :: Commits(g, addr, parents, g')
  }

  /** Graphs made from nothing by committing. */
  ghost predicate History(gs: seq<Graph>)
  {
    && |gs| > 0 && gs[0] == map[]
    && forall i :: 0 < i < |gs| ==> Grows(gs[i - 1], gs[i])
  }

  /** Over every history each stored closure is exactly the strict ancestors of its commit. */
  lemma {:induction false} HistoryExact(gs: seq<Graph>, i: nat)
    requires History(gs) && i < |gs|
    ensures AllExact(gs[i])
  {
    hide AllExact, Commits;
    if i == 0 {
      NothingExact();
    } else {
      HistoryExact(gs, i - 1);
      var addr, parents :| Commits(gs[i - 1], addr, parents, gs[i]);
      CommitExact(gs[i - 1], addr, parents, gs[i]);
    }
  }

  lemma NothingExact()
    ensures AllExact(map[])
  {
  }
}
