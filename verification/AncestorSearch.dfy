/** The searches for a common ancestor: by parents lists and by stored closures. */
module AncestorSearch {

  import opened CommitGraph
  import opened Options

  ghost function Common(g: Graph, c1: Addr, c2: Addr): set<Addr>
    requires Ranked(g) && c1 in g && c2 in g
  {
    Ancestors(g, c1) * Ancestors(g, c2)
  }

  /** a is a common ancestor and no other has a greater height; or there is none. */
  ghost predicate Best(g: Graph, common: set<Addr>, r: Option<Addr>)
  {
    match r
    case None => common == {}
    case Some(a) => a in common && a in g && forall b :: b in common && b in g ==> g[b].height <= g[a].height
  }

  // ----- The frontier of a search -----

  lemma FrontierBelow(g: Graph, q: set<Addr>, h: nat)
    requires Ranked(g) && q <= g.Keys && forall c :: c in q ==> g[c].height <= h
    ensures forall a :: a in AncestorsOf(g, q) ==> a in g && g[a].height <= h && (g[a].height == h ==> a in q)
  {
    hide Ranked, Ancestors;
    forall a | a in AncestorsOf(g, q) ensures a in g && g[a].height <= h && (g[a].height == h ==> a in q) {
      var c :| c in q && a in Ancestors(g, c);
      AncestorFacts(g, c, a);
    }
  }

  lemma AncestorsByParents(g: Graph, cs: seq<Addr>)
    requires Ranked(g) && forall c :: c in cs ==> c in g
    ensures Parents(g, cs) <= g.Keys
    ensures AncestorsOf(g, Set(cs)) == Set(cs) + AncestorsOf(g, Parents(g, cs))
  {
    hide Ranked, Ancestors, StrictAncestors;
    ParentsPresent(g, cs);
    forall a ensures a in AncestorsOf(g, Set(cs)) <==> a in Set(cs) || a in AncestorsOf(g, Parents(g, cs)) {
      forall c | c in cs { AncestorsStep(g, c, a); }
    }
  }

  lemma ParentsPresent(g: Graph, cs: seq<Addr>)
    requires Ranked(g) && forall c :: c in cs ==> c in g
    ensures Parents(g, cs) <= g.Keys
  {
    forall c, p | c in cs && p in g[c].parents ensures p in g {
      ParentBelow(g, c, p);
    }
  }

  lemma AncestorsUnion(g: Graph, a: set<Addr>, b: set<Addr>)
    requires Ranked(g) && a <= g.Keys && b <= g.Keys
    ensures AncestorsOf(g, a + b) == AncestorsOf(g, a) + AncestorsOf(g, b)
  {
  }

  /** Replacing the commits of a frontier by their parents loses just those commits. */
  lemma FrontierStep(g: Graph, q: set<Addr>, popped: seq<Addr>, rest: set<Addr>)
    requires Ranked(g) && q <= g.Keys && q == Set(popped) + rest
    ensures Parents(g, popped) <= g.Keys
    ensures AncestorsOf(g, q) == Set(popped) + AncestorsOf(g, rest + Parents(g, popped))
  {
    hide Ranked, AncestorsOf, Parents;
    AncestorsByParents(g, popped);
    AncestorsUnion(g, Set(popped), rest);
    AncestorsUnion(g, rest, Parents(g, popped));
  }

  lemma ParentsUnder(g: Graph, popped: seq<Addr>, h: nat)
    requires Ranked(g) && forall c :: c in popped ==> c in g && g[c].height <= h
    ensures forall p :: p in Parents(g, popped) ==> p in g && g[p].height < h
  {
    forall c, p | c in popped && p in g[c].parents ensures p in g && g[p].height < h {
      ParentBelow(g, c, p);
    }
  }

  /** The commits of greatest height leave the queue and their parents enter it. */
  method Expand(heap: CommitByHeightHeap) returns (popped: seq<Addr>)
    requires heap.Valid() && !heap.Empty()
    modifies heap
    ensures heap.Valid() && heap.Top() < old(heap.Top())
    ensures forall c :: c in popped <==> c in old(heap.q) && heap.g[c].height == old(heap.Top())
    ensures Set(old(heap.q)) <= heap.g.Keys && Set(heap.q) <= heap.g.Keys
    ensures AncestorsOf(heap.g, Set(old(heap.q))) == Set(popped) + AncestorsOf(heap.g, Set(heap.q))
  {
    hide Ranked, Ordered, AncestorsOf, Set;
    var h := heap.MaxHeight();
    HeapKeys(heap);
    popped := heap.PopCommitsOfHeight(h);
    HeapKeys(heap);
    ghost var rest := Set(heap.q);
    assert Set(old(heap.q)) == Set(popped) + rest;
    FrontierStep(heap.g, Set(old(heap.q)), popped, rest);
    ParentsUnder(heap.g, popped, h);
    assert h > 0 by { Positive(heap.g, popped[0]); }
    ParentsToQueue(popped, heap);
  }

  lemma Positive(g: Graph, c: Addr)
    requires Ranked(g) && c in g
    ensures g[c].height > 0
  {
    assert RankedAt(g, c);
  }

  lemma HeapKeys(heap: CommitByHeightHeap)
    requires heap.Valid()
    ensures Set(heap.q) <= heap.g.Keys && forall c :: c in heap.q ==> c in heap.g
  {
  }

  // ----- The search by parents -----

  method FindCommonCommit(a: seq<Addr>, b: seq<Addr>) returns (r: Option<Addr>)
    ensures match r
            case Some(c) => c in a && c in b
            case None => Set(a) !! Set(b)
  {
    var bs := Set(b);
    for i := 0 to |a|
      invariant forall j :: 0 <= j < i ==> a[j] !in b
    {
      if a[i] in bs {
        return Some(a[i]);
      }
    }
    return None;
  }

  /** Between them the two frontiers still lead to every common ancestor. */
  ghost predicate Leads(g: Graph, c1: Addr, c2: Addr, q1: set<Addr>, q2: set<Addr>)
  {
    && Ranked(g) && c1 in g && c2 in g && q1 <= g.Keys && q2 <= g.Keys
    && AncestorsOf(g, q1) <= Ancestors(g, c1)
    && AncestorsOf(g, q2) <= Ancestors(g, c2)
    && Common(g, c1, c2) <= AncestorsOf(g, q1) * AncestorsOf(g, q2)
  }

  /** The commits of a height above all of the other frontier can go. */
  lemma LeadsDown(g: Graph, c1: Addr, c2: Addr, q1: set<Addr>, q2: set<Addr>, popped: seq<Addr>, q1': set<Addr>, h: nat)
    requires Leads(g, c1, c2, q1, q2) && q1' <= g.Keys
    requires AncestorsOf(g, q1) == Set(popped) + AncestorsOf(g, q1')
    requires forall c :: c in popped ==> c in g && g[c].height > h
    requires forall c :: c in q2 ==> g[c].height <= h
    ensures Leads(g, c1, c2, q1', q2)
  {
    hide Ranked, Ancestors, AncestorsOf;
    FrontierBelow(g, q2, h);
  }

  lemma LeadsSwap(g: Graph, c1: Addr, c2: Addr, q1: set<Addr>, q2: set<Addr>)
    requires Leads(g, c1, c2, q1, q2)
    ensures Leads(g, c2, c1, q2, q1)
  {
    hide Ranked, Ancestors, AncestorsOf;
    assert Common(g, c1, c2) == Common(g, c2, c1);
    assert AncestorsOf(g, q1) * AncestorsOf(g, q2) == AncestorsOf(g, q2) * AncestorsOf(g, q1);
  }

  /** Frontiers of equal height: what their tops share is best, and if that is nothing both tops can go. */
  lemma LeadsLevel(g: Graph, c1: Addr, c2: Addr, q1: set<Addr>, q2: set<Addr>, p1: seq<Addr>, p2: seq<Addr>,
                   q1': set<Addr>, q2': set<Addr>, h: nat)
    requires Leads(g, c1, c2, q1, q2) && q1' <= g.Keys && q2' <= g.Keys
    requires AncestorsOf(g, q1) == Set(p1) + AncestorsOf(g, q1') && AncestorsOf(g, q2) == Set(p2) + AncestorsOf(g, q2')
    requires forall c :: c in q1 + q2 ==> g[c].height <= h
    requires forall c :: c in p1 <==> c in q1 && g[c].height == h
    requires forall c :: c in p2 <==> c in q2 && g[c].height == h
    ensures Set(p1) !! Set(p2) ==> Leads(g, c1, c2, q1', q2')
    ensures forall c :: c in p1 && c in p2 ==> Best(g, Common(g, c1, c2), Some(c))
  {
    hide Ranked, Ancestors, AncestorsOf;
    FrontierBelow(g, q1, h);
    FrontierBelow(g, q2, h);
  }

  method FindCommonAncestorUsingParentsList(g: Graph, c1: Addr, c2: Addr) returns (r: Option<Addr>)
    requires Ranked(g) && c1 in g && c2 in g
    ensures Best(g, Common(g, c1, c2), r)
  {
    hide Ranked, Ordered, AncestorsOf, Set, Leads, Best, Common;
    var heap1 := new CommitByHeightHeap(g, c1);
    var heap2 := new CommitByHeightHeap(g, c2);
    LeadsStart(g, c1, c2);
    while !heap1.Empty() && !heap2.Empty()
      invariant heap1 != heap2 && heap1.g == g && heap2.g == g && heap1.Valid() && heap2.Valid()
      invariant Leads(g, c1, c2, Set(heap1.q), Set(heap2.q))
      decreases heap1.Top() + heap2.Top()
    {
      ghost var q1, q2 := Set(heap1.q), Set(heap2.q);
      HeapKeys(heap1);
      HeapKeys(heap2);
      var h1, h2 := heap1.MaxHeight(), heap2.MaxHeight();
      if h1 == h2 {
        var p1 := Expand(heap1);
        var p2 := Expand(heap2);
        LeadsLevel(g, c1, c2, q1, q2, p1, p2, Set(heap1.q), Set(heap2.q), h1);
        r := FindCommonCommit(p1, p2);
        if r.Some? {
          return;
        }
      } else if h1 > h2 {
        var p1 := Expand(heap1);
        LeadsDown(g, c1, c2, q1, q2, p1, Set(heap1.q), h2);
      } else {
        var p2 := Expand(heap2);
        LeadsSwap(g, c1, c2, q1, q2);
        LeadsDown(g, c2, c1, q2, q1, p2, Set(heap2.q), h1);
        LeadsSwap(g, c2, c1, Set(heap2.q), q1);
      }
    }
    LeadsEnd(g, c1, c2, Set(heap1.q), Set(heap2.q));
    return None;
  }

  lemma LeadsStart(g: Graph, c1: Addr, c2: Addr)
    requires Ranked(g) && c1 in g && c2 in g
    ensures Leads(g, c1, c2, {c1}, {c2})
  {
    hide Ranked, Ancestors;
  }

  lemma LeadsEnd(g: Graph, c1: Addr, c2: Addr, q1: set<Addr>, q2: set<Addr>)
    requires Leads(g, c1, c2, q1, q2) && (q1 == {} || q2 == {})
    ensures Best(g, Common(g, c1, c2), None)
  {
    hide Ranked, Ancestors;
  }

  // ----- The search by closures -----

  function KeyOf(g: Graph, a: Addr): Key
    requires a in g
  {
    Key(g[a].height, a)
  }

  predicate KeyLess(a: Key, b: Key)
  {
    a.height < b.height || (a.height == b.height && a.addr < b.addr)
  }

  /** From the least height up, keys of one height in the order of their addresses, no key twice. */
  ghost predicate Ascending(ks: seq<Key>)
  {
    forall i, j :: 0 <= i < j < |ks| ==>
      ks[i].height < ks[j].height || (ks[i].height == ks[j].height && ks[i].addr < ks[j].addr)
  }

  /** The keys are those of the given commits. */
  ghost predicate KeysOf(g: Graph, ks: seq<Key>, cs: set<Addr>)
  {
    && (forall i :: 0 <= i < |ks| ==> ks[i].addr in cs && ks[i].addr in g && ks[i] == KeyOf(g, ks[i].addr))
    && (forall a :: a in cs ==> a in g && KeyOf(g, a) in ks)
  }

  /** A materialized closure is exactly the strict ancestors keyed by height and address. */
  ghost predicate ClosureExact(g: Graph, c: Addr)
    requires Ranked(g) && c in g
  {
    g[c].closure.Some? ==> Ascending(g[c].closure.value) && KeysOf(g, g[c].closure.value, StrictAncestors(g, c))
  }

  /** The commit's own key, then its closure from the greatest key down. */
  function Iterated(self: Key, closure: seq<Key>): (r: seq<Key>)
    ensures |r| == |closure| + 1 && r[0] == self
    ensures forall i :: 0 < i < |r| ==> r[i] == closure[|closure| - i]
  {
    [self] + seq(|closure|, i requires 0 <= i < |closure| => closure[|closure| - 1 - i])
  }

  ghost predicate Descending(ks: seq<Key>)
  {
    forall i, j :: 0 <= i < j < |ks| ==> KeyLess(ks[j], ks[i])
  }

  lemma IteratedAncestors(g: Graph, c: Addr)
    requires Ranked(g) && c in g && ClosureExact(g, c) && g[c].closure.Some?
    ensures Descending(Iterated(KeyOf(g, c), g[c].closure.value))
    ensures KeysOf(g, Iterated(KeyOf(g, c), g[c].closure.value), Ancestors(g, c))
  {
    hide Ranked, StrictAncestors;
    var ks := g[c].closure.value;
    var r := Iterated(KeyOf(g, c), ks);
    forall i | 0 <= i < |ks| ensures KeyLess(ks[i], r[0]) {
      StrictBelow(g, c, ks[i].addr);
    }
    forall a | a in Ancestors(g, c) ensures a in g && KeyOf(g, a) in r {
      if a == c {
        assert r[0] == KeyOf(g, a);
      } else {
        var i :| 0 <= i < |ks| && ks[i] == KeyOf(g, a);
        assert r[|ks| - i] == ks[i];
      }
    }
  }

  function Rest(ks: seq<Key>, i: nat): seq<Key>
  {
    if i <= |ks| then ks[i..] else []
  }

  /** Everything the two lists share is at or after the two positions. */
  ghost predicate Ahead(g: Graph, common: set<Addr>, k1: seq<Key>, k2: seq<Key>, i1: nat, i2: nat)
  {
    forall a :: a in common ==> a in g && KeyOf(g, a) in Rest(k1, i1) && KeyOf(g, a) in Rest(k2, i2)
  }

  lemma AheadStep(g: Graph, common: set<Addr>, k1: seq<Key>, k2: seq<Key>, i1: nat, i2: nat)
    requires i1 < |k1| && i2 < |k2| && Descending(k1) && Ahead(g, common, k1, k2, i1, i2)
    requires k1[i1] != k2[i2] && !KeyLess(k2[i2], k1[i1])
    ensures Ahead(g, common, k1, k2, i1, i2 + 1)
  {
    forall a | a in common ensures KeyOf(g, a) in k2[i2 + 1..] {
      var k := KeyOf(g, a);
      var j1 :| 0 <= j1 < |k1| - i1 && k1[i1..][j1] == k;
      var j2 :| 0 <= j2 < |k2| - i2 && k2[i2..][j2] == k;
      assert k1[i1 + j1] == k;
      assert k2[i2 + 1..][j2 - 1] == k;
    }
  }

  lemma AheadSwap(g: Graph, common: set<Addr>, k1: seq<Key>, k2: seq<Key>, i1: nat, i2: nat)
    requires Ahead(g, common, k1, k2, i1, i2)
    ensures Ahead(g, common, k2, k1, i2, i1)
  {
  }

  lemma AheadFound(g: Graph, common: set<Addr>, k1: seq<Key>, k2: seq<Key>, i1: nat, i2: nat)
    requires i1 < |k1| && Descending(k1) && Ahead(g, common, k1, k2, i1, i2)
    requires k1[i1].addr in common && k1[i1].addr in g
    requires k1[i1] == KeyOf(g, k1[i1].addr)
    ensures Best(g, common, Some(k1[i1].addr))
  {
    forall b | b in common && b in g ensures g[b].height <= k1[i1].height {
      var j :| 0 <= j < |k1| - i1 && k1[i1..][j] == KeyOf(g, b);
      assert k1[i1 + j] == KeyOf(g, b);
    }
  }

  lemma AheadStart(g: Graph, k1: seq<Key>, k2: seq<Key>, s1: set<Addr>, s2: set<Addr>)
    requires KeysOf(g, k1, s1) && KeysOf(g, k2, s2)
    ensures Ahead(g, s1 * s2, k1, k2, 0, 0)
  {
    assert k1[0..] == k1 && k2[0..] == k2;
  }

  lemma AheadEnd(g: Graph, common: set<Addr>, k1: seq<Key>, k2: seq<Key>, i1: nat, i2: nat)
    requires i1 <= |k1| && i2 <= |k2| && Ahead(g, common, k1, k2, i1, i2) && (i1 == |k1| || i2 == |k2|)
    ensures common == {}
  {
    assert i1 == |k1| ==> k1[i1..] == [];
    assert i2 == |k2| ==> k2[i2..] == [];
  }

  method FindCommonAncestor(g: Graph, c1: Addr, c2: Addr) returns (r: Option<Addr>)
    requires Ranked(g) && c1 in g && c2 in g && ClosureExact(g, c1) && ClosureExact(g, c2)
    ensures Best(g, Common(g, c1, c2), r)
  {
    hide Ranked, Ahead, Ancestors, StrictAncestors, Iterated, Descending, Best;
    if g[c1].closure.None? || g[c2].closure.None? {
      r := FindCommonAncestorUsingParentsList(g, c1, c2);
      return;
    }
    var k1 := Iterated(KeyOf(g, c1), g[c1].closure.value);
    var k2 := Iterated(KeyOf(g, c2), g[c2].closure.value);
    IteratedAncestors(g, c1);
    IteratedAncestors(g, c2);
    ghost var common := Common(g, c1, c2);
    AheadStart(g, k1, k2, Ancestors(g, c1), Ancestors(g, c2));
    var i1, i2 := 0, 0;
    while true
      invariant 0 <= i1 < |k1| && 0 <= i2 < |k2|
      invariant Ahead(g, common, k1, k2, i1, i2)
      decreases |k1| - i1 + |k2| - i2
    {
      if k1[i1].addr == k2[i2].addr {
        AheadFound(g, common, k1, k2, i1, i2);
        return Some(k1[i1].addr);
      }
      if KeyLess(k1[i1], k2[i2]) {
        AheadStep(g, common, k1, k2, i1, i2);
        i2 := i2 + 1;
      } else {
        AheadSwap(g, common, k1, k2, i1, i2);
        AheadStep(g, common, k2, k1, i2, i1);
        AheadSwap(g, common, k2, k1, i2, i1 + 1);
        i1 := i1 + 1;
      }
      if i1 == |k1| || i2 == |k2| {
        AheadEnd(g, common, k1, k2, i1, i2);
        NoneBest(g, common);
        return None;
      }
    }
  }

  lemma NoneBest(g: Graph, common: set<Addr>)
    ensures common == {} ==> Best(g, common, None)
  {
  }

  /** Best common ancestors agree on whether there is one and on its height. */
  lemma BestAgree(g: Graph, common: set<Addr>, r1: Option<Addr>, r2: Option<Addr>)
    requires Best(g, common, r1) && Best(g, common, r2)
    ensures r1.Some? == r2.Some?
    ensures r1.Some? ==> r1.value in g && r2.value in g && g[r1.value].height == g[r2.value].height
  {
  }
}
