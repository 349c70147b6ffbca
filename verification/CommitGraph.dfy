/** The commit graph: ancestors, heights and the height-ordered queue of commits. */
module CommitGraph {

  import opened Options

  type Addr = nat

  /** A key of a materialized closure. */
  datatype Key = Key(height: nat, addr: Addr)

  /** The closure is kept as the sorted list of its keys; a commit may have none. */
  datatype Commit = Commit(parents: seq<Addr>, height: nat, closure: Option<seq<Key>>)

  type Graph = map<Addr, Commit>

  function MaxHeight(heights: seq<nat>): (r: nat)
    ensures forall i :: 0 <= i < |heights| ==> heights[i] <= r
    ensures r == 0 || r in heights
  {
    if heights == [] then 0
    else
      var m := MaxHeight(heights[..|heights| - 1]);
      if heights[|heights| - 1] > m then heights[|heights| - 1] else m
  }

  function Heights(g: Graph, cs: seq<Addr>): (r: seq<nat>)
    requires forall c :: c in cs ==> c in g
    ensures |r| == |cs| && forall i :: 0 <= i < |r| ==> r[i] == g[cs[i]].height
  {
    seq(|cs|, i requires 0 <= i < |cs| => g[cs[i]].height)
  }

  /** The parents of c are present and its height is one more than the greatest height of a parent. */
  ghost predicate RankedAt(g: Graph, c: Addr)
  {
    c in g ==>
      (forall p :: p in g[c].parents ==> p in g) && g[c].height == 1 + MaxHeight(Heights(g, g[c].parents))
  }

  ghost predicate Ranked(g: Graph)
  {
    forall c {:trigger RankedAt(g, c)} :: RankedAt(g, c)
  }

  lemma ParentBelow(g: Graph, c: Addr, p: Addr)
    requires Ranked(g) && c in g && p in g[c].parents
    ensures p in g && g[p].height < g[c].height
  {
    assert RankedAt(g, c);
    var i :| 0 <= i < |g[c].parents| && g[c].parents[i] == p;
    assert Heights(g, g[c].parents)[i] == g[p].height;
  }

  // ----- Ancestors -----

  /** The commits that c can reach through parents, c included. */
  ghost function Ancestors(g: Graph, c: Addr): set<Addr>
    requires Ranked(g) && c in g
    decreases g[c].height, 1
  {
    {c} + StrictAncestors(g, c)
  }

  ghost function StrictAncestors(g: Graph, c: Addr): set<Addr>
    requires Ranked(g) && c in g
    decreases g[c].height, 0
  {
    set p, a | p in g[c].parents && p in g && g[p].height < g[c].height && a in Ancestors(g, p) :: a
  }

  ghost function AncestorsOf(g: Graph, cs: set<Addr>): set<Addr>
    requires Ranked(g) && cs <= g.Keys
  {
    set c, a | c in cs && a in Ancestors(g, c) :: a
  }

  lemma {:induction false} AncestorFacts(g: Graph, c: Addr, a: Addr)
    requires Ranked(g) && c in g && a in Ancestors(g, c)
    ensures a in g && g[a].height <= g[c].height && (g[a].height == g[c].height ==> a == c)
    ensures Ancestors(g, a) <= Ancestors(g, c)
    decreases g[c].height
  {
    hide Ranked, Ancestors;
    AncestorsStep(g, c, a);
    if a != c {
      var p :| p in g[c].parents && a in Ancestors(g, p);
      ParentBelow(g, c, p);
      AncestorFacts(g, p, a);
      forall b | b in Ancestors(g, a) ensures b in Ancestors(g, c) {
        AncestorsStep(g, c, b);
      }
    }
  }

  lemma AncestorsStep(g: Graph, c: Addr, a: Addr)
    requires Ranked(g) && c in g
    ensures forall p :: p in g[c].parents ==> p in g
    ensures a in Ancestors(g, c) <==> a == c || exists p :: p in g[c].parents && a in Ancestors(g, p)
  {
    forall p | p in g[c].parents ensures p in g && g[p].height < g[c].height {
      ParentBelow(g, c, p);
    }
  }

  lemma StrictBelow(g: Graph, c: Addr, a: Addr)
    requires Ranked(g) && c in g && a in StrictAncestors(g, c)
    ensures a in g && g[a].height < g[c].height && a in Ancestors(g, c)
  {
    var p :| p in g[c].parents && p in g && a in Ancestors(g, p);
    ParentBelow(g, c, p);
    AncestorFacts(g, p, a);
  }

  /** Adding a commit does not change the ancestors of those that were there. */
  lemma {:induction false} AncestorsKept(g: Graph, g': Graph, c: Addr)
    requires Ranked(g) && Ranked(g') && c in g && forall a :: a in g ==> a in g' && g'[a] == g[a]
    ensures Ancestors(g', c) == Ancestors(g, c) && StrictAncestors(g', c) == StrictAncestors(g, c)
    decreases g[c].height
  {
    forall p | p in g[c].parents ensures p in g && p in g' && Ancestors(g', p) == Ancestors(g, p) {
      ParentBelow(g, c, p);
      AncestorsKept(g, g', p);
    }
  }

  // ----- The queue -----

  function Set(s: seq<Addr>): (r: set<Addr>)
    ensures forall c :: c in r <==> c in s
  {
    set c | c in s
  }

  predicate Before(g: Graph, a: Addr, b: Addr)
    requires a in g && b in g
  {
    g[a].height > g[b].height || (g[a].height == g[b].height && a <= b)
  }

  /** Falling heights, equal heights in order of address. */
  ghost predicate Ordered(g: Graph, q: seq<Addr>)
  {
    && (forall c :: c in q ==> c in g)
    && (forall i, j :: 0 <= i < j < |q| ==>
          g[q[i]].height > g[q[j]].height || (g[q[i]].height == g[q[j]].height && q[i] <= q[j]))
  }

  lemma InsertOrdered(g: Graph, q: seq<Addr>, k: nat, c: Addr)
    requires Ordered(g, q) && k <= |q| && c in g
    requires (forall i :: 0 <= i < k ==> Before(g, q[i], c)) && (k < |q| ==> !Before(g, q[k], c))
    ensures Ordered(g, q[..k] + [c] + q[k..]) && Set(q[..k] + [c] + q[k..]) == Set(q) + {c}
  {
    var r := q[..k] + [c] + q[k..];
    assert q == q[..k] + q[k..];
    forall i, j | 0 <= i < j < |r| ensures r[i] in g && r[j] in g && Before(g, r[i], r[j]) {
      assert i == k && j > k + 1 ==> Before(g, q[k], q[j - 1]);
    }
  }

  lemma TailOrdered(g: Graph, q: seq<Addr>)
    requires Ordered(g, q) && q != []
    ensures Ordered(g, q[1..]) && Set(q) == Set(q[1..]) + {q[0]}
    ensures forall c :: c in q ==> c in g && g[c].height <= g[q[0]].height
  {
    assert q == [q[0]] + q[1..];
  }

  class CommitByHeightHeap {
    const g: Graph
    var q: seq<Addr>

    ghost predicate Valid()
      reads this
    {
      Ranked(g) && Ordered(g, q)
    }

    constructor (g: Graph, c: Addr)
      requires Ranked(g) && c in g
      ensures Valid() && this.g == g && Set(q) == {c}
    {
      this.g, q := g, [c];
    }

    predicate Empty()
      reads this
    {
      q == []
    }

    function MaxHeight(): (h: nat)
      requires Valid() && !Empty()
      reads this
      ensures forall c :: c in q ==> g[c].height <= h
    {
      g[q[0]].height
    }

    /** The greatest height in the queue, or 0. */
    ghost function Top(): (h: nat)
      requires Valid()
      reads this
      ensures forall c :: c in q ==> g[c].height <= h
      ensures h > 0 ==> exists c :: c in q && g[c].height == h
    {
      if Empty() then 0 else MaxHeight()
    }

    method Push(c: Addr)
      requires Valid() && c in g
      modifies this
      ensures Valid() && Set(q) == Set(old(q)) + {c}
    {
      hide Ranked, Set;
      var k := 0;
      while k < |q| && Before(g, q[k], c)
        invariant 0 <= k <= |q|
        invariant forall i :: 0 <= i < k ==> Before(g, q[i], c)
      {
        k := k + 1;
      }
      InsertOrdered(g, q, k, c);
      q := q[..k] + [c] + q[k..];
    }

    /** Take out all commits of the greatest height. */
    method PopCommitsOfHeight(h: nat) returns (r: seq<Addr>)
      requires Valid() && !Empty() && h == MaxHeight()
      modifies this
      ensures Valid() && r != []
      ensures forall c :: c in r <==> c in old(q) && g[c].height == h
      ensures forall c :: c in q <==> c in old(q) && g[c].height < h
    {
      hide Ranked;
      r := [];
      while !Empty() && MaxHeight() == h
        invariant Valid() && (r == [] ==> q == old(q))
        invariant forall c :: c in q ==> g[c].height <= h
        invariant forall c :: c in r ==> c in g && g[c].height == h
        invariant forall c :: c in old(q) <==> c in Set(q) + Set(r)
        decreases |q|
      {
        hide Ordered, Set;
        TailOrdered(g, q);
        SetPush(r, q[0]);
        r := r + [q[0]];
        q := q[1..];
      }
    }
  }

  lemma SetPush(s: seq<Addr>, c: Addr)
    ensures Set(s + [c]) == Set(s) + {c}
  {
  }

  ghost function Parents(g: Graph, cs: seq<Addr>): set<Addr>
    requires forall c :: c in cs ==> c in g
  {
    set c, p | c in cs && p in g[c].parents :: p
  }

  lemma ParentsGrow(g: Graph, cs: seq<Addr>, i: nat)
    requires i < |cs| && forall c :: c in cs ==> c in g
    ensures Parents(g, cs[..i + 1]) == Parents(g, cs[..i]) + Set(g[cs[i]].parents)
    ensures Set(cs[..i + 1]) == Set(cs[..i]) + {cs[i]}
    ensures cs[i] in Set(cs[..i]) ==> Parents(g, cs[..i + 1]) == Parents(g, cs[..i])
  {
    assert cs[..i + 1] == cs[..i] + [cs[i]];
  }

  method PushAll(ps: seq<Addr>, heap: CommitByHeightHeap)
    requires heap.Valid() && forall p :: p in ps ==> p in heap.g
    modifies heap
    ensures heap.Valid() && Set(heap.q) == Set(old(heap.q)) + Set(ps)
  {
    hide Ranked, Ordered, Set;
    assert Set(ps[..0]) == {};
    for j := 0 to |ps|
      invariant heap.Valid() && Set(heap.q) == Set(old(heap.q)) + Set(ps[..j])
    {
      assert ps[..j + 1] == ps[..j] + [ps[j]];
      SetPush(ps[..j], ps[j]);
      heap.Push(ps[j]);
    }
    assert ps[..|ps|] == ps;
  }

  /** Push the parents of the given commits. */
  method ParentsToQueue(commits: seq<Addr>, heap: CommitByHeightHeap)
    requires heap.Valid() && forall c :: c in commits ==> c in heap.g
    modifies heap
    ensures heap.Valid() && Set(heap.q) == Set(old(heap.q)) + Parents(heap.g, commits)
  {
    hide Ordered, Set, Parents, Heights, MaxHeight;
    var seen: set<Addr> := {};
    assert commits[..0] == [];
    NoParents(heap.g);
    for i := 0 to |commits|
      invariant heap.Valid() && seen == Set(commits[..i])
      invariant Set(heap.q) == Set(old(heap.q)) + Parents(heap.g, commits[..i])
    {
      var c := commits[i];
      ParentsGrow(heap.g, commits, i);
      if c !in seen {
        seen := seen + {c};
        assert RankedAt(heap.g, c);
        PushAll(heap.g[c].parents, heap);
      }
    }
    assert commits[..|commits|] == commits;
  }

  lemma NoParents(g: Graph)
    ensures Parents(g, []) == {} && Set([]) == {}
  {
  }
}
