/** Three-way merge of lists by splices. */
module ListMerge {

  import opened Bytes

  /** At `at` of the parent `removed` elements go and `added` elements come, found from `from` on in the candidate. */
  datatype Splice = Splice(at: nat, removed: nat, added: nat, from: nat)

  /** A splice together with the elements it adds. */
  datatype Edit<T> = Edit(at: nat, removed: nat, content: seq<T>)

  datatype Result<T> = Merged(list: seq<T>) | Conflict

  /** The value that stands for no splice. */
  const UNASSIGNED: nat := U64 - 1
  const INVALID := Splice(UNASSIGNED, UNASSIGNED, UNASSIGNED, UNASSIGNED)

  function Add64(a: nat, b: nat): nat
    requires a < U64 && b < U64
  {
    if a + b < U64 then a + b else a + b - U64
  }

  function Sub64(a: nat, b: nat): nat
    requires a < U64 && b < U64
  {
    if a >= b then a - b else a + U64 - b
  }

  // ----- Splices of a candidate -----

  /** Splices in order, disjoint, each doing something, within the parent and the candidate. */
  ghost predicate Splices<T>(ss: seq<Splice>, candidate: seq<T>, parent: seq<T>)
  {
    && (forall i :: 0 <= i < |ss| ==>
          ss[i].at + ss[i].removed <= |parent| && ss[i].from + ss[i].added <= |candidate| &&
            ss[i].removed + ss[i].added > 0)
    && (forall i, j :: 0 <= i < j < |ss| ==> ss[i].at < ss[j].at && ss[i].at + ss[i].removed <= ss[j].at)
  }

  function EditOf<T>(s: Splice, candidate: seq<T>): Edit<T>
    requires s.from + s.added <= |candidate|
  {
    Edit(s.at, s.removed, candidate[s.from..s.from + s.added])
  }

  /** Two splices touch the same place of the parent. */
  predicate Overlaps(s1: Splice, s2: Splice)
  {
    s1.at == s2.at || (s1.at < s2.at < s1.at + s1.removed) || (s2.at < s1.at < s2.at + s2.removed)
  }

  /** Two splices are the same and add the same elements. */
  predicate Identical<T(==)>(s1: Splice, s2: Splice, a: seq<T>, b: seq<T>)
    requires s1.from + s1.added <= |a| && s2.from + s2.added <= |b|
  {
    s1 == s2 && EditOf(s1, a) == EditOf(s2, b)
  }

  ghost predicate Clashes<T>(s1: Splice, s2: Splice, a: seq<T>, b: seq<T>)
    requires s1.from + s1.added <= |a| && s2.from + s2.added <= |b|
  {
    Overlaps(s1, s2) && !Identical(s1, s2, a, b)
  }

  // ----- Edits applied at once -----

  function End<T>(edits: seq<Edit<T>>): nat
  {
    if edits == [] then 0 else edits[|edits| - 1].at + edits[|edits| - 1].removed
  }

  /** Edits in order of the parent, none reaching into the next. */
  ghost predicate Ordered<T>(edits: seq<Edit<T>>, parent: seq<T>)
  {
    && (forall i :: 0 <= i < |edits| ==> edits[i].at + edits[i].removed <= |parent|)
    && (forall i, j :: 0 <= i < j < |edits| ==>
          edits[i].at < edits[j].at && edits[i].at + edits[i].removed <= edits[j].at)
  }

  /** The parent up to the end of the last edit, with all edits made. */
  function Done<T>(parent: seq<T>, edits: seq<Edit<T>>): seq<T>
    requires Ordered(edits, parent)
  {
    if edits == [] then []
    else
      var before := edits[..|edits| - 1];
      var e := edits[|edits| - 1];
      EndBefore(parent, edits);
      Done(parent, before) + parent[End(before)..e.at] + e.content
  }

  /** The parent with all edits made, each at its place in the parent. */
  function Patched<T>(parent: seq<T>, edits: seq<Edit<T>>): seq<T>
    requires Ordered(edits, parent)
  {
    Done(parent, edits) + parent[End(edits)..]
  }

  lemma EndBefore<T>(parent: seq<T>, edits: seq<Edit<T>>)
    requires Ordered(edits, parent) && edits != []
    ensures Ordered(edits[..|edits| - 1], parent) && End(edits[..|edits| - 1]) <= edits[|edits| - 1].at
    ensures edits[|edits| - 1].at + edits[|edits| - 1].removed <= |parent|
  {
  }

  /** The edits are those of both candidates, shared ones once. */
  ghost predicate Together<T>(edits: seq<Edit<T>>, aSplices: seq<Splice>, a: seq<T>, bSplices: seq<Splice>,
      b: seq<T>, parent: seq<T>)
    requires Splices(aSplices, a, parent) && Splices(bSplices, b, parent)
  {
    && Ordered(edits, parent)
    && (forall i :: 0 <= i < |aSplices| ==> EditOf(aSplices[i], a) in edits)
    && (forall i :: 0 <= i < |bSplices| ==> EditOf(bSplices[i], b) in edits)
    && (forall e :: e in edits ==> From(e, aSplices, a, parent) || From(e, bSplices, b, parent))
  }

  ghost predicate From<T>(e: Edit<T>, ss: seq<Splice>, candidate: seq<T>, parent: seq<T>)
    requires Splices(ss, candidate, parent)
  {
    exists i :: 0 <= i < |ss| && EditOf(ss[i], candidate) == e
  }

  // ----- The merge -----

  /** Wrapping sums as the code forms them. */
  predicate Overlap64(s1: Splice, s2: Splice)
    requires s1.at < U64 && s1.removed < U64 && s2.at < U64 && s2.removed < U64
  {
    var earlier, later := if s2.at < s1.at then s2 else s1, if s2.at < s1.at then s1 else s2;
    s1.at == s2.at || Add64(earlier.at, earlier.removed) > later.at
  }

  lemma OverlapExact(s1: Splice, s2: Splice)
    requires s1.at + s1.removed < U64 && s2.at + s2.removed < U64
    ensures Overlap64(s1, s2) <==> Overlaps(s1, s2)
  {
  }

  /** Replace part of a list. */
  function SpliceList<T>(target: seq<T>, at: nat, removed: nat, content: seq<T>): seq<T>
    requires at + removed <= |target|
  {
    target[..at] + content + target[at + removed..]
  }

  /** offset is delta in 64-bit arithmetic. */
  predicate Wraps(offset: nat, delta: int)
  {
    offset < U64 && (offset == delta || offset == delta + U64)
  }

  /** The 64-bit position of a splice in the merged list is its place in the parent moved by what was done before. */
  lemma PositionExact<T>(parent: seq<T>, edits: seq<Edit<T>>, offset: nat, at: nat)
    requires Ordered(edits, parent) && End(edits) <= at <= |parent| && |Patched(parent, edits)| < U64 && |parent| < U64
    requires Wraps(offset, |Patched(parent, edits)| - |parent|)
    ensures Add64(at, offset) == |Done(parent, edits)| + at - End(edits)
  {
    assert |Patched(parent, edits)| == |Done(parent, edits)| + |parent| - End(edits);
  }

  lemma OffsetStep(offset: nat, delta: int, added: nat, removed: nat)
    requires Wraps(offset, delta) && added < U64 && removed < U64 && 0 < delta + added - removed + U64
    requires delta + added - removed < U64
    ensures Wraps(Add64(offset, Sub64(added, removed)), delta + added - removed)
  {
  }

  /** Splicing one more edit into the merged list is patching the parent with one more edit. */
  lemma PatchStep<T>(parent: seq<T>, edits: seq<Edit<T>>, e: Edit<T>)
    requires Ordered(edits, parent) && Ordered(edits + [e], parent)
    ensures End(edits) <= e.at && e.at + e.removed <= |parent|
    ensures var at := |Done(parent, edits)| + e.at - End(edits);
            && at + e.removed <= |Patched(parent, edits)|
            && SpliceList(Patched(parent, edits), at, e.removed, e.content) == Patched(parent, edits + [e])
    ensures |Patched(parent, edits + [e])| == |Patched(parent, edits)| + |e.content| - e.removed
  {
    hide Ordered, SpliceList;
    EndBefore(parent, edits + [e]);
    assert (edits + [e])[..|edits|] == edits;
    Spliced(parent, Done(parent, edits), End(edits), e);
  }

  lemma Spliced<T>(parent: seq<T>, done: seq<T>, end: nat, e: Edit<T>)
    requires end <= e.at && e.at + e.removed <= |parent|
    ensures var at := |done| + e.at - end; var p := done + parent[end..];
            && at + e.removed <= |p|
            && SpliceList(p, at, e.removed, e.content) ==
              done + parent[end..e.at] + e.content + parent[e.at + e.removed..]
  {
    var at, p := |done| + e.at - end, done + parent[end..];
    assert p[..at] == done + parent[end..e.at];
    assert p[at + e.removed..] == parent[e.at + e.removed..];
  }

  function Added(ss: seq<Splice>): nat
  {
    if ss == [] then 0 else Added(ss[..|ss| - 1]) + ss[|ss| - 1].added
  }

  lemma {:induction false} AddedPrefix(ss: seq<Splice>, i: nat)
    requires i <= |ss|
    ensures Added(ss[..i]) <= Added(ss)
    ensures i < |ss| ==> Added(ss[..i + 1]) == Added(ss[..i]) + ss[i].added <= Added(ss)
    decreases |ss|
  {
    if i < |ss| {
      AddedPrefix(ss[..|ss| - 1], i);
      assert ss[..|ss| - 1][..i] == ss[..i];
      assert ss[..i + 1][..i] == ss[..i];
      if i + 1 < |ss| {
        AddedPrefix(ss[..|ss| - 1], i + 1);
        assert ss[..|ss| - 1][..i + 1] == ss[..i + 1];
      } else {
        assert ss[..i + 1] == ss;
      }
    } else {
      assert ss[..i] == ss;
    }
  }

  /** All edits made so far end before splice i, and i's predecessors are among them. */
  ghost predicate Reached<T>(edits: seq<Edit<T>>, ss: seq<Splice>, candidate: seq<T>, parent: seq<T>, i: nat)
    requires Splices(ss, candidate, parent)
  {
    && i <= |ss|
    && (i < |ss| ==> forall e :: e in edits ==> e.at < ss[i].at && e.at + e.removed <= ss[i].at)
    && (forall k :: 0 <= k < i ==> EditOf(ss[k], candidate) in edits)
  }

  /** Splices before i of one side and before j of the other clash with nothing. */
  ghost predicate ClashFree<T>(aSplices: seq<Splice>, a: seq<T>, i: nat, bSplices: seq<Splice>, b: seq<T>, j: nat,
      parent: seq<T>)
    requires Splices(aSplices, a, parent) && Splices(bSplices, b, parent)
  {
    forall x, y :: 0 <= x < |aSplices| && 0 <= y < |bSplices| && (x < i || y < j) ==>
      !Clashes(aSplices[x], bSplices[y], a, b)
  }

  lemma ClashFreeSwap<T>(aSplices: seq<Splice>, a: seq<T>, i: nat, bSplices: seq<Splice>, b: seq<T>, j: nat,
      parent: seq<T>)
    requires Splices(aSplices, a, parent) && Splices(bSplices, b, parent)
    requires ClashFree(aSplices, a, i, bSplices, b, j, parent)
    ensures ClashFree(bSplices, b, j, aSplices, a, i, parent)
  {
    hide Splices, EditOf;
  }

  /** The next splice of one side lies before that of the other. */
  lemma OneSide<T>(edits: seq<Edit<T>>, aSplices: seq<Splice>, a: seq<T>, i: nat, bSplices: seq<Splice>, b: seq<T>,
      j: nat, parent: seq<T>)
    requires Splices(aSplices, a, parent) && Splices(bSplices, b, parent) && Ordered(edits, parent)
    requires Reached(edits, aSplices, a, parent, i) && Reached(edits, bSplices, b, parent, j)
    requires ClashFree(aSplices, a, i, bSplices, b, j, parent) && i < |aSplices|
    requires j < |bSplices| ==>
               aSplices[i].at < bSplices[j].at && aSplices[i].at + aSplices[i].removed <= bSplices[j].at
    ensures var edits' := edits + [EditOf(aSplices[i], a)];
            && Ordered(edits', parent)
            && Reached(edits', aSplices, a, parent, i + 1) && Reached(edits', bSplices, b, parent, j)
            && ClashFree(aSplices, a, i + 1, bSplices, b, j, parent)
  {
    hide EditOf, Ordered;
    var s := aSplices[i];
    EditPlace(s, a);
    OrderedPush(edits, EditOf(s, a), parent);
    forall y | j <= y < |bSplices| ensures !Overlaps(s, bSplices[y]) {}
  }

  lemma OrderedPush<T>(edits: seq<Edit<T>>, e: Edit<T>, parent: seq<T>)
    requires Ordered(edits, parent) && e.at + e.removed <= |parent|
    requires forall x :: x in edits ==> x.at < e.at && x.at + x.removed <= e.at
    ensures Ordered(edits + [e], parent)
  {
    forall k | 0 <= k < |edits| ensures edits[k].at < e.at && edits[k].at + edits[k].removed <= e.at {
      assert edits[k] in edits;
    }
  }

  lemma EditPlace<T>(s: Splice, candidate: seq<T>)
    requires s.from + s.added <= |candidate|
    ensures var e := EditOf(s, candidate); e.at == s.at && e.removed == s.removed && |e.content| == s.added
  {
  }

  /** The next splices of both sides are identical. */
  lemma BothSides<T>(edits: seq<Edit<T>>, aSplices: seq<Splice>, a: seq<T>, i: nat, bSplices: seq<Splice>, b: seq<T>,
      j: nat, parent: seq<T>)
    requires Splices(aSplices, a, parent) && Splices(bSplices, b, parent) && Ordered(edits, parent)
    requires Reached(edits, aSplices, a, parent, i) && Reached(edits, bSplices, b, parent, j)
    requires ClashFree(aSplices, a, i, bSplices, b, j, parent) && i < |aSplices| && j < |bSplices|
    requires Identical(aSplices[i], bSplices[j], a, b)
    ensures var edits' := edits + [EditOf(aSplices[i], a)];
            && Ordered(edits', parent)
            && Reached(edits', aSplices, a, parent, i + 1) && Reached(edits', bSplices, b, parent, j + 1)
            && ClashFree(aSplices, a, i + 1, bSplices, b, j + 1, parent)
  {
    hide EditOf, Ordered;
    var s := aSplices[i];
    EditPlace(s, a);
    OrderedPush(edits, EditOf(s, a), parent);
    forall y | j < y < |bSplices| ensures !Overlaps(s, bSplices[y]) {}
    forall x | i < x < |aSplices| ensures !Overlaps(aSplices[x], bSplices[j]) {}
  }

  /** Every edit made so far is one of the candidates'. */
  ghost predicate Sourced<T>(edits: seq<Edit<T>>, aSplices: seq<Splice>, a: seq<T>, bSplices: seq<Splice>, b: seq<T>,
      parent: seq<T>)
    requires Splices(aSplices, a, parent) && Splices(bSplices, b, parent)
  {
    forall e :: e in edits ==> From(e, aSplices, a, parent) || From(e, bSplices, b, parent)
  }

  lemma SourcedStep<T>(edits: seq<Edit<T>>, aSplices: seq<Splice>, a: seq<T>, bSplices: seq<Splice>, b: seq<T>,
      parent: seq<T>, e: Edit<T>)
    requires Splices(aSplices, a, parent) && Splices(bSplices, b, parent)
    requires Sourced(edits, aSplices, a, bSplices, b, parent)
    requires From(e, aSplices, a, parent) || From(e, bSplices, b, parent)
    ensures Sourced(edits + [e], aSplices, a, bSplices, b, parent)
  {
    hide From;
  }

  /** A merged list that has all edits so far, with the offset of positions in it. */
  ghost predicate Moved<T>(parent: seq<T>, edits: seq<Edit<T>>, merged: seq<T>, offset: nat)
  {
    Ordered(edits, parent) && merged == Patched(parent, edits) && Wraps(offset, |merged| - |parent|)
  }

  /** Insert the elements of a splice at its moved position. */
  method Apply<T>(source: seq<T>, target: seq<T>, offset: nat, s: Splice, ghost parent: seq<T>,
    ghost edits: seq<Edit<T>>)
    returns (r: seq<T>, offset': nat)
    requires s.from + s.added <= |source| && Moved(parent, edits, target, offset)
    requires Ordered(edits + [EditOf(s, source)], parent)
    requires |parent| < U64 && |target| + s.added < U64
    ensures Moved(parent, edits + [EditOf(s, source)], r, offset') && |r| <= |target| + s.added
  {
    hide Done, Patched, Ordered;
    ghost var e := EditOf(s, source);
    PatchStep(parent, edits, e);
    PositionExact(parent, edits, offset, s.at);
    OffsetStep(offset, |target| - |parent|, s.added, s.removed);
    r := SpliceList(target, Add64(s.at, offset), s.removed, source[s.from..s.from + s.added]);
    offset' := Add64(offset, Sub64(s.added, s.removed));
  }

  /**
   * Lists merge unless two splices that are not identical overlap; then all splices are applied to the parent at once.
   */
  method ThreeWayListMerge<T(==)>(a: seq<T>, aSplices: seq<Splice>, b: seq<T>, bSplices: seq<Splice>, parent: seq<T>)
    returns (r: Result<T>)
    requires Splices(aSplices, a, parent) && Splices(bSplices, b, parent)
    requires |parent| + Added(aSplices) + Added(bSplices) < UNASSIGNED
    ensures r.Merged? ==>
              exists edits :: Together(edits, aSplices, a, bSplices, b, parent) && r.list == Patched(parent, edits)
    ensures r == Conflict <==>
              exists x, y :: 0 <= x < |aSplices| && 0 <= y < |bSplices| && Clashes(aSplices[x], bSplices[y], a, b)
  {
    hide Ordered, Reached, ClashFree, Sourced, Moved, EditOf, Added;
    var merged, offset, i, j := parent, 0, 0, 0;
    ghost var edits: seq<Edit<T>> := [];
    Begins(aSplices, a, bSplices, b, parent);
    while i < |aSplices| || j < |bSplices|
      invariant 0 <= i <= |aSplices| && 0 <= j <= |bSplices|
      invariant Ordered(edits, parent) && Moved(parent, edits, merged, offset)
      invariant Reached(edits, aSplices, a, parent, i) && Reached(edits, bSplices, b, parent, j)
      invariant ClashFree(aSplices, a, i, bSplices, b, j, parent)
      invariant Sourced(edits, aSplices, a, bSplices, b, parent)
      invariant |merged| <= |parent| + Added(aSplices[..i]) + Added(bSplices[..j])
      decreases |aSplices| - i + |bSplices| - j
    {
      var aSplice := if i < |aSplices| then aSplices[i] else INVALID;
      var bSplice := if j < |bSplices| then bSplices[j] else INVALID;
      AddedPrefix(aSplices, i);
      AddedPrefix(bSplices, j);
      ghost var e;
      if Overlap64(aSplice, bSplice) {
        OverlapExact(aSplice, bSplice);
        if !Identical(aSplice, bSplice, a, b) {
          assert Clashes(aSplices[i], bSplices[j], a, b);
          return Conflict;
        }
        e := EditOf(aSplice, a);
        BothSides(edits, aSplices, a, i, bSplices, b, j, parent);
        merged, offset := Apply(a, merged, offset, aSplice, parent, edits);
        i, j := i + 1, j + 1;
      } else if aSplice.at < bSplice.at {
        e := EditOf(aSplice, a);
        OneSide(edits, aSplices, a, i, bSplices, b, j, parent);
        merged, offset := Apply(a, merged, offset, aSplice, parent, edits);
        i := i + 1;
      } else {
        e := EditOf(bSplice, b);
        ClashFreeSwap(aSplices, a, i, bSplices, b, j, parent);
        OneSide(edits, bSplices, b, j, aSplices, a, i, parent);
        ClashFreeSwap(bSplices, b, j + 1, aSplices, a, i, parent);
        merged, offset := Apply(b, merged, offset, bSplice, parent, edits);
        j := j + 1;
      }
      SourcedStep(edits, aSplices, a, bSplices, b, parent, e);
      edits := edits + [e];
    }
    Ends(edits, aSplices, a, bSplices, b, parent, merged, offset);
    return Merged(merged);
  }

  lemma Begins<T>(aSplices: seq<Splice>, a: seq<T>, bSplices: seq<Splice>, b: seq<T>, parent: seq<T>)
    requires Splices(aSplices, a, parent) && Splices(bSplices, b, parent)
    ensures Ordered([], parent) && Moved(parent, [], parent, 0)
    ensures Reached([], aSplices, a, parent, 0) && Reached([], bSplices, b, parent, 0)
    ensures ClashFree(aSplices, a, 0, bSplices, b, 0, parent) && Sourced([], aSplices, a, bSplices, b, parent)
  {
  }

  lemma Ends<T>(edits: seq<Edit<T>>, aSplices: seq<Splice>, a: seq<T>, bSplices: seq<Splice>, b: seq<T>, parent: seq<T>,
                merged: seq<T>, offset: nat)
    requires Splices(aSplices, a, parent) && Splices(bSplices, b, parent) && Moved(parent, edits, merged, offset)
    requires Reached(edits, aSplices, a, parent, |aSplices|) && Reached(edits, bSplices, b, parent, |bSplices|)
    requires ClashFree(aSplices, a, |aSplices|, bSplices, b, |bSplices|, parent)
    requires Sourced(edits, aSplices, a, bSplices, b, parent)
    ensures Together(edits, aSplices, a, bSplices, b, parent) && merged == Patched(parent, edits)
    ensures forall x, y :: 0 <= x < |aSplices| && 0 <= y < |bSplices| ==> !Clashes(aSplices[x], bSplices[y], a, b)
  {
    hide Splices, EditOf, Clashes, From;
  }

  /** The edits of both sides, and with them the merged list, are determined by the splices. */
  lemma {:induction false} OrderedUnique<T>(edits1: seq<Edit<T>>, edits2: seq<Edit<T>>, parent: seq<T>)
    requires Ordered(edits1, parent) && Ordered(edits2, parent) && forall e :: e in edits1 <==> e in edits2
    ensures edits1 == edits2
    decreases |edits1|
  {
    hide Ordered;
    if edits1 == [] {
      NoMember(edits2);
    } else {
      assert edits1[0] in edits2;
      var n1, n2 := |edits1| - 1, |edits2| - 1;
      LastAfter(edits1, parent);
      LastAfter(edits2, parent);
      assert edits1[n1] in edits2 && edits2[n2] in edits1;
      OrderedUnique(edits1[..n1], edits2[..n2], parent);
      assert edits1 == edits1[..n1] + [edits1[n1]] && edits2 == edits2[..n2] + [edits2[n2]];
    }
  }

  /** The last edit is the one that starts last. */
  lemma LastAfter<T>(edits: seq<Edit<T>>, parent: seq<T>)
    requires Ordered(edits, parent) && edits != []
    ensures var n := |edits| - 1; var last := edits[n];
            && Ordered(edits[..n], parent)
            && (forall e :: e in edits ==> e == last || e.at < last.at)
            && (forall e :: e in edits[..n] <==> e in edits && e != last)
  {
    hide Ordered;
    InitMembers(edits);
    InitBefore(edits, parent);
  }

  lemma InitMembers<T>(s: seq<T>)
    requires s != []
    ensures forall e :: e in s <==> e in s[..|s| - 1] || e == s[|s| - 1]
  {
    assert s == s[..|s| - 1] + [s[|s| - 1]];
  }

  lemma InitBefore<T>(edits: seq<Edit<T>>, parent: seq<T>)
    requires Ordered(edits, parent) && edits != []
    ensures Ordered(edits[..|edits| - 1], parent)
    ensures forall e :: e in edits[..|edits| - 1] ==> e.at < edits[|edits| - 1].at
  {
  }

  lemma NoMember<T>(s: seq<T>)
    ensures s == [] || exists x :: x in s
  {
    assert s != [] ==> s[0] in s;
  }

  lemma MergeIsDetermined<T>(edits1: seq<Edit<T>>, edits2: seq<Edit<T>>,
                             aSplices: seq<Splice>, a: seq<T>, bSplices: seq<Splice>, b: seq<T>, parent: seq<T>)
    requires Splices(aSplices, a, parent) && Splices(bSplices, b, parent)
    requires Together(edits1, aSplices, a, bSplices, b, parent) && Together(edits2, aSplices, a, bSplices, b, parent)
    ensures edits1 == edits2
  {
    hide Splices, Ordered, EditOf;
    OrderedUnique(edits1, edits2, parent);
  }

  /** Two splices that do exactly the same are merged exactly if they take their elements from the same index. */
  lemma SameOperation<T>(s1: Splice, s2: Splice, a: seq<T>, b: seq<T>)
    requires s1.from + s1.added <= |a| && s2.from + s2.added <= |b| && EditOf(s1, a) == EditOf(s2, b)
    ensures Clashes(s1, s2, a, b) <==> s1.from != s2.from
  {
    EditPlace(s1, a);
    EditPlace(s2, b);
  }

  /**
   * Both sides append 9 to [1, 2] and one of them also puts 8 in front. The two appends do the same, but the merge is
   * refused because an earlier insertion has moved one of them.
   */
  lemma SameOperationMayConflict()
    ensures var parent, a, b := [1, 2], [8, 1, 2, 9], [1, 2, 9];
            var s, t, u := Splice(0, 0, 1, 0), Splice(2, 0, 1, 3), Splice(2, 0, 1, 2);
            && Splices([s, t], a, parent) && Splices([u], b, parent)
            && EditOf(t, a) == EditOf(u, b) && Clashes(t, u, a, b)
  {
    var a, b := [8, 1, 2, 9], [1, 2, 9];
    assert a[3..4] == [9] == b[2..3];
  }
}
