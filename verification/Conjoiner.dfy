/** Which upstream tables a conjoin takes. */
module Conjoiner {

  import opened Bytes
  import opened OffsetsReader
  import opened Sorting
  import opened TableIndex

  /** An upstream table as the conjoiner sees it: its chunk count, the rank of its hash and the table itself. */
  datatype Candidate<T> = Candidate(count: nat, hash: nat, table: T)

  predicate ByAscendingCount<T>(a: Candidate<T>, b: Candidate<T>)
  {
    if a.count == b.count then a.hash <= b.hash else a.count <= b.count
  }

  function Counts<T>(s: seq<Candidate<T>>): (r: seq<nat>)
    ensures |r| == |s| && forall i :: 0 <= i < |r| ==> r[i] == s[i].count
  {
    seq(|s|, i requires 0 <= i < |s| => s[i].count)
  }

  /** 32-bit addition. */
  function Add32(a: nat, b: nat): nat
  {
    if a + b < U32 then a + b else (a + b) % U32
  }

  /** The running total of the first k counts in 32-bit arithmetic. */
  function Total32(counts: seq<nat>, k: nat): nat
    requires k <= |counts|
  {
    if k == 0 then 0 else Add32(Total32(counts, k - 1), counts[k - 1])
  }

  /** The conjoinment of the first k tables would be no larger than the next table, or no table is left. */
  ghost predicate Stops(counts: seq<nat>, k: nat)
    requires k <= |counts|
  {
    k == |counts| || Sum(counts[..k]) <= counts[k]
  }

  /** The same test with 32-bit totals, as the code makes it. */
  ghost predicate Stops32(counts: seq<nat>, k: nat)
    requires k <= |counts|
  {
    k == |counts| || Total32(counts, k) <= counts[k]
  }

  /** The documented choice: the shortest prefix, of at least two, whose total is no more than the next table. */
  ghost predicate Shortest(counts: seq<nat>, p: nat)
  {
    2 <= p <= |counts| && Stops(counts, p) && forall k :: 2 <= k < p ==> !Stops(counts, k)
  }

  ghost predicate Shortest32(counts: seq<nat>, p: nat)
  {
    2 <= p <= |counts| && Stops32(counts, p) && forall k :: 2 <= k < p ==> !Stops32(counts, k)
  }

  method ChooseConjoinees<T>(upstream: seq<Candidate<T>>)
    returns (toConjoin: seq<Candidate<T>>, toKeep: seq<Candidate<T>>)
    requires |upstream| >= 2 && forall s :: s in upstream ==> s.count < U32
    ensures multiset(toConjoin) + multiset(toKeep) == multiset(upstream)
    ensures var all := toConjoin + toKeep; forall i, j :: 0 <= i < j < |all| ==> Before(all[i], all[j])
    ensures forall s, t :: s in toConjoin && t in toKeep ==> s.count <= t.count
    ensures Shortest32(Counts(toConjoin + toKeep), |toConjoin|)
    ensures Shortest(Counts(toConjoin + toKeep), |toConjoin|) <==> WrapsAbove(Counts(toConjoin + toKeep))
  {
    hide *;
    CountOrder(upstream);
    var sorted := Sort(upstream, ByAscendingCount);
    SameMembers(sorted, upstream);
    var partition := Partition(Counts(sorted));
    toConjoin, toKeep := sorted[..partition], sorted[partition..];
    assert toConjoin + toKeep == sorted;
    SortedByCount(sorted, partition);
    ShortestPrefix(Counts(sorted), partition);
  }

  /** Fewer chunks first, and of tables with as many chunks the one with the lesser hash. */
  predicate Before<T>(a: Candidate<T>, b: Candidate<T>)
  {
    a.count < b.count || (a.count == b.count && a.hash <= b.hash)
  }

  lemma SortedByCount<T>(s: seq<Candidate<T>>, k: nat)
    requires Sorted(s, ByAscendingCount) && k <= |s|
    ensures forall i, j :: 0 <= i < j < |s| ==> Before(s[i], s[j])
    ensures forall a, b :: a in s[..k] && b in s[k..] ==> a.count <= b.count
  {
    forall a, b | a in s[..k] && b in s[k..] ensures a.count <= b.count {
      var i :| 0 <= i < k && s[..k][i] == a;
      var j :| 0 <= j < |s| - k && s[k..][j] == b;
      assert Before(s[i], s[k + j]);
    }
  }

  lemma CountOrder<T>(s: seq<Candidate<T>>)
    ensures TotalPreorder(s, ByAscendingCount)
  {
  }

  /** Grow the prefix while the conjoinment would be larger than the next table. */
  method Partition(counts: seq<nat>) returns (partition: nat)
    requires |counts| >= 2 && counts[0] < U32
    ensures 2 <= partition <= |counts| && Shortest32(counts, partition)
  {
    partition := 2;
    var sum := Add32(counts[0], counts[1]);
    assert sum == Total32(counts, 2) by { FirstTwo(counts); }
    while partition < |counts| && sum > counts[partition]
      invariant 2 <= partition <= |counts|
      invariant sum == Total32(counts, partition)
      invariant forall k :: 2 <= k < partition ==> !Stops32(counts, k)
    {
      hide Add32;
      assert !Stops32(counts, partition);
      sum := Add32(sum, counts[partition]);
      partition := partition + 1;
    }
  }

  lemma FirstTwo(counts: seq<nat>)
    requires |counts| >= 2 && counts[0] < U32
    ensures Total32(counts, 2) == Add32(counts[0], counts[1])
  {
    assert Total32(counts, 1) == Add32(0, counts[0]);
  }

  lemma {:induction false} TotalWraps(counts: seq<nat>, k: nat)
    requires k <= |counts|
    ensures Total32(counts, k) == Sum(counts[..k]) % U32
  {
    if k > 0 {
      TotalWraps(counts, k - 1);
      SumStep(counts, k - 1);
      AddMod(Sum(counts[..k - 1]), counts[k - 1]);
    }
  }

  lemma AddMod(a: nat, b: nat)
    ensures Add32(a % U32, b) == (a + b) % U32
  {
    assert a == U32 * (a / U32) + a % U32;
  }

  /**
   * No total of a prefix that the documented choice would have to extend wraps around to one that is no more than the
   * next table.
   */
  ghost predicate WrapsAbove(counts: seq<nat>)
  {
    forall k ::
      && 2 <= k < |counts|
      && Sum(counts[..k]) >= U32
      && (forall j :: 2 <= j < k ==> !Stops(counts, j))
      ==> Sum(counts[..k]) % U32 > counts[k]
  }

  /** The tables chosen are the documented choice exactly when no total on the way to it wraps around too low. */
  lemma ShortestPrefix(counts: seq<nat>, p: nat)
    requires (forall i :: 0 <= i < |counts| ==> counts[i] < U32) && Shortest32(counts, p)
    ensures Shortest(counts, p) <==> WrapsAbove(counts)
  {
    hide Sum, Total32;
    forall k | 0 <= k <= |counts| ensures Total32(counts, k) == Sum(counts[..k]) % U32 {
      TotalWraps(counts, k);
    }
    forall k | 2 <= k < p ensures !Stops(counts, k) {
      assert !Stops32(counts, k);
    }
    if Shortest(counts, p) {
      forall k | 2 <= k < |counts| && Sum(counts[..k]) >= U32 && (forall j :: 2 <= j < k ==> !Stops(counts, j))
        ensures Sum(counts[..k]) % U32 > counts[k]
      {
        assert k < p ==> !Stops32(counts, k);
        assert Stops(counts, p);
      }
    }
  }

  /** In particular it is when the tables together have fewer than 2^32 chunks. */
  lemma FewChunks(counts: seq<nat>)
    requires Sum(counts) < U32
    ensures WrapsAbove(counts)
  {
    hide Sum;
    forall k | 2 <= k < |counts| ensures Sum(counts[..k]) <= Sum(counts) {
      SumPrefix(counts, k, |counts|);
      assert counts[..|counts|] == counts;
    }
  }

  lemma {:induction false} SumSame(c: nat, n: nat, k: nat)
    requires k <= n
    ensures Sum(seq(n, i => c)[..k]) == k * c
  {
    if k > 0 {
      SumSame(c, n, k - 1);
      SumStep(seq(n, i => c), k - 1);
    }
  }

  /**
   * Eighteen tables of as many chunks as an index may have: the total of the first seventeen wraps around to fewer
   * chunks than the last one has, so the scan stops one table early.
   */
  lemma TotalMayWrap()
    ensures var counts := seq(18, i => MAX_CHUNKS - 1);
            Shortest32(counts, 17) && Shortest(counts, 18) && !Shortest(counts, 17)
  {
    hide Sum, Total32;
    var c := MAX_CHUNKS - 1;
    var counts := seq(18, i => c);
    forall k | 0 <= k <= 18 ensures Sum(counts[..k]) == k * c && Total32(counts, k) == k * c % U32 {
      SumSame(c, 18, k);
      TotalWraps(counts, k);
    }
  }
}
