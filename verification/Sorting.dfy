/** What the code relies on from a library sort: a permutation in order, nothing about ties. */
module Sorting {

  /** le orders the members of s. */
  ghost predicate TotalPreorder<T>(s: seq<T>, le: (T, T) -> bool)
  {
    && (forall a, b :: a in s && b in s ==> le(a, b) || le(b, a))
    && (forall a, b, c :: a in s && b in s && c in s && le(a, b) && le(b, c) ==> le(a, c))
  }

  ghost predicate Sorted<T>(s: seq<T>, le: (T, T) -> bool)
  {
    forall i, j :: 0 <= i < j < |s| ==> le(s[i], s[j])
  }

  method Sort<T>(s: seq<T>, le: (T, T) -> bool) returns (r: seq<T>)
    requires TotalPreorder(s, le)
    ensures Sorted(r, le)
    ensures multiset(r) == multiset(s)
  {
    r := [];
    for i := 0 to |s|
      invariant Sorted(r, le)
      invariant multiset(r) == multiset(s[..i])
    {
      assert s[..i + 1] == s[..i] + [s[i]];
      SameMembers(r, s[..i]);
      r := Insert(r, s[i], le, s);
    }
    assert s[..|s|] == s;
  }

  method Insert<T>(s: seq<T>, x: T, le: (T, T) -> bool, ghost all: seq<T>) returns (r: seq<T>)
    requires TotalPreorder(all, le) && Sorted(s, le) && x in all && forall y :: y in s ==> y in all
    ensures Sorted(r, le)
    ensures multiset(r) == multiset(s) + multiset{x}
  {
    hide TotalPreorder;
    var k := 0;
    while k < |s| && le(s[k], x)
      invariant 0 <= k <= |s|
      invariant forall i :: 0 <= i < k ==> le(s[i], x)
    {
      k := k + 1;
    }
    assert s == s[..k] + s[k..];
    r := s[..k] + [x] + s[k..];
    InsertSorted(s, x, k, le, all);
  }

  lemma InsertSorted<T>(s: seq<T>, x: T, k: nat, le: (T, T) -> bool, all: seq<T>)
    requires TotalPreorder(all, le) && Sorted(s, le) && k <= |s| && x in all && forall y :: y in s ==> y in all
    requires forall i :: 0 <= i < k ==> le(s[i], x)
    requires k < |s| ==> !le(s[k], x)
    ensures Sorted(s[..k] + [x] + s[k..], le)
  {
    var r := s[..k] + [x] + s[k..];
    forall i, j | 0 <= i < j < |r| ensures le(r[i], r[j]) {
      if i == k {
        assert s[k] in all && le(x, s[k]);
        assert r[j] == s[j - 1] && s[j - 1] in all;
      } else if j == k {
      } else {
        assert r[i] == s[if i < k then i else i - 1] && r[j] == s[if j < k then j else j - 1];
      }
    }
  }

  /** Members of a permutation. */
  lemma SameMembers<T>(a: seq<T>, b: seq<T>)
    requires multiset(a) == multiset(b)
    ensures |a| == |b|
    ensures forall x :: x in a <==> x in b
  {
    assert |multiset(a)| == |a| && |multiset(b)| == |b|;
    forall x ensures x in a <==> x in b {
      assert x in a <==> x in multiset(a);
      assert x in b <==> x in multiset(b);
    }
  }

  lemma Without<T>(s: seq<T>, j: nat)
    requires j < |s|
    ensures multiset(s[..j] + s[j + 1..]) == multiset(s) - multiset{s[j]}
    ensures multiset(s) == multiset(s[..j] + s[j + 1..]) + multiset{s[j]}
  {
    assert s == s[..j] + [s[j]] + s[j + 1..];
  }

  function MapSeq<A, B>(f: A -> B, s: seq<A>): (r: seq<B>)
    ensures |r| == |s| && forall i :: 0 <= i < |r| ==> r[i] == f(s[i])
  {
    seq(|s|, i requires 0 <= i < |s| => f(s[i]))
  }

  lemma Position<T>(a: seq<T>, b: seq<T>) returns (j: nat)
    requires multiset(a) == multiset(b) && a != []
    ensures j < |b| && b[j] == a[0]
  {
    SameMembers(a, b);
    assert a[0] in b;
    j :| 0 <= j < |b| && b[j] == a[0];
  }

  lemma MapWithout<A, B>(f: A -> B, s: seq<A>, j: nat)
    requires j < |s|
    ensures multiset(MapSeq(f, s)) == multiset(MapSeq(f, s[..j] + s[j + 1..])) + multiset{f(s[j])}
  {
    Without(MapSeq(f, s), j);
    assert MapSeq(f, s[..j] + s[j + 1..]) == MapSeq(f, s)[..j] + MapSeq(f, s)[j + 1..];
  }

  /** Mapping respects permutation. */
  lemma {:induction false} MapPermuted<A, B>(f: A -> B, a: seq<A>, b: seq<A>)
    requires multiset(a) == multiset(b)
    ensures multiset(MapSeq(f, a)) == multiset(MapSeq(f, b))
    decreases |a|
  {
    hide MapSeq;
    if a == [] {
      SameMembers(a, b);
      assert a == b;
    } else {
      var j := Position(a, b);
      Rests(a, b, j);
      MapPermuted(f, a[1..], b[..j] + b[j + 1..]);
      MapWithout(f, a, 0);
      MapWithout(f, b, j);
      assert a[..0] + a[1..] == a[1..];
    }
  }

  /** Permutations without one common element are permutations. */
  lemma Rests<T>(a: seq<T>, b: seq<T>, j: nat)
    requires multiset(a) == multiset(b) && a != [] && j < |b| && b[j] == a[0]
    ensures multiset(a[1..]) == multiset(b[..j] + b[j + 1..])
  {
    Without(a, 0);
    Without(b, j);
    assert a[..0] + a[1..] == a[1..];
  }

  ghost predicate Distinct<T>(s: seq<T>)
  {
    forall i, j :: 0 <= i < j < |s| ==> s[i] != s[j]
  }

  lemma {:induction false} AtMostOnce<T>(s: seq<T>, x: T)
    requires Distinct(s)
    ensures multiset(s)[x] <= 1
  {
    if s != [] {
      var t := s[..|s| - 1];
      assert s == t + [s[|s| - 1]];
      AtMostOnce(t, x);
      if x == s[|s| - 1] {
        assert x !in t;
        assert multiset(t)[x] == 0;
      }
    }
  }

  lemma Twice<T>(s: seq<T>, i: nat, j: nat)
    requires i < j < |s| && s[i] == s[j]
    ensures multiset(s)[s[i]] >= 2
  {
    assert s == s[..j] + [s[j]] + s[j + 1..];
    assert s[i] in s[..j];
    assert multiset(s[..j])[s[i]] >= 1;
  }

  /** A permutation of distinct elements is distinct. */
  lemma DistinctPermutation<T>(a: seq<T>, b: seq<T>)
    requires multiset(a) == multiset(b) && Distinct(a)
    ensures Distinct(b)
  {
    forall i, j | 0 <= i < j < |b| ensures b[i] != b[j] {
      if b[i] == b[j] {
        Twice(b, i, j);
        AtMostOnce(a, b[i]);
      }
    }
  }

  ghost predicate StrictBy<T>(s: seq<T>, key: T -> nat)
  {
    forall i, j :: 0 <= i < j < |s| ==> key(s[i]) < key(s[j])
  }

  ghost predicate WeakBy<T>(s: seq<T>, key: T -> nat)
  {
    forall i, j :: 0 <= i < j < |s| ==> key(s[i]) <= key(s[j])
  }

  lemma Tails<T>(a: seq<T>, b: seq<T>, key: T -> nat)
    requires multiset(a) == multiset(b) && a != [] && StrictBy(a, key) && WeakBy(b, key)
    ensures |a| == |b| && a[0] == b[0]
    ensures multiset(a[1..]) == multiset(b[1..]) && StrictBy(a[1..], key) && WeakBy(b[1..], key)
  {
    hide StrictBy, WeakBy;
    assert a[0] == b[0] && |a| == |b| by { SameFirst(a, b, key); }
    assert multiset(a[1..]) == multiset(b[1..]) by {
      Rests(a, b, 0);
      assert b[..0] + b[1..] == b[1..];
    }
    assert StrictBy(a[1..], key) && WeakBy(b[1..], key) by { TailOrder(a, b, key); }
  }

  lemma SameFirst<T>(a: seq<T>, b: seq<T>, key: T -> nat)
    requires multiset(a) == multiset(b) && a != [] && StrictBy(a, key) && WeakBy(b, key)
    ensures |a| == |b| && a[0] == b[0]
  {
    SameMembers(a, b);
    var j := Position(a, b);
    var i := Position(b, a);
    assert key(b[0]) <= key(b[j]) == key(a[0]);
    if i > 0 {
      assert false;
    }
  }

  lemma TailOrder<T>(a: seq<T>, b: seq<T>, key: T -> nat)
    requires a != [] && b != [] && StrictBy(a, key) && WeakBy(b, key)
    ensures StrictBy(a[1..], key) && WeakBy(b[1..], key)
  {
  }

  /** There is only one way to put elements with different keys in key order. */
  lemma {:induction false} SameWhenSorted<T>(a: seq<T>, b: seq<T>, key: T -> nat)
    requires multiset(a) == multiset(b) && StrictBy(a, key) && WeakBy(b, key)
    ensures a == b
  {
    hide StrictBy, WeakBy;
    if a == [] {
      SameMembers(a, b);
    } else {
      Tails(a, b, key);
      SameWhenSorted(a[1..], b[1..], key);
      assert a == [a[0]] + a[1..] && b == [b[0]] + b[1..];
    }
  }
}
