/** The diff of two structs. */
module StructDiffs {

  // What the walk over the fields of two structs reports, which is not always their diff, and the diff of any two
  // collections of one kind.

  import opened Options
  import opened Values

  // ----- Changes between structs -----

  /** The keys of a after all keys of b: the fields of a still to come when those of b have ended. */
  ghost function Leftover(a: map<Key, Value>, b: map<Key, Value>): set<Key>
  {
    set k | k in a && forall j :: j in b ==> j < k
  }

  ghost predicate Short(a: map<Key, Value>, b: map<Key, Value>)
  {
    |Leftover(a, b)| <= 1
  }

  /**
   * Whether reading a value fails at the place where the name of a field is. The struct and the other struct of the
   * diff determine the place, together with the number of fields that should have been read.
   */
  type Garbled = (map<Key, Value>, map<Key, Value>, nat) -> bool

  ghost predicate Misreads(a: map<Key, Value>, b: map<Key, Value>, garbled: Garbled)
  {
    exists n :: 1 <= n < |Leftover(a, b)| && garbled(a, b, n)
  }

  /** How often a field of a is reported: the first of the leftover fields in the place of all of them. */
  ghost function Repeats(a: map<Key, Value>, b: map<Key, Value>, k: Key): nat
  {
    if k !in Leftover(a, b) then 1 else if First(Leftover(a, b), k) then |Leftover(a, b)| else 0
  }

  ghost function FieldReports(now: map<Key, Value>, last: map<Key, Value>, k: Key): nat
  {
    if Get(now, k) == Get(last, k) then 0
    else if k in now then Repeats(now, last, k)
    else Repeats(last, now, k)
  }

  ghost function Occurs(changes: seq<Change>, k: Key): nat
  {
    if changes == [] then 0
    else Occurs(changes[..|changes| - 1], k) + if changes[|changes| - 1].key == k then 1 else 0
  }

  ghost predicate Rising(changes: seq<Change>)
  {
    forall i, j :: 0 <= i < j < |changes| ==> changes[i].key <= changes[j].key
  }

  ghost predicate RightKinds(changes: seq<Change>, now: map<Key, Value>, last: map<Key, Value>)
  {
    forall i :: 0 <= i < |changes| ==>
      changes[i].kind == ChangeOf(Get(last, changes[i].key), Get(now, changes[i].key))
  }

  /** What the diff of two structs reports. */
  ghost predicate IsFieldReport(changes: seq<Change>, now: map<Key, Value>, last: map<Key, Value>)
  {
    && Rising(changes)
    && (forall k :: Occurs(changes, k) == FieldReports(now, last, k))
    && RightKinds(changes, now, last)
  }

  lemma OccursAppend(changes: seq<Change>, c: Change, k: Key)
    ensures Occurs(changes + [c], k) == Occurs(changes, k) + if c.key == k then 1 else 0
  {
    assert (changes + [c])[..|changes|] == changes;
  }

  lemma {:induction false} OccursUpTo(changes: seq<Change>, i: nat, k: Key)
    requires i <= |changes|
    ensures Occurs(changes[..i], k) <= Occurs(changes, k)
  {
    var n := |changes| - 1;
    if i == |changes| {
      assert changes[..i] == changes;
    } else {
      OccursUpTo(changes[..n], i, k);
      assert changes[..n][..i] == changes[..i];
    }
  }

  lemma {:induction false} OccursWhere(changes: seq<Change>, k: Key)
    ensures Occurs(changes, k) > 0 <==> Changes(changes, k)
  {
    if changes != [] {
      var n := |changes| - 1;
      OccursWhere(changes[..n], k);
      ChangesAppend(changes[..n], changes[n]);
      assert changes[..n] + [changes[n]] == changes;
    }
  }

  lemma {:induction false} OccursOnce(changes: seq<Change>, k: Key)
    requires InKeyOrder(changes)
    ensures Occurs(changes, k) <= 1
  {
    if changes != [] {
      var n := |changes| - 1;
      OccursOnce(changes[..n], k);
      OccursWhere(changes[..n], k);
    }
  }

  lemma {:induction false} OccursTwice(changes: seq<Change>, i: nat, j: nat)
    requires i < j < |changes| && changes[i].key == changes[j].key
    ensures Occurs(changes, changes[i].key) >= 2
  {
    var n := |changes| - 1;
    if j < n {
      OccursTwice(changes[..n], i, j);
    } else {
      assert changes[..n][i] == changes[i];
      OccursWhere(changes[..n], changes[i].key);
    }
  }

  // ----- When a struct diff is right -----

  lemma OneLeft(s: set<Key>, k: Key)
    requires k in s && |s| <= 1
    ensures s == {k} && First(s, k) && |s| == 1
  {
    assert |s - {k}| == |s| - 1;
    assert s == (s - {k}) + {k};
  }

  lemma TwoLeft(s: set<Key>) returns (j: Key, k: Key)
    requires |s| >= 2
    ensures j in s && k in s && j < k
  {
    j :| j in s;
    assert |s - {j}| == |s| - 1;
    k :| k in s - {j};
    if k < j {
      j, k := k, j;
    }
  }

  /** With at most one leftover field every field that differs is reported once. */
  lemma ShortReports(now: map<Key, Value>, last: map<Key, Value>, k: Key)
    requires Short(now, last) && Short(last, now)
    ensures FieldReports(now, last, k) == if Get(now, k) == Get(last, k) then 0 else 1
  {
    if k in Leftover(now, last) {
      OneLeft(Leftover(now, last), k);
    }
    if k in Leftover(last, now) {
      OneLeft(Leftover(last, now), k);
    }
  }

  /** With more, all but the first are not reported. */
  lemma LongLoses(a: map<Key, Value>, b: map<Key, Value>) returns (k: Key)
    requires !Short(a, b)
    ensures k in a && k !in b && FieldReports(a, b, k) == FieldReports(b, a, k) == 0
  {
    var j;
    j, k := TwoLeft(Leftover(a, b));
  }

  /** The diff of two structs is right exactly if neither has more than one field after all fields of the other. */
  lemma FieldReportExact(changes: seq<Change>, now: map<Key, Value>, last: map<Key, Value>)
    requires IsFieldReport(changes, now, last)
    ensures IsDiff(changes, now, last) <==> Short(now, last) && Short(last, now)
  {
    hide Occurs, FieldReports, Short, ChangeOf;
    if Short(now, last) && Short(last, now) {
      forall k ensures Changes(changes, k) <==> Get(now, k) != Get(last, k) {
        ShortReports(now, last, k);
        OccursWhere(changes, k);
      }
      forall i, j | 0 <= i < j < |changes| ensures changes[i].key < changes[j].key {
        if changes[i].key == changes[j].key {
          OccursTwice(changes, i, j);
          ShortReports(now, last, changes[i].key);
        }
      }
    } else {
      var k;
      if !Short(now, last) {
        k := LongLoses(now, last);
      } else {
        k := LongLoses(last, now);
      }
      OccursWhere(changes, k);
    }
  }

  // ----- The walk over two structs -----

  function Elems(s: seq<Key>): set<Key>
  {
    set k | k in s
  }

  predicate Ascending(s: seq<Key>)
  {
    forall i, j :: 0 <= i < j < |s| ==> s[i] < s[j]
  }

  lemma {:induction false} CountElems(s: seq<Key>)
    requires Ascending(s)
    ensures |Elems(s)| == |s|
  {
    if s != [] {
      var n := |s| - 1;
      CountElems(s[..n]);
      assert Elems(s) == Elems(s[..n]) + {s[n]};
    }
  }

  /** The names of the fields, in the order in which they are stored. */
  method SortedKeys(keys: set<Key>) returns (s: seq<Key>)
    ensures Ascending(s) && Elems(s) == keys
  {
    s := [];
    var rest := keys;
    while rest != {}
      invariant rest <= keys && Ascending(s) && Elems(s) == keys - rest
      invariant forall i, k :: 0 <= i < |s| && k in rest ==> s[i] < k
      decreases |rest|
    {
      var k := Least(rest);
      assert Elems(s + [k]) == Elems(s) + {k};
      s := s + [k];
      rest := rest - {k};
    }
  }

  /** Positions in two ascending lists such that everything before them lies before everything else. */
  ghost predicate Between(f: seq<Key>, i: nat, g: seq<Key>, j: nat)
  {
    && i <= |f| && j <= |g| && Ascending(f) && Ascending(g)
    && (j > 0 ==> |f| > 0 && g[j - 1] <= f[|f| - 1] && (i < |f| ==> g[j - 1] < f[i]))
    && (i > 0 ==> |g| > 0 && f[i - 1] <= g[|g| - 1] && (j < |g| ==> f[i - 1] < g[j]))
  }

  /** Everything before positions i and j is reported. */
  ghost predicate Walked(changes: seq<Change>, now: map<Key, Value>, last: map<Key, Value>,
                         f: seq<Key>, i: nat, g: seq<Key>, j: nat)
  {
    && Between(f, i, g, j) && Elems(f) == now.Keys && Elems(g) == last.Keys
    && DiffSoFar(changes, now, last, Elems(f[i..]) + Elems(g[j..]))
  }

  lemma WalkStart(now: map<Key, Value>, last: map<Key, Value>, f: seq<Key>, g: seq<Key>)
    requires Ascending(f) && Ascending(g) && Elems(f) == now.Keys && Elems(g) == last.Keys
    ensures Walked([], now, last, f, 0, g, 0)
  {
    assert f[0..] == f && g[0..] == g;
    DiffStart(now, last);
  }

  lemma ElemsStep(s: seq<Key>, i: nat)
    requires Ascending(s) && i < |s|
    ensures Elems(s[i..]) - {s[i]} == Elems(s[i + 1..]) && First(Elems(s[i..]), s[i])
  {
    assert s[i..] == [s[i]] + s[i + 1..];
  }

  lemma NotIn(s: seq<Key>, i: nat, k: Key)
    requires Ascending(s) && i <= |s| && (i > 0 ==> s[i - 1] < k) && (i < |s| ==> k < s[i])
    ensures k !in Elems(s) && k !in Elems(s[i..])
  {
  }

  lemma BetweenStep(f: seq<Key>, i: nat, g: seq<Key>, j: nat)
    requires Between(f, i, g, j) && i < |f| && j < |g|
    ensures f[i] < g[j] ==> Between(f, i + 1, g, j)
    ensures g[j] < f[i] ==> Between(f, i, g, j + 1)
    ensures f[i] == g[j] ==> Between(f, i + 1, g, j + 1)
  {
  }

  /** The lesser of the next fields comes next, and is not in the struct that has it not next. */
  lemma NextField(f: seq<Key>, i: nat, g: seq<Key>, j: nat)
    requires Between(f, i, g, j) && i < |f| && j < |g|
    ensures var k := if f[i] < g[j] then f[i] else g[j];
            var i', j' := if f[i] == k then i + 1 else i, if g[j] == k then j + 1 else j;
            && First(Elems(f[i..]) + Elems(g[j..]), k)
            && (Elems(f[i..]) + Elems(g[j..])) - {k} == Elems(f[i'..]) + Elems(g[j'..])
    ensures f[i] in Elems(f) && g[j] in Elems(g)
    ensures f[i] < g[j] ==> f[i] !in Elems(g)
    ensures g[j] < f[i] ==> g[j] !in Elems(f)
  {
    hide Elems;
    ElemsStep(f, i);
    ElemsStep(g, j);
    assert f[i] in Elems(f) && g[j] in Elems(g) by { InElems(f, i); InElems(g, j); }
    if f[i] < g[j] {
      NotIn(g, j, f[i]);
    } else if g[j] < f[i] {
      NotIn(f, i, g[j]);
    }
  }

  lemma InElems(s: seq<Key>, i: nat)
    requires i < |s|
    ensures s[i] in Elems(s)
  {
  }

  /** The next field, of either struct or of both. */
  lemma WalkStep(changes: seq<Change>, now: map<Key, Value>, last: map<Key, Value>,
                 f: seq<Key>, i: nat, g: seq<Key>, j: nat)
    requires Walked(changes, now, last, f, i, g, j) && i < |f| && j < |g|
    ensures var k := if f[i] < g[j] then f[i] else g[j];
            var i', j' := if f[i] == k then i + 1 else i, if g[j] == k then j + 1 else j;
            var c := Change(ChangeOf(Get(last, k), Get(now, k)), k);
            Walked(if Get(now, k) != Get(last, k) then changes + [c] else changes, now, last, f, i', g, j')
    ensures f[i] < g[j] ==> f[i] in now && f[i] !in last
    ensures g[j] < f[i] ==> g[j] in last && g[j] !in now
    ensures f[i] == g[j] ==> f[i] in now && f[i] in last
  {
    hide DiffSoFar, Between, Elems, First, ChangeOf, Get;
    var k := if f[i] < g[j] then f[i] else g[j];
    NextField(f, i, g, j);
    BetweenStep(f, i, g, j);
    DiffStep(changes, now, last, Elems(f[i..]) + Elems(g[j..]), k);
  }

  /** When one struct has ended, what is left of the other are its leftover fields. */
  lemma WalkEnd(changes: seq<Change>, now: map<Key, Value>, last: map<Key, Value>,
                f: seq<Key>, i: nat, g: seq<Key>, j: nat)
    requires Walked(changes, now, last, f, i, g, j) && (i == |f| || j == |g|)
    ensures Leftover(now, last) == Elems(f[i..]) && Leftover(last, now) == Elems(g[j..])
  {
    hide DiffSoFar;
    LeftoverIs(now, last, f, i, g, j);
    LeftoverIs(last, now, g, j, f, i);
  }

  lemma LeftoverIs(a: map<Key, Value>, b: map<Key, Value>, f: seq<Key>, i: nat, g: seq<Key>, j: nat)
    requires i <= |f| && j <= |g| && (i == |f| || j == |g|)
    requires Ascending(f) && Ascending(g) && Elems(f) == a.Keys && Elems(g) == b.Keys
    requires j > 0 ==> |f| > 0 && g[j - 1] <= f[|f| - 1] && (i < |f| ==> g[j - 1] < f[i])
    requires i > 0 ==> |g| > 0 && f[i - 1] <= g[|g| - 1] && (j < |g| ==> f[i - 1] < g[j])
    ensures Leftover(a, b) == Elems(f[i..])
  {
    forall k ensures k in Leftover(a, b) <==> k in f[i..] {
      if k in a {
        assert k in Elems(f);
        var x :| 0 <= x < |f| && f[x] == k;
        if x < i {
          assert g[|g| - 1] in Elems(g);
        } else {
          assert f[i..][x - i] == k;
          forall y | y in b ensures y < k {
            assert y in Elems(g);
            var z :| 0 <= z < |g| && g[z] == y;
          }
        }
      }
      if k in f[i..] {
        assert k in Elems(f);
      }
    }
  }

  function Copies(c: Change, n: nat): (r: seq<Change>)
    ensures |r| == n && forall i :: 0 <= i < n ==> r[i] == c
  {
    seq(n, i => c)
  }

  lemma {:induction false} OccursCopies(changes: seq<Change>, c: Change, n: nat, k: Key)
    ensures Occurs(changes + Copies(c, n), k) == Occurs(changes, k) + if c.key == k then n else 0
  {
    if n == 0 {
      assert changes + Copies(c, 0) == changes;
    } else {
      OccursCopies(changes, c, n - 1, k);
      assert changes + Copies(c, n) == (changes + Copies(c, n - 1)) + [c];
      OccursAppend(changes + Copies(c, n - 1), c, k);
    }
  }

  /**
   * The fields left when the other struct has ended. Once read, the name is never cleared: from the second field on no
   * name is read, the value is read where the name is, and the first name is reported again.
   */
  method Trailing(kind: ChangeType, own: map<Key, Value>, other: map<Key, Value>, fields: seq<Key>, start: nat,
                  pending: Option<Key>, garbled: Garbled)
    returns (r: Option<seq<Change>>)
    requires start <= |fields| && (pending.Some? ==> start < |fields| && pending.value == fields[start])
    ensures r.None? <==> exists n :: 1 <= n < |fields| - start && garbled(own, other, n)
    ensures r.Some? ==>
              r.value == if start < |fields| then Copies(Change(kind, fields[start]), |fields| - start) else []
  {
    var name := pending;
    var changes := [];
    for i := start to |fields|
      invariant i > start ==> name == Some(fields[start])
      invariant i == start ==> name == pending
      invariant |changes| == i - start
      invariant forall j :: 0 <= j < |changes| ==> changes[j] == Change(kind, fields[start])
      invariant forall n :: 1 <= n < i - start ==> !garbled(own, other, n)
    {
      if name.None? {
        name := Some(fields[i]);
      }
      if i > start && garbled(own, other, i - start) {
        return None;
      }
      changes := changes + [Change(kind, name.value)];
    }
    r := Some(changes);
  }

  /** Walk two structs field by field and report what differs; None if reading a value fails. */
  method StructDiff(now: map<Key, Value>, last: map<Key, Value>, garbled: Garbled) returns (r: Option<seq<Change>>)
    ensures r.None? <==> Misreads(now, last, garbled) || Misreads(last, now, garbled)
    ensures r.Some? ==> IsFieldReport(r.value, now, last)
  {
    hide Walked, IsFieldReport, ChangeOf, Leftover;
    var f := SortedKeys(now.Keys);
    var g := SortedKeys(last.Keys);
    WalkStart(now, last, f, g);
    var i, j := 0, 0;
    var name1: Option<Key>, name2: Option<Key> := None, None;
    var changes := [];
    while i < |f| && j < |g|
      invariant i <= |f| && j <= |g| && Walked(changes, now, last, f, i, g, j)
      invariant name1.Some? ==> i < |f| && name1.value == f[i]
      invariant name2.Some? ==> j < |g| && name2.value == g[j]
      decreases |f| - i + |g| - j
    {
      WalkStep(changes, now, last, f, i, g, j);
      if name1.None? {
        name1 := Some(f[i]);
      }
      if name2.None? {
        name2 := Some(g[j]);
      }
      if name1 == name2 {
        if now[name1.value] != last[name2.value] {
          KindIs(now, last, name1.value);
          changes := changes + [Change(Modified, name1.value)];
        }
        i, j, name1, name2 := i + 1, j + 1, None, None;
      } else if name1.value < name2.value {
        KindIs(now, last, name1.value);
        changes := changes + [Change(Added, name1.value)];
        i, name1 := i + 1, None;
      } else {
        KindIs(now, last, name2.value);
        changes := changes + [Change(Removed, name2.value)];
        j, name2 := j + 1, None;
      }
    }
    WalkEnd(changes, now, last, f, i, g, j);
    CountLeft(changes, now, last, f, i, g, j);
    var added := Trailing(Added, now, last, f, i, name1, garbled);
    if added.None? {
      return None;
    }
    var removed := Trailing(Removed, last, now, g, j, name2, garbled);
    if removed.None? {
      return None;
    }
    Reported(changes, now, last, f, i, g, j, added.value, removed.value);
    r := Some(changes + added.value + removed.value);
  }

  lemma KindIs(now: map<Key, Value>, last: map<Key, Value>, k: Key)
    ensures k in now && k in last ==> ChangeOf(Get(last, k), Get(now, k)) == Modified
    ensures k in now && k !in last ==> ChangeOf(Get(last, k), Get(now, k)) == Added
    ensures k !in now && k in last ==> ChangeOf(Get(last, k), Get(now, k)) == Removed
  {
  }

  lemma CountLeft(changes: seq<Change>, now: map<Key, Value>, last: map<Key, Value>,
                  f: seq<Key>, i: nat, g: seq<Key>, j: nat)
    requires Walked(changes, now, last, f, i, g, j) && (i == |f| || j == |g|)
    ensures |Leftover(now, last)| == |f| - i && |Leftover(last, now)| == |g| - j
  {
    hide DiffSoFar;
    WalkEnd(changes, now, last, f, i, g, j);
    CountElems(f[i..]);
    CountElems(g[j..]);
  }

  /** The walk and the repeated leftover field make the report. */
  lemma Reported(changes: seq<Change>, now: map<Key, Value>, last: map<Key, Value>,
                 f: seq<Key>, i: nat, g: seq<Key>, j: nat, added: seq<Change>, removed: seq<Change>)
    requires Walked(changes, now, last, f, i, g, j) && (i == |f| || j == |g|)
    requires added == if i < |f| then Copies(Change(Added, f[i]), |f| - i) else []
    requires removed == if j < |g| then Copies(Change(Removed, g[j]), |g| - j) else []
    ensures IsFieldReport(changes + added + removed, now, last)
  {
    hide *;
    RestLeft(changes, now, last, f, i, g, j);
    if i < |f| {
      assert changes + added + removed == changes + added;
      ReportedLeft(changes, now, last, now, last, f, i, Change(Added, f[i]));
    } else if j < |g| {
      assert changes + added + removed == changes + removed;
      ReportedLeft(changes, now, last, last, now, g, j, Change(Removed, g[j]));
    } else {
      assert changes + added + removed == changes;
      DiffEnd(changes, now, last);
      DiffReports(changes, now, last);
    }
  }

  lemma RestLeft(changes: seq<Change>, now: map<Key, Value>, last: map<Key, Value>,
                 f: seq<Key>, i: nat, g: seq<Key>, j: nat)
    requires Walked(changes, now, last, f, i, g, j) && (i == |f| || j == |g|)
    ensures i <= |f| && j <= |g| && Ascending(f) && Ascending(g)
    ensures DiffSoFar(changes, now, last, if i < |f| then Elems(f[i..]) else if j < |g| then Elems(g[j..]) else {})
    ensures Leftover(now, last) == if i < |f| then Elems(f[i..]) else {}
    ensures Leftover(last, now) == if j < |g| then Elems(g[j..]) else {}
  {
    hide DiffSoFar, Leftover;
    WalkEnd(changes, now, last, f, i, g, j);
    assert i == |f| ==> Elems(f[i..]) == {};
    assert j == |g| ==> Elems(g[j..]) == {};
    assert Elems(f[i..]) + Elems(g[j..]) == if i < |f| then Elems(f[i..]) else if j < |g| then Elems(g[j..]) else {};
  }

  /** With nothing left over the report is the diff. */
  lemma DiffReports(changes: seq<Change>, now: map<Key, Value>, last: map<Key, Value>)
    requires IsDiff(changes, now, last) && Leftover(now, last) == {} == Leftover(last, now)
    ensures IsFieldReport(changes, now, last)
  {
    hide Occurs;
    forall k ensures Occurs(changes, k) == FieldReports(now, last, k) {
      OccursOnce(changes, k);
      OccursWhere(changes, k);
    }
  }

  lemma ReportedLeft(changes: seq<Change>, now: map<Key, Value>, last: map<Key, Value>,
                     a: map<Key, Value>, b: map<Key, Value>, f: seq<Key>, i: nat, c: Change)
    requires (a == now && b == last && c.kind == Added) || (a == last && b == now && c.kind == Removed)
    requires i < |f| && Ascending(f) && c.key == f[i] && DiffSoFar(changes, now, last, Elems(f[i..]))
    requires Leftover(a, b) == Elems(f[i..]) && Leftover(b, a) == {}
    ensures IsFieldReport(changes + Copies(c, |f| - i), now, last)
  {
    hide Occurs;
    var n := |f| - i;
    var r := changes + Copies(c, n);
    ElemsStep(f, i);
    CountElems(f[i..]);
    assert f[i] in Leftover(a, b);
    assert f[i] in a && f[i] !in b;
    forall k ensures Occurs(r, k) == FieldReports(now, last, k) {
      OccursCopies(changes, c, n, k);
      OccursOnce(changes, k);
      OccursWhere(changes, k);
    }
    forall x | 0 <= x < |r| ensures r[x].kind == ChangeOf(Get(last, r[x].key), Get(now, r[x].key)) {
      if x >= |changes| {
        assert r[x] == c;
      }
    }
  }

  /** A struct without fields and one with two: the second field is not reported, or the diff fails. */
  lemma SecondFieldLost(changes: seq<Change>, x: Value, y: Value)
    requires IsFieldReport(changes, map[0 := x, 1 := y], map[])
    ensures changes == [Change(Added, 0), Change(Added, 0)]
  {
    var now: map<Key, Value>, last: map<Key, Value> := map[0 := x, 1 := y], map[];
    assert Leftover(now, last) == {0, 1} && Leftover(last, now) == {};
    forall i | 0 <= i < |changes| ensures changes[i] == Change(Added, 0) {
      assert Changes(changes, changes[i].key);
      OccursWhere(changes, changes[i].key);
    }
    OccursAll(changes, 0);
  }

  lemma {:induction false} OccursAll(changes: seq<Change>, k: Key)
    requires forall i :: 0 <= i < |changes| ==> changes[i].key == k
    ensures Occurs(changes, k) == |changes|
  {
    if changes != [] {
      OccursAll(changes[..|changes| - 1], k);
    }
  }

  // ----- Changes between collections -----

  /** How often the diff of two collections reports a key. */
  ghost function Reports(now: Value, last: Value, k: Key): nat
  {
    if now.StructV? then FieldReports(Children(now), Children(last), k)
    else if Get(Children(now), k) == Get(Children(last), k) then 0
    else 1
  }

  ghost predicate ShortTails(now: Value, last: Value)
  {
    now.StructV? ==> Short(Children(now), Children(last)) && Short(Children(last), Children(now))
  }

  ghost predicate Unreadable(now: Value, last: Value, garbled: Garbled)
  {
    && now.StructV?
    && (Misreads(Children(now), Children(last), garbled) || Misreads(Children(last), Children(now), garbled))
  }

  ghost predicate IsReport(changes: seq<Change>, now: Value, last: Value)
  {
    && Rising(changes)
    && (forall k :: Occurs(changes, k) == Reports(now, last, k))
    && RightKinds(changes, Children(now), Children(last))
  }

  /** The diff of two collections of one kind; None if it fails. */
  method Report(now: Value, last: Value, garbled: Garbled) returns (r: Option<seq<Change>>)
    ensures r.None? <==> Unreadable(now, last, garbled)
    ensures r.Some? ==> IsReport(r.value, now, last)
  {
    hide IsFieldReport, Misreads, FieldReports;
    if now.StructV? {
      r := StructDiff(Children(now), Children(last), garbled);
      if r.Some? {
        ReportOfFields(r.value, now, last);
      }
    } else {
      var changes := Diff(Children(now), Children(last));
      ReportOfDiff(changes, now, last);
      r := Some(changes);
    }
  }

  lemma ReportOfFields(changes: seq<Change>, now: Value, last: Value)
    requires now.StructV? && IsFieldReport(changes, Children(now), Children(last))
    ensures IsReport(changes, now, last)
  {
    hide Occurs, FieldReports, Children;
  }

  lemma ReportOfDiff(changes: seq<Change>, now: Value, last: Value)
    requires !now.StructV? && IsDiff(changes, Children(now), Children(last))
    ensures IsReport(changes, now, last)
  {
    hide Occurs, Children;
    forall k ensures Occurs(changes, k) == Reports(now, last, k) {
      OccursOnce(changes, k);
      OccursWhere(changes, k);
    }
  }

  /** A key is reported once if it differs, when tails are short. */
  lemma ShortTailsReport(now: Value, last: Value, k: Key)
    requires ShortTails(now, last)
    ensures Reports(now, last, k) == if Get(Children(now), k) == Get(Children(last), k) then 0 else 1
  {
    hide FieldReports;
    if now.StructV? {
      ShortReports(Children(now), Children(last), k);
    }
  }

  lemma ShortTailsRead(now: Value, last: Value, garbled: Garbled)
    requires ShortTails(now, last)
    ensures !Unreadable(now, last, garbled)
  {
  }

  lemma LongTailsLose(now: Value, last: Value) returns (k: Key)
    requires !ShortTails(now, last)
    ensures Reports(now, last, k) == 0 && Get(Children(now), k) != Get(Children(last), k)
  {
    hide FieldReports;
    if !Short(Children(now), Children(last)) {
      k := LongLoses(Children(now), Children(last));
    } else {
      k := LongLoses(Children(last), Children(now));
    }
  }
}
