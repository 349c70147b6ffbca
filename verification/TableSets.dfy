/** Manifests, the tables they name and the chunks those tables hold. */
module TableSets {

  import opened Bytes
  import opened Options

  type Data = seq<byte>
  type Root = nat

  /** The content address of a chunk. Hashes are taken to be injective. */
  datatype Addr = AddrOf(data: Data)

  /** The name of a table: the hash of the addresses it holds, in their order. */
  datatype Name = NameOf(addrs: seq<Addr>)

  /** The hash of a root and of the table names, or the zero value of a manifest that does not exist yet. */
  datatype Lock = NoLock | LockOf(root: Root, names: seq<Name>)

  datatype Contents = Contents(lock: Lock, root: Root, names: seq<Name>)

  const NO_MANIFEST := Contents(NoLock, 0, [])

  /** The durable table files, by name. */
  type Files = map<Name, map<Addr, Data>>

  function MakeContents(root: Root, names: seq<Name>): Contents
  {
    Contents(LockOf(root, names), root, names)
  }

  // ----- Chunks behind table names -----

  function Held(n: Name): set<Addr>
  {
    set a | a in n.addrs
  }

  /** All chunks in the named tables. */
  function Reach(names: seq<Name>): set<Addr>
  {
    if names == [] then {} else Reach(names[..|names| - 1]) + Held(names[|names| - 1])
  }

  lemma {:induction false} ReachElem(names: seq<Name>, a: Addr)
    ensures a in Reach(names) <==> exists n :: n in names && a in Held(n)
  {
    if names != [] {
      var k := |names| - 1;
      ReachElem(names[..k], a);
      assert names == names[..k] + [names[k]];
    }
  }

  /** Naming at least the same non-empty tables reaches at least the same chunks. */
  lemma ReachSub(some: seq<Name>, all: seq<Name>)
    requires forall n :: n in some && n.addrs != [] ==> n in all
    ensures Reach(some) <= Reach(all)
  {
    forall a | a in Reach(some) ensures a in Reach(all) {
      ReachElem(some, a);
      ReachElem(all, a);
    }
  }

  lemma ReachSame(a: seq<Name>, b: seq<Name>)
    requires forall n: Name :: n.addrs != [] ==> (n in a <==> n in b)
    ensures Reach(a) == Reach(b)
  {
    ReachSub(a, b);
    ReachSub(b, a);
  }

  lemma {:induction false} ReachAppend(a: seq<Name>, b: seq<Name>)
    ensures Reach(a + b) == Reach(a) + Reach(b)
  {
    if b == [] {
      assert a + b == a;
    } else {
      var k := |b| - 1;
      ReachAppend(a, b[..k]);
      assert (a + b)[..|a + b| - 1] == a + b[..k];
    }
  }

  lemma ReachOne(n: Name)
    ensures Reach([n]) == Held(n)
  {
    assert [n][..0] == [];
  }

  /** The addresses of the tables, back to back. */
  function Joined(names: seq<Name>): seq<Addr>
  {
    if names == [] then [] else Joined(names[..|names| - 1]) + names[|names| - 1].addrs
  }

  lemma {:induction false} JoinedHolds(names: seq<Name>)
    ensures Held(NameOf(Joined(names))) == Reach(names)
  {
    if names != [] {
      JoinedHolds(names[..|names| - 1]);
    }
  }

  // ----- Durable files -----

  ghost predicate WellAddressed(t: map<Addr, Data>)
  {
    forall a :: a in t ==> t[a] == a.data
  }

  /** Every file holds the chunks its name stands for, with the bytes their addresses stand for. */
  ghost predicate FilesOk(files: Files)
  {
    forall n :: n in files ==> files[n].Keys == Held(n) && WellAddressed(files[n])
  }

  /** All the tables that hold anything are durable. */
  ghost predicate Known(files: Files, names: seq<Name>)
  {
    forall n :: n in names && n.addrs != [] ==> n in files
  }

  /** The first of the named tables that holds a answers for it. */
  function Find(files: Files, names: seq<Name>, a: Addr): Option<Data>
  {
    if names == [] then None
    else if names[0] in files && a in files[names[0]] then Some(files[names[0]][a])
    else Find(files, names[1..], a)
  }

  lemma {:induction false} FindReads(files: Files, names: seq<Name>, a: Addr)
    requires FilesOk(files) && Known(files, names)
    ensures Find(files, names, a) == if a in Reach(names) then Some(a.data) else None
  {
    if names != [] {
      FindReads(files, names[1..], a);
      assert names == [names[0]] + names[1..];
      ReachAppend([names[0]], names[1..]);
      ReachOne(names[0]);
    }
  }

  /** Whether one of the named tables holds a, asking them in order until one does. */
  predicate AnyHas(files: Files, names: seq<Name>, a: Addr)
  {
    names != [] && ((names[0] in files && a in files[names[0]]) || AnyHas(files, names[1..], a))
  }

  lemma {:induction false} HasFinds(files: Files, names: seq<Name>, a: Addr)
    ensures AnyHas(files, names, a) <==> Find(files, names, a).Some?
  {
    if names != [] {
      HasFinds(files, names[1..], a);
    }
  }

  // ----- Presence of many chunks -----

  /** A request for a chunk and whether it has been found. */
  datatype Request = Request(a: Addr, has: bool)

  function Served(r: Request, found: set<Addr>): Request
  {
    r.(has := r.has || r.a in found)
  }

  /** One table marks the requests it can answer. */
  method TableHasMany(files: Files, n: Name, reqs: array<Request>) returns (remaining: bool)
    requires FilesOk(files) && Known(files, [n])
    modifies reqs
    ensures forall i :: 0 <= i < reqs.Length ==> reqs[i] == Served(old(reqs[i]), Held(n))
    ensures remaining <==> exists i :: 0 <= i < reqs.Length && !reqs[i].has
  {
    assert n in [n];
    remaining := false;
    for i := 0 to reqs.Length
      invariant forall k :: 0 <= k < i ==> reqs[k] == Served(old(reqs[k]), Held(n))
      invariant forall k :: i <= k < reqs.Length ==> reqs[k] == old(reqs[k])
      invariant remaining <==> exists k :: 0 <= k < i && !reqs[k].has
    {
      if !reqs[i].has {
        if n in files && reqs[i].a in files[n] {
          reqs[i] := reqs[i].(has := true);
        } else {
          remaining := true;
        }
      }
    }
  }

  /** The tables are asked in order until no request remains. */
  method TablesHaveMany(files: Files, names: seq<Name>, reqs: array<Request>) returns (remaining: bool)
    requires FilesOk(files) && Known(files, names)
    modifies reqs
    ensures forall i :: 0 <= i < reqs.Length ==> reqs[i] == Served(old(reqs[i]), Reach(names))
    ensures remaining <==> names == [] || exists i :: 0 <= i < reqs.Length && !reqs[i].has
  {
    hide Reach, FilesOk, Held;
    assert names[..0] == [] && Reach([]) == {} by { ReachNone(); }
    for k := 0 to |names|
      invariant forall i :: 0 <= i < reqs.Length ==> reqs[i] == Served(old(reqs[i]), Reach(names[..k]))
      invariant k > 0 ==> exists i :: 0 <= i < reqs.Length && !reqs[i].has
    {
      assert names[..k + 1] == names[..k] + [names[k]];
      ReachAppend(names[..k], [names[k]]);
      ReachOne(names[k]);
      remaining := TableHasMany(files, names[k], reqs);
      if !remaining {
        ReachSub(names[..k + 1], names);
        return;
      }
    }
    assert names[..|names|] == names;
    return true;
  }

  lemma ReachNone()
    ensures Reach([]) == {}
  {
  }

  /** The novel tables are asked first, the upstream tables only for what remains. */
  method TableSetHasMany(files: Files, novel: seq<Name>, upstream: seq<Name>, reqs: array<Request>)
    returns (remaining: bool)
    requires FilesOk(files) && Known(files, novel) && Known(files, upstream)
    modifies reqs
    ensures forall i :: 0 <= i < reqs.Length ==> reqs[i] == Served(old(reqs[i]), Reach(novel) + Reach(upstream))
    ensures remaining <==> (novel == [] && upstream == []) || exists i :: 0 <= i < reqs.Length && !reqs[i].has
  {
    hide Reach, FilesOk;
    remaining := TablesHaveMany(files, novel, reqs);
    if !remaining {
      return;
    }
    assert Reach([]) == {} by { ReachNone(); }
    remaining := TablesHaveMany(files, upstream, reqs);
  }

  // ----- Manifests -----

  function LockReach(l: Lock): set<Addr>
  {
    if l.NoLock? then {} else Reach(l.names)
  }

  function LockRoot(l: Lock): Root
  {
    if l.NoLock? then 0 else l.root
  }

  /** A manifest whose lock is the hash of its root and table names and whose tables are durable. */
  ghost predicate Good(c: Contents, files: Files)
  {
    && Known(files, c.names)
    && (c.lock.NoLock? ==> c == NO_MANIFEST)
    && (c.lock.LockOf? ==> c.lock == LockOf(c.root, c.names))
  }

  /** Manifests with the same lock have the same root and reach the same chunks. */
  lemma LockDetermines(c: Contents, files: Files)
    requires Good(c, files)
    ensures LockReach(c.lock) == Reach(c.names) && LockRoot(c.lock) == c.root
  {
  }

  // ----- Table sets -----

  /** The names without repetitions, first occurrences kept. */
  function Dedup(names: seq<Name>): (r: seq<Name>)
    ensures forall n :: n in r <==> n in names
    ensures |r| <= |names|
  {
    if names == [] then []
    else
      var rest := Dedup(names[..|names| - 1]);
      var n := names[|names| - 1];
      assert names == names[..|names| - 1] + [n];
      if n in rest then rest else rest + [n]
  }

  /** The tables that satisfy keep, in order. */
  function Filter(names: seq<Name>, keep: Name -> bool): (r: seq<Name>)
    ensures forall n :: n in r <==> n in names && keep(n)
    ensures |r| <= |names|
  {
    if names == [] then []
    else
      var rest := Filter(names[..|names| - 1], keep);
      var n := names[|names| - 1];
      assert names == names[..|names| - 1] + [n];
      if keep(n) then rest + [n] else rest
  }

  /** The tables that are not empty. */
  function NonEmpty(names: seq<Name>): seq<Name>
  {
    Filter(names, (n: Name) => n.addrs != [])
  }

  lemma NonEmptyReach(names: seq<Name>)
    ensures Reach(NonEmpty(names)) == Reach(names)
  {
    ReachSame(NonEmpty(names), names);
  }

  lemma DedupReach(names: seq<Name>)
    ensures Reach(Dedup(names)) == Reach(names)
  {
    ReachSame(Dedup(names), names);
  }
}
