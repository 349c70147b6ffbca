/** One store as a class. */
module BlockStore {

  // No other process writes its manifest meanwhile: what its calls do, and that Commit ends.

  import opened Bytes
  import opened Conjoiner
  import opened ManifestProtocol
  import opened Options
  import opened Sorting
  import opened TableSets

  /** The manifest and the process's cached copy of it. */
  class ManifestManager {
    var persisted: Contents
    var cache: Option<Contents>

    ghost predicate Valid(files: Files)
      reads this
    {
      && Good(persisted, files)
      && (cache.Some? ==> Good(cache.value, files) && Reach(cache.value.names) <= Reach(persisted.names))
      && (cache.Some? && persisted.lock == NoLock ==> cache.value.lock == NoLock)
    }

    /** No manifest in sight names an empty table. */
    ghost predicate Full()
      reads this
    {
      NoEmpty(persisted.names) && (cache.Some? ==> NoEmpty(cache.value.names))
    }

    predicate UpdateWillFail(lastLock: Lock)
      reads this
    {
      cache.Some? && cache.value.lock != lastLock
    }

    /** The compare-and-swap of the manifest, answered from the cache when that already rules it out. */
    method Update(lastLock: Lock, next: Contents) returns (r: Option<Contents>)
      modifies this
      ensures old(UpdateWillFail(lastLock)) ==> r == old(cache) && persisted == old(persisted) && cache == old(cache)
      ensures !old(UpdateWillFail(lastLock)) ==>
                (r.None? <==> old(persisted.lock).NoLock? && lastLock != NoLock)
      ensures r.None? ==> persisted == old(persisted) && cache == old(cache)
      ensures !old(UpdateWillFail(lastLock)) && r.Some? ==>
                && cache == r
                && persisted == r.value
                && persisted == if old(persisted.lock) == lastLock then next else old(persisted)
    {
      if UpdateWillFail(lastLock) {
        return cache;
      }
      if persisted.lock == NoLock && lastLock != NoLock {
        return None;
      }
      if lastLock == persisted.lock {
        persisted := next;
      }
      cache := Some(persisted);
      return cache;
    }
  }

  predicate NoEmpty(names: seq<Name>)
  {
    forall n :: n in names ==> n.addrs != []
  }

  /** Durable tables. */
  class TablePersister {
    var files: Files
  }

  function Tables(s: seq<Candidate<Name>>): (r: seq<Name>)
    ensures |r| == |s| && forall i :: 0 <= i < |r| ==> r[i] == s[i].table
  {
    MapSeq((c: Candidate<Name>) => c.table, s)
  }

  /** Choose what to conjoin and write the conjoined table. */
  method ConjoinTables(p: TablePersister, upstream: seq<Name>, rank: Name -> nat) returns (c: Choice)
    requires |upstream| >= 2 && FilesOk(p.files) && Known(p.files, upstream)
    modifies p
    ensures Splits(upstream, c) && |c.conjoinees| + |c.keepers| == |upstream| && |c.conjoinees| >= 2
    ensures p.files == Conjoined(old(p.files), c)
  {
    hide Reach, Find, Sum, Stops32;
    var sources := MapSeq((n: Name) => Candidate(|n.addrs| % U32, rank(n), n), upstream);
    var toConjoin, toKeep := ChooseConjoinees(sources);
    var conjoinees, keepers := Tables(toConjoin), Tables(toKeep);
    c := Choice(NameOf(Joined(conjoinees)), conjoinees, keepers);
    JoinedHolds(conjoinees);
    SplitTables(upstream, sources, toConjoin, toKeep);
    p.files := Conjoined(p.files, c);
  }

  lemma SplitTables(upstream: seq<Name>, sources: seq<Candidate<Name>>, toConjoin: seq<Candidate<Name>>,
      toKeep: seq<Candidate<Name>>)
    requires |sources| == |upstream| && forall i :: 0 <= i < |upstream| ==> sources[i].table == upstream[i]
    requires multiset(toConjoin) + multiset(toKeep) == multiset(sources)
    ensures |toConjoin| + |toKeep| == |upstream|
    ensures forall n :: n in upstream <==> n in Tables(toConjoin) || n in Tables(toKeep)
  {
    assert multiset(toConjoin + toKeep) == multiset(sources);
    MapPermuted((c: Candidate<Name>) => c.table, toConjoin + toKeep, sources);
    assert Tables(sources) == upstream;
    assert Tables(toConjoin + toKeep) == Tables(toConjoin) + Tables(toKeep);
    SameMembers(toConjoin + toKeep, sources);
    SameMembers(Tables(toConjoin) + Tables(toKeep), upstream);
  }

  /** Conjoin retries while all conjoinees are still upstream; without another writer it needs at most one retry. */
  method ConjoinManifest(mm: ManifestManager, p: TablePersister, upstream: Contents, rank: Name -> nat)
    returns (r: Option<Contents>)
    requires FilesOk(p.files) && mm.Valid(p.files) && Good(upstream, p.files) && |upstream.names| >= 2
    requires !mm.UpdateWillFail(upstream.lock)
    modifies mm, p
    ensures FilesOk(p.files) && mm.Valid(p.files) && old(p.files).Keys <= p.files.Keys
    ensures r.Some? ==> mm.persisted == r.value && mm.cache == r
    ensures r.None? ==> mm.persisted == old(mm.persisted) && mm.cache == old(mm.cache)
    ensures r.None? <==> old(mm.persisted.lock) == NoLock && upstream.lock != NoLock
    ensures NoEmpty(upstream.names) && old(mm.Full()) ==> mm.Full()
    ensures mm.persisted.lock == NoLock ==> old(mm.persisted.lock) == NoLock
    ensures mm.persisted.root == old(mm.persisted.root)
    ensures Reach(old(mm.persisted.names)) <= Reach(mm.persisted.names)
    ensures r.Some? && old(mm.persisted.lock) == upstream.lock ==> |r.value.names| < |upstream.names|
  {
    hide Reach, FilesOk, Splits, Conjoined, LockReach, LockRoot, Known;
    var choice := ConjoinTables(p, upstream.names, rank);
    ChoiceFacts(upstream, choice, old(p.files), p.files);
    ManagerGrown(mm, old(p.files), p.files);
    ChoiceFull(upstream.names, choice);
    var conjoined, conjoinees, keepers := choice.conjoined, choice.conjoinees, choice.keepers;
    var up := upstream;
    while true
      invariant FilesOk(p.files) && mm.Valid(p.files) && Good(up, p.files) && old(p.files).Keys <= p.files.Keys
      invariant !mm.UpdateWillFail(up.lock) && mm.persisted == old(mm.persisted)
      invariant mm.cache == old(mm.cache) || up == mm.persisted
      invariant Known(p.files, [conjoined] + keepers)
      invariant Reach(up.names) <= Reach([conjoined] + keepers)
      invariant up == upstream ==> |[conjoined] + keepers| < |upstream.names|
      invariant up == upstream || up == mm.persisted
      invariant Reach(conjoinees) <= Held(conjoined)
      invariant NoEmpty(upstream.names) ==> conjoined.addrs != []
      invariant up == upstream || mm.persisted.lock != NoLock || upstream.lock == NoLock
      invariant NoEmpty(upstream.names) && old(mm.Full()) ==> NoEmpty([conjoined] + keepers) && mm.Full()
      invariant up == mm.persisted || (up == upstream && mm.cache == old(mm.cache))
      decreases if up == mm.persisted then 0 else 1
    {
      var next := MakeContents(up.root, [conjoined] + keepers);
      var before := up;
      LockDetermines(up, p.files);
      LockDetermines(mm.persisted, p.files);
      r := mm.Update(up.lock, next);
      if r.None? {
        return;
      }
      up := r.value;
      if next.lock == up.lock || exists n :: n in conjoinees && n !in up.names {
        return;
      }
      var kept := Filter(up.names, n => n !in conjoinees);
      RetryFacts(up, conjoined, conjoinees, keepers, kept, p.files);
      keepers := kept;
    }
  }

  lemma ChoiceFacts(upstream: Contents, c: Choice, files: Files, files': Files)
    requires FilesOk(files) && Good(upstream, files) && Splits(upstream.names, c) && files' == Conjoined(files, c)
    ensures FilesOk(files') && files.Keys <= files'.Keys && Good(upstream, files')
    ensures Known(files', [c.conjoined] + c.keepers)
    ensures Reach(upstream.names) <= Reach([c.conjoined] + c.keepers) && Reach(c.conjoinees) <= Held(c.conjoined)
  {
    hide Reach;
    var s := Store(0, map[], [], upstream.names, upstream, Idle, {});
    ConjoinKeeps(s, files, c);
    GoodGrown(upstream, files, files');
    KeepersReach(upstream.names, c.conjoined, c.conjoinees, c.keepers);
  }

  /** A table conjoined from tables that are not empty is not empty. */
  lemma ChoiceFull(upstream: seq<Name>, c: Choice)
    requires Splits(upstream, c) && |c.conjoinees| >= 2
    ensures NoEmpty(upstream) ==> NoEmpty([c.conjoined] + c.keepers)
  {
    hide Reach;
    if NoEmpty(upstream) {
      var n := c.conjoinees[0];
      assert n in upstream && n.addrs[0] in Held(n);
      ReachElem(c.conjoinees, n.addrs[0]);
      assert n.addrs[0] in Held(c.conjoined);
    }
  }

  lemma RetryFacts(up: Contents, conjoined: Name, conjoinees: seq<Name>, keepers: seq<Name>, kept: seq<Name>,
      files: Files)
    requires Good(up, files) && Known(files, [conjoined] + keepers) && Reach(conjoinees) <= Held(conjoined)
    requires forall n :: n in kept <==> n in up.names && n !in conjoinees
    ensures Known(files, [conjoined] + kept) && Reach(up.names) <= Reach([conjoined] + kept)
  {
    hide Reach;
    KeepersReach(up.names, conjoined, conjoinees, kept);
    assert conjoined in [conjoined] + keepers;
  }

  lemma ManagerGrown(mm: ManifestManager, files: Files, files': Files)
    requires mm.Valid(files) && files.Keys <= files'.Keys
    ensures mm.Valid(files')
  {
    GoodGrown(mm.persisted, files, files');
    if mm.cache.Some? { GoodGrown(mm.cache.value, files, files'); }
  }

  /** One unanswered request for each address. */
  method ToRequests(hashes: set<Addr>) returns (reqs: array<Request>)
    ensures fresh(reqs)
    ensures forall i :: 0 <= i < reqs.Length ==> !reqs[i].has
    ensures hashes == set i | 0 <= i < reqs.Length :: reqs[i].a
  {
    var rest := hashes;
    var list: seq<Request> := [];
    while rest != {}
      invariant rest <= hashes
      invariant forall i :: 0 <= i < |list| ==> !list[i].has
      invariant hashes - rest == set i | 0 <= i < |list| :: list[i].a
      decreases |rest|
    {
      var a :| a in rest;
      AskedPush(list, a);
      list := list + [Request(a, false)];
      rest := rest - {a};
    }
    reqs := new Request[|list|](i requires 0 <= i < |list| => list[i]);
    assert forall i :: 0 <= i < |list| ==> reqs[i] == list[i];
    assert (set i | 0 <= i < reqs.Length :: reqs[i].a) == set i | 0 <= i < |list| :: list[i].a;
  }

  lemma AskedPush(list: seq<Request>, a: Addr)
    ensures (set i | 0 <= i < |list + [Request(a, false)]| :: (list + [Request(a, false)])[i].a)
         == (set i | 0 <= i < |list| :: list[i].a) + {a}
  {
    var l := list + [Request(a, false)];
    assert l[|list|].a == a;
    assert forall i :: 0 <= i < |list| ==> l[i] == list[i];
  }

  method MemTableHasMany(chunks: set<Addr>, reqs: array<Request>) returns (remaining: bool)
    modifies reqs
    ensures forall i :: 0 <= i < reqs.Length ==> reqs[i] == Served(old(reqs[i]), chunks)
    ensures remaining <==> exists i :: 0 <= i < reqs.Length && !reqs[i].has
  {
    remaining := false;
    for i := 0 to reqs.Length
      invariant forall k :: 0 <= k < i ==> reqs[k] == Served(old(reqs[k]), chunks)
      invariant forall k :: i <= k < reqs.Length ==> reqs[k] == old(reqs[k])
      invariant remaining <==> exists k :: 0 <= k < i && !reqs[k].has
    {
      if !reqs[i].has {
        if reqs[i].a in chunks {
          reqs[i] := reqs[i].(has := true);
        } else {
          remaining := true;
        }
      }
    }
  }

  lemma AbsentAre(reqs: seq<Request>, hashes: set<Addr>, chunks: set<Addr>, absent: set<Addr>)
    requires hashes == set i | 0 <= i < |reqs| :: reqs[i].a
    requires forall i :: 0 <= i < |reqs| ==> (reqs[i].has <==> reqs[i].a in chunks)
    requires absent == set k | 0 <= k < |reqs| && !reqs[k].has :: reqs[k].a
    ensures absent == hashes - chunks
  {
  }

  datatype Outcome = Committed | LastRootMismatch | RootMoved | TablesChanged | Failed

  function DataLens(order: seq<Addr>): (r: seq<nat>)
    ensures |r| == |order| && forall i :: 0 <= i < |r| ==> r[i] == |order[i].data|
  {
    seq(|order|, i requires 0 <= i < |order| => |order[i].data|)
  }

  /** The addresses the memtable holds and the other tables do not, in the order they were added. */
  function NotElsewhere(order: seq<Addr>, held: set<Addr>): (r: seq<Addr>)
    ensures forall a :: a in r <==> a in order && a !in held
  {
    if order == [] then []
    else
      var rest := NotElsewhere(order[..|order| - 1], held);
      var a := order[|order| - 1];
      assert order == order[..|order| - 1] + [a];
      if a in held then rest else rest + [a]
  }

  lemma {:induction false} KeepsOrder(order: seq<Addr>, held: set<Addr>, i: nat, j: nat)
    requires i < j < |NotElsewhere(order, held)|
    ensures exists x, y :: 0 <= x < y < |order|
              && order[x] == NotElsewhere(order, held)[i] && order[y] == NotElsewhere(order, held)[j]
  {
    var n := |order| - 1;
    var r, rest := NotElsewhere(order, held), NotElsewhere(order[..n], held);
    if j < |rest| {
      KeepsOrder(order[..n], held, i, j);
      var x, y :| 0 <= x < y < n && order[..n][x] == rest[i] && order[..n][y] == rest[j];
      assert order[x] == r[i] && order[y] == r[j];
    } else {
      assert rest[i] in order[..n];
      var x :| 0 <= x < n && order[..n][x] == rest[i];
      assert order[x] == r[i] && order[n] == r[j];
    }
  }

  class NomsBlockStore {
    const mm: ManifestManager
    const p: TablePersister
    const maxTables: nat
    const maxData: nat
    const rank: Name -> nat
    var mt: map<Addr, Data>
    var order: seq<Addr>
    var novel: seq<Name>
    var tables: seq<Name>
    var upstream: Contents

    /** The store as a participant of the manifest protocol. */
    ghost function Value(): Store
      reads this
    {
      Store(0, mt, novel, tables, upstream, Idle, {})
    }

    ghost function Chunks(): set<Addr>
      reads this
    {
      mt.Keys + Reach(novel) + Reach(tables)
    }

    ghost predicate Valid()
      reads this, mm, p
    {
      && FilesOk(p.files)
      && mm.Valid(p.files)
      && StoreOk(Value(), p.files)
      && (forall a :: a in order <==> a in mt)
      && |tables| <= |upstream.names|
      && (mm.persisted.lock == NoLock ==> upstream.lock == NoLock)
      && Reach(upstream.names) <= Reach(mm.persisted.names)
      && (mm.cache.Some? ==> Reach(upstream.names) <= Reach(mm.cache.value.names))
    }

    /** Neither the store nor its manifests name an empty table. */
    ghost predicate Full()
      reads this, mm
    {
      NoEmpty(tables) && NoEmpty(upstream.names) && mm.Full()
    }

    constructor (mm: ManifestManager, p: TablePersister, maxTables: nat, maxData: nat, rank: Name -> nat)
      requires FilesOk(p.files) && mm.Valid(p.files)
      ensures Valid() && Chunks() == {} && this.mm == mm && this.p == p
    {
      this.mm, this.p, this.maxTables, this.maxData, this.rank := mm, p, maxTables, maxData, rank;
      mt, order, novel, tables, upstream := map[], [], [], [], NO_MANIFEST;
    }

    /** Add the compacted memtable in front of the novel tables. */
    method Prepend()
      requires Valid()
      modifies this`mt, this`order, this`novel, p
      ensures Valid() && mt == map[] && Chunks() == old(Chunks()) && Full() == old(Full())
      ensures Compacts(old(Value()), NotElsewhere(old(order), Reach(old(novel)) + Reach(old(tables))))
      ensures Value() == Prepended(old(Value()), NotElsewhere(old(order), Reach(old(novel)) + Reach(old(tables))))
      ensures p.files == Written(old(Value()), old(p.files),
                NotElsewhere(old(order), Reach(old(novel)) + Reach(old(tables))))
    {
      hide Reach, FilesOk, Written, StoreOk, ManifestManager.Valid;
      var compacted := NotElsewhere(order, Reach(novel) + Reach(tables));
      assert Compacts(Value(), compacted);
      PrependKeeps(Value(), p.files, compacted);
      PrependHolds(Value(), compacted);
      ManagerGrown(mm, p.files, Written(Value(), p.files, compacted));
      p.files := Written(Store(0, mt, novel, tables, upstream, Idle, {}), p.files, compacted);
      novel := [NameOf(compacted)] + novel;
      mt, order := map[], [];
    }

    /** Add a chunk, moving the memtable out of the way when it is full. */
    method AddChunk(a: Addr, data: Data) returns (ok: bool)
      requires Valid() && a == AddrOf(data)
      modifies this`mt, this`order, this`novel, p
      ensures Valid() && ok == (a in old(mt) || |data| <= maxData)
      ensures Chunks() == old(Chunks()) + if ok then {a} else {}
      ensures a in old(mt) ==> Value() == old(Value())
      ensures a !in old(mt) ==>
                if Sum(DataLens(old(order))) + |data| <= maxData
                then mt == old(mt)[a := data] && novel == old(novel)
                else mt == (if ok then map[a := data] else map[]) && |novel| == |old(novel)| + 1
    {
      hide Reach, FilesOk, ManifestManager.Valid, Sum, Known, Good, Written, Prepended, Compacts;
      if a in mt {
        return true;
      }
      if Sum(DataLens(order)) + |data| > maxData {
        PrependFrame(Value(), NotElsewhere(order, Reach(novel) + Reach(tables)));
        Prepend();
        if |data| > maxData {
          return false;
        }
      }
      PutKeeps(Value(), a, data, p.files);
      mt := mt[a := data];
      order := order + [a];
      return true;
    }

    /** A store is a map from the addresses of the chunks it was given, or finds upstream, to their bytes. */
    method GetChunk(a: Addr) returns (r: Option<Data>)
      requires Valid()
      ensures r == if a in Chunks() then Some(a.data) else None
    {
      hide Reach, Find;
      GetReads(Value(), p.files, a);
      if a in mt {
        return Some(mt[a]);
      }
      return Find(p.files, novel + tables, a);
    }

    method HasChunk(a: Addr) returns (ok: bool)
      requires Valid()
      ensures ok <==> a in Chunks()
    {
      hide Reach, AnyHas;
      GetReads(Value(), p.files, a);
      return a in mt || AnyHas(p.files, novel + tables, a);
    }

    /** The chunks of the given ones that the store does not have. */
    method HasMany(hashes: set<Addr>) returns (absent: set<Addr>)
      requires Valid()
      ensures absent == hashes - Chunks()
    {
      hide Reach, FilesOk, Good, WellAddressed, ManifestManager.Valid;
      var reqs := ToRequests(hashes);
      ghost var asked := reqs[..];
      assert forall i :: 0 <= i < reqs.Length ==> reqs[i] == asked[i];
      var remaining := MemTableHasMany(mt.Keys, reqs);
      if remaining {
        var _ := TableSetHasMany(p.files, novel, tables, reqs);
      }
      assert forall i :: 0 <= i < reqs.Length ==> reqs[i].a == asked[i].a && (reqs[i].has <==> asked[i].a in Chunks());
      absent := {};
      for i := 0 to reqs.Length
        invariant absent == set k | 0 <= k < i && !reqs[k].has :: reqs[k].a
      {
        if !reqs[i].has {
          absent := absent + {reqs[i].a};
        }
      }
      AbsentAre(reqs[..], hashes, Chunks(), absent);
    }

    /** Replace the upstream tables by those of c. */
    method RebaseTables(c: Contents)
      requires Valid() && Good(c, p.files) && Reach(upstream.names) <= Reach(c.names) <= Reach(mm.persisted.names)
      requires mm.cache.Some? ==> Reach(c.names) <= Reach(mm.cache.value.names)
      requires mm.persisted.lock == NoLock ==> c.lock == NoLock
      modifies this`novel, this`tables, this`upstream
      ensures Valid() && Value() == Rebased(old(Value()), c) && old(Chunks()) <= Chunks()
      ensures Chunks() == old(Chunks()) + Reach(c.names)
      ensures NoEmpty(c.names) && mm.Full() ==> Full()
    {
      hide Reach, FilesOk, NonEmpty, ManifestManager.Valid;
      RebaseKeeps(Value(), c, p.files);
      NonEmptyReach(novel);
      DedupReach(c.names);
      novel, tables, upstream := NonEmpty(novel), Dedup(c.names), c;
    }

    predicate ConjoinRequired()
      reads this
    {
      |novel| + |tables| > maxTables && |tables| >= 2
    }

    /** A commit from last can go through: last is the root here, in the cache if that differs, and persisted. */
    ghost predicate CanCommit(last: Root)
      reads this, mm
    {
      && upstream.root == last
      && mm.persisted.root == last
      && (mm.cache.Some? && mm.cache.value.lock != upstream.lock ==> mm.cache.value.root == last)
    }

    /** How far the store's idea of the manifest is behind. */
    ghost function Stale(): nat
      reads this, mm
    {
      if mm.UpdateWillFail(upstream.lock) then 2 else if mm.persisted.lock != upstream.lock then 1 else 0
    }

    /** Conjoin upstream tables and rebase onto the result. */
    method ConjoinUpstream()
      requires Valid() && |tables| >= 2 && !mm.UpdateWillFail(upstream.lock)
      modifies this`novel, this`tables, this`upstream, mm, p
      ensures Valid() && old(Chunks()) <= Chunks() && mm.persisted.root == old(mm.persisted.root)
      ensures Reach(old(mm.persisted.names)) <= Reach(mm.persisted.names)
      ensures upstream == mm.persisted && mm.cache == Some(upstream)
      ensures old(Stale()) == 0 ==> |upstream.names| < |old(upstream.names)|
      ensures old(Full()) ==> Full()
    {
      hide Reach, FilesOk, StoreOk;
      StoreParts(Value(), p.files);
      var c := ConjoinManifest(mm, p, upstream, rank);
      StoreGrown(Value(), Value(), old(p.files), p.files);
      RebaseTables(c.value);
    }

    /** Write a manifest with the new root and all tables. */
    method Publish(current: Root, last: Root) returns (outcome: Outcome)
      requires Valid() && mt == map[] && upstream.root == last && !mm.UpdateWillFail(upstream.lock)
      modifies this`novel, this`tables, this`upstream, mm
      ensures Valid() && old(Chunks()) <= Chunks()
      ensures Reach(old(mm.persisted.names)) <= Reach(mm.persisted.names)
      ensures outcome.Committed? ==>
                && novel == [] && mm.persisted.root == current && Chunks() <= Reach(mm.persisted.names)
                && (old(CanCommit(last)) || mm.persisted == old(mm.persisted))
                && tables == upstream.names == NonEmpty(old(novel)) + old(tables)
      ensures outcome.RootMoved? ==> mm.persisted == old(mm.persisted) && !old(CanCommit(last))
      ensures outcome.TablesChanged? ==>
                && mm.persisted == old(mm.persisted) && CanCommit(last) && old(CanCommit(last))
                && old(Stale()) == 1 && Stale() == 0
      ensures outcome.Failed? <==> !old(NoEmpty(tables))
      ensures outcome.Failed? ==> mm.persisted == old(mm.persisted) && tables == old(tables)
      ensures !outcome.LastRootMismatch?
      ensures old(Full()) ==> Full()
    {
      hide Reach, FilesOk, StoreOk, NonEmpty, Good, UpdateOk, LockReach, LockRoot;
      if !NoEmpty(tables) {
        return Failed;
      }
      StoreParts(Value(), p.files);
      var next := MakeContents(current, NonEmpty(novel) + tables);
      ghost var op := Commit(current, last);
      PublishKeeps(Value(), p.files, current, last, None);
      CommitKeeps(Value(), upstream.lock, next, op, p.files);
      CommitHolds(Value());
      LockDetermines(upstream, p.files);
      LockDetermines(mm.persisted, p.files);
      NextGood(Value(), upstream.lock, next, op, p.files);
      if mm.persisted.lock == upstream.lock {
        SwapGrows(Value(), mm.persisted, upstream.lock, next, op, p.files);
      }
      var c := mm.Update(upstream.lock, next);
      if c.value.lock != next.lock {
        RebaseTables(c.value);
        return if last != c.value.root then RootMoved else TablesChanged;
      }
      SameLock(c.value, next, p.files);
      tables, upstream, novel := next.names, next, [];
      return Committed;
    }

    method UpdateManifest(current: Root, last: Root) returns (outcome: Outcome)
      requires Valid()
      modifies this, mm, p
      ensures Valid() && old(Chunks()) <= Chunks() && Reach(old(mm.persisted.names)) <= Reach(mm.persisted.names)
      ensures outcome.Committed? ==>
                && mt == map[] && novel == [] && mm.persisted.root == current && Chunks() <= Reach(mm.persisted.names)
                && (old(CanCommit(last)) || old(mm.persisted.root) == current)
      ensures outcome.LastRootMismatch? || outcome.RootMoved? ==> !old(CanCommit(last))
      ensures !outcome.Committed? ==> mm.persisted.root == old(mm.persisted.root)
      ensures outcome.Failed? ==> !NoEmpty(tables)
      ensures old(Full()) ==> Full()
      ensures outcome.TablesChanged? ==>
                && CanCommit(last) == old(CanCommit(last))
                && (Stale() < old(Stale()) || (Stale() == old(Stale()) && |upstream.names| < |old(upstream.names)|))
      ensures old(upstream.root == last && Stale() == 0) ==>
                (outcome.TablesChanged? <==>
                 old(|novel| + |tables| + (if mt == map[] then 0 else 1) > maxTables && |tables| >= 2))
    {
      hide Reach, FilesOk, StoreOk, NonEmpty, Good, Written, Prepended, Compacts, NotElsewhere;
      if upstream.root != last {
        return LastRootMismatch;
      }
      if mm.UpdateWillFail(upstream.lock) {
        RebaseTables(mm.cache.value);
        return if last != upstream.root then RootMoved else TablesChanged;
      }
      if mt != map[] {
        PrependFrame(Value(), NotElsewhere(order, Reach(novel) + Reach(tables)));
        Prepend();
      }
      if ConjoinRequired() {
        LockDetermines(upstream, p.files) by { StoreParts(Value(), p.files); }
        LockDetermines(mm.persisted, p.files);
        ConjoinUpstream();
        return TablesChanged;
      }
      outcome := Publish(current, last);
    }

    /** Follow the manifest: the cached copy when it is young enough, else the persisted one. */
    method RebaseStore(young: bool)
      requires Valid()
      modifies this`novel, this`tables, this`upstream, mm`cache
      ensures Valid() && old(Chunks()) <= Chunks() && mt == old(mt)
      ensures old(novel) == [] ==> novel == []
      ensures !(young && old(mm.cache).Some?) ==> Chunks() == old(Chunks()) + Reach(mm.persisted.names)
      ensures old(Full()) ==> Full()
    {
      hide Reach, FilesOk, StoreOk, Good;
      StoreParts(Value(), p.files);
      var c, found := mm.persisted, mm.persisted.lock != NoLock;
      if young && mm.cache.Some? {
        c, found := mm.cache.value, true;
      } else {
        mm.cache := Some(c);
      }
      SameLockReaches(c, upstream, p.files);
      if !found {
        NoneReached(c, p.files);
      } else if c.lock != upstream.lock {
        RebaseTables(c);
      }
    }

    /** Commit ends; it succeeds when the root is last everywhere it is looked at, and then everything is durable. */
    method CommitRoot(current: Root, last: Root, young: bool) returns (r: Option<bool>)
      requires Valid()
      modifies this, mm, p
      ensures Valid() && old(Chunks()) <= Chunks() && Reach(old(mm.persisted.names)) <= Reach(mm.persisted.names)
      ensures r == Some(true) ==> mt == map[] && novel == [] && Chunks() <= Reach(mm.persisted.names)
      ensures r != Some(true) ==> mm.persisted.root == old(mm.persisted.root)
      ensures old(mt) == map[] && old(novel) == [] && current == last ==>
                r == Some(true) && mm.persisted == old(mm.persisted)
      ensures !(old(mt) == map[] && old(novel) == [] && current == last) ==>
                && (r == Some(false) ==> !old(CanCommit(last)))
                && (r == Some(true) ==>
                      mm.persisted.root == current && (old(CanCommit(last)) || old(mm.persisted.root) == current))
      ensures r == None ==> !NoEmpty(tables)
      ensures old(Full()) ==> Full() && r != None
      ensures old(Full()) && old(CanCommit(last)) ==> r == Some(true)
    {
      hide Reach, FilesOk, StoreOk, Good, NotElsewhere, Written, Prepended, Compacts;
      if mt == map[] && novel == [] && current == last {
        RebaseStore(young);
        AllUpstream(Value(), p.files);
        return Some(true);
      }
      if |mt| > PREFLUSH_CHUNK_COUNT {
        PrependFrame(Value(), NotElsewhere(order, Reach(novel) + Reach(tables)));
        Prepend();
      }
      while true
        invariant Valid() && old(Chunks()) <= Chunks()
        invariant Reach(old(mm.persisted.names)) <= Reach(mm.persisted.names)
        invariant mm.persisted.root == old(mm.persisted.root)
        invariant CanCommit(last) == old(CanCommit(last)) && (old(Full()) ==> Full())
        decreases Stale(), |upstream.names|
      {
        var outcome := UpdateManifest(current, last);
        match outcome
        case Committed => return Some(true);
        case LastRootMismatch => return Some(false);
        case RootMoved => return Some(false);
        case Failed => return None;
        case TablesChanged =>
      }
    }
  }

  const PREFLUSH_CHUNK_COUNT := 8

  lemma SameLockReaches(a: Contents, b: Contents, files: Files)
    requires Good(a, files) && Good(b, files)
    ensures a.lock == b.lock ==> Reach(a.names) == Reach(b.names)
  {
  }

  lemma NoneReached(c: Contents, files: Files)
    requires Good(c, files) && c.lock == NoLock
    ensures Reach(c.names) == {}
  {
  }

  lemma AllUpstream(s: Store, files: Files)
    requires StoreOk(s, files) && s.novel == []
    ensures Reach(s.novel) + Reach(s.tables) == Reach(s.upstream.names)
  {
  }

  lemma StoreParts(s: Store, files: Files)
    requires StoreOk(s, files)
    ensures Good(s.upstream, files) && Known(files, s.upstream.names) && Reach(s.tables) == Reach(s.upstream.names)
  {
  }

  lemma NextGood(s: Store, lock: Lock, next: Contents, op: Op, files: Files)
    requires UpdateOk(s, lock, next, op, files)
    ensures Good(next, files)
  {
  }

  lemma SameLock(a: Contents, b: Contents, files: Files)
    requires Good(a, files) && Good(b, files) && a.lock == b.lock
    ensures a == b
  {
  }

  lemma CommitHolds(s: Store)
    ensures Reach(NonEmpty(s.novel) + s.tables) == Reach(s.novel) + Reach(s.tables) && Reach([]) == {}
    ensures NoEmpty(s.tables) ==> NoEmpty(NonEmpty(s.novel) + s.tables)
  {
    NonEmptyReach(s.novel);
    ReachAppend(NonEmpty(s.novel), s.tables);
  }

  lemma PrependFrame(s: Store, order: seq<Addr>)
    ensures var s' := Prepended(s, order);
            s'.upstream == s.upstream && s'.tables == s.tables && |s'.novel| == |s.novel| + 1
  {
  }

  lemma PrependHolds(s: Store, order: seq<Addr>)
    requires Compacts(s, order)
    ensures Reach(Prepended(s, order).novel) + Reach(s.tables) == s.mt.Keys + Reach(s.novel) + Reach(s.tables)
  {
    hide Reach;
    ReachAppend([NameOf(order)], s.novel);
    ReachOne(NameOf(order));
  }
}
