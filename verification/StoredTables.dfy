/** The table files of the protocol. */
module StoredTables {

  // They are the bytes that are written, conjoined and read.

  import opened Bytes
  import opened Conjoin
  import opened ConjoinPlan
  import opened MemTable
  import opened Options
  import opened RoundTrip
  import opened Sorting
  import opened TableFile
  import opened TableIndex
  import opened TableReader
  import opened TableWriter

  import Protocol = ManifestProtocol
  import Sets = TableSets

  type Hash = seq<byte> -> Addr

  function Hashes(hash: Hash, chunks: seq<Sets.Addr>): (r: seq<Addr>)
    ensures |r| == |chunks| && forall i :: 0 <= i < |r| ==> r[i] == hash(chunks[i].data)
  {
    seq<Addr>(|chunks|, i requires 0 <= i < |chunks| => hash(chunks[i].data))
  }

  function Datas(chunks: seq<Sets.Addr>): (r: seq<seq<byte>>)
    ensures |r| == |chunks| && forall i :: 0 <= i < |r| ==> r[i] == chunks[i].data
  {
    seq(|chunks|, i requires 0 <= i < |chunks| => chunks[i].data)
  }

  /** No two of the chunks have the same hash. */
  ghost predicate Distinct(hash: Hash, chunks: set<Sets.Addr>)
  {
    forall a, b :: a in chunks && b in chunks && hash(a.data) == hash(b.data) ==> a == b
  }

  /** The bytes are a table of the chunks the name stands for, in the order of the name. */
  ghost predicate Stores(t: seq<byte>, n: Sets.Name, codec: Codec, hash: Hash)
  {
    exists u :: IsTable(t, Hashes(hash, n.addrs), Records(codec, Datas(n.addrs)), u)
  }

  // ----- Reading -----

  /** A reader of the bytes answers for every chunk as the file of the protocol does. */
  method GetStored(t: seq<byte>, chunkCount: nat, blockSize: nat, codec: Codec, hash: Hash, a: Sets.Addr,
                   ghost n: Sets.Name, ghost files: Sets.Files)
    returns (r: Option<seq<byte>>)
    requires Sound(codec) && Stores(t, n, codec, hash) && chunkCount == |n.addrs| < MAX_CHUNKS
    requires Distinct(hash, Sets.Held(n) + {a})
    requires Sets.FilesOk(files) && n in files
    ensures r == Sets.Find(files, [n], a)
  {
    hide IsTable, Records, Sound, Sets.Reach;
    ghost var u :| IsTable(t, Hashes(hash, n.addrs), Records(codec, Datas(n.addrs)), u);
    var found := ReadBack(t, chunkCount, blockSize, codec, hash(a.data), Hashes(hash, n.addrs), Datas(n.addrs), u);
    Sets.FindReads(files, [n], a);
    Sets.ReachOne(n);
    if a in Sets.Held(n) {
      ghost var i :| 0 <= i < |n.addrs| && n.addrs[i] == a;
      assert Hashes(hash, n.addrs)[i] == hash(a.data);
    }
    r := if found.Chunk? then Some(found.data) else None;
  }

  // ----- Writing a memtable -----

  /** The memtable holds the chunks of the protocol's memtable under their hashes. */
  ghost predicate Mirrors(chunks: map<Addr, seq<byte>>, mt: map<Sets.Addr, seq<byte>>, hash: Hash)
  {
    && Sets.WellAddressed(mt)
    && (forall h :: h in chunks ==> h == hash(chunks[h]) && Sets.AddrOf(chunks[h]) in mt)
    && (forall a :: a in mt ==> hash(a.data) in chunks && chunks[hash(a.data)] == a.data)
  }

  ghost function Named(chunks: map<Addr, seq<byte>>, addrs: seq<Addr>): (r: seq<Sets.Addr>)
    requires forall i :: 0 <= i < |addrs| ==> addrs[i] in chunks
    ensures |r| == |addrs| && forall i :: 0 <= i < |r| ==> r[i] == Sets.AddrOf(chunks[addrs[i]])
  {
    seq(|addrs|, i requires 0 <= i < |addrs| => Sets.AddrOf(chunks[addrs[i]]))
  }

  /**
   * Writing a memtable implements the flush of the protocol: the bytes store exactly the chunks that a flush takes,
   * those that none of the store's tables holds.
   */
  method FlushStored(mt: MemTable, haver: Addr -> bool, codec: Codec, sha: seq<byte> -> Addr,
                     ghost hash: Hash, ghost s: Protocol.Store)
    returns (r: WriteResult, ghost order: seq<Sets.Addr>)
    requires mt.Valid() && Sound(codec) && forall i :: 0 <= i < |mt.order| ==> !mt.order[i].has
    requires Mirrors(mt.chunks, s.mt, hash)
    requires forall a :: a in s.mt ==> (haver(hash(a.data)) <==> a in Sets.Reach(s.novel) + Sets.Reach(s.tables))
    modifies mt`order
    ensures mt.Valid()
    ensures r == ErrZeroChunks <==> s.mt == map[]
    ensures |mt.order| == |old(mt.order)|
    ensures r == ErrShortWrite <==>
            mt.order != [] && TableSize(codec, Datas(order)) > MaxTableSize(|mt.order|, mt.totalData)
    ensures r.Written? ==>
              && Protocol.Compacts(s, order)
              && Stores(r.data, Sets.NameOf(order), codec, hash) && r.count == |order|
  {
    hide IsTable, Records, Sound, Sets.Reach, MemTable.Valid, Unheld, TableSize, WorstSize, MaxTableSize, Budget;
    RequestedAll(mt);
    ghost var first := mt.order;
    r := mt.Write(Some(haver), codec, sha);
    assert s.mt == map[] <==> first == [] by { BothEmpty(mt.chunks, s.mt, hash, first); }
    ghost var addrs := Unheld(mt.order);
    order := Named(mt.chunks, addrs);
    assert Datas(order) == Pick(mt.chunks, addrs);
    if r.Written? {
      assert Hashes(hash, order) == addrs;
      TakesNovel(mt.chunks, s, hash, first, haver, order);
    }
  }

  lemma RequestedAll(mt: MemTable)
    requires mt.Valid()
    ensures Requested(mt.order) == mt.chunks.Keys
  {
  }

  lemma BothEmpty(chunks: map<Addr, seq<byte>>, mt: map<Sets.Addr, seq<byte>>, hash: Hash, order: seq<HasRecord>)
    requires Mirrors(chunks, mt, hash) && Requested(order) == chunks.Keys
    ensures mt == map[] <==> order == []
  {
    if order != [] {
      assert order[0].a in Requested(order);
      assert Sets.AddrOf(chunks[order[0].a]) in mt;
    }
  }

  lemma TakesNovel(chunks: map<Addr, seq<byte>>, s: Protocol.Store, hash: Hash, first: seq<HasRecord>,
                   haver: Addr -> bool, order: seq<Sets.Addr>)
    requires Mirrors(chunks, s.mt, hash) && Requested(first) == chunks.Keys
    requires forall i :: 0 <= i < |first| ==> !first[i].has
    requires forall a :: a in s.mt ==> (haver(hash(a.data)) <==> a in Sets.Reach(s.novel) + Sets.Reach(s.tables))
    requires forall i :: 0 <= i < |Unheld(Marked(first, haver))| ==> Unheld(Marked(first, haver))[i] in chunks
    requires order == Named(chunks, Unheld(Marked(first, haver)))
    ensures Protocol.Compacts(s, order)
  {
    hide Sets.Reach, Unheld;
    var marked := Marked(first, haver);
    forall a ensures a in order <==> a in s.mt.Keys - Sets.Reach(s.novel) - Sets.Reach(s.tables) {
      UnheldMembers(marked, hash(a.data));
      if a in order {
        var i :| 0 <= i < |order| && order[i] == a;
        assert Unheld(marked)[i] == hash(a.data);
      }
      if a in s.mt && !haver(hash(a.data)) {
        assert hash(a.data) in Requested(first);
        var i :| 0 <= i < |first| && first[i].a == hash(a.data);
        assert marked[i].a == hash(a.data) && !marked[i].has;
        var k :| 0 <= k < |Unheld(marked)| && Unheld(marked)[k] == hash(a.data);
        assert order[k] == a;
      }
    }
  }

  // ----- Conjoining -----

  ghost predicate StoredSource(s: Source, n: Sets.Name, codec: Codec, hash: Hash)
  {
    s.tr.addrs == Hashes(hash, n.addrs) && s.tr.records == Records(codec, Datas(n.addrs))
  }

  lemma RecordInjective(c: Codec, d: seq<byte>, e: seq<byte>)
    requires Sound(c) && Record(c, d) == Record(c, e)
    ensures d == e
  {
    assert Record(c, d)[..|c.encode(d)|] == c.encode(d) && Record(c, e)[..|c.encode(e)|] == c.encode(e);
    assert c.decode(c.encode(d)) == Some(d) && c.decode(c.encode(e)) == Some(e);
  }

  /** A source stores the chunks of one name only. */
  lemma NameIsUnique(s: Source, n: Sets.Name, m: Sets.Name, codec: Codec, hash: Hash)
    requires Sound(codec) && StoredSource(s, n, codec, hash) && StoredSource(s, m, codec, hash)
    ensures n == m
  {
    hide Sound, Record;
    assert |n.addrs| == |m.addrs|;
    forall i | 0 <= i < |n.addrs| ensures n.addrs[i] == m.addrs[i] {
      assert Record(codec, Datas(n.addrs)[i]) == s.tr.records[i] == Record(codec, Datas(m.addrs)[i]);
      RecordInjective(codec, n.addrs[i].data, m.addrs[i].data);
    }
    assert n.addrs == m.addrs;
  }

  /** The names of the sources, in the order of a plan. */
  ghost predicate NamesOf(ns: seq<Sets.Name>, order: seq<SourceWithSize>, codec: Codec, hash: Hash)
  {
    |ns| == |order| && forall j :: 0 <= j < |ns| ==> StoredSource(order[j].source, ns[j], codec, hash)
  }

  lemma {:induction false} CollectNames(order: seq<SourceWithSize>, sources: seq<Source>, names: seq<Sets.Name>,
                                        codec: Codec, hash: Hash)
    returns (ns: seq<Sets.Name>)
    requires |names| == |sources| && forall i :: 0 <= i < |sources| ==> StoredSource(sources[i], names[i], codec, hash)
    requires forall j :: 0 <= j < |order| ==> order[j].source in sources
    ensures NamesOf(ns, order, codec, hash) && forall n :: n in ns ==> n in names
  {
    hide StoredSource;
    if order == [] {
      ns := [];
    } else {
      var k := |order| - 1;
      ns := CollectNames(order[..k], sources, names, codec, hash);
      var i :| 0 <= i < |sources| && sources[i] == order[k].source;
      ns := ns + [names[i]];
    }
  }

  lemma {:induction false} JoinedStores(ns: seq<Sets.Name>, order: seq<SourceWithSize>, codec: Codec, hash: Hash)
    requires NamesOf(ns, order, codec, hash)
    ensures AllAddrs(order) == Hashes(hash, Sets.Joined(ns))
    ensures AllRecords(order) == Records(codec, Datas(Sets.Joined(ns)))
  {
    hide Record;
    if order != [] {
      var k := |order| - 1;
      JoinedStores(ns[..k], order[..k], codec, hash);
      assert StoredSource(order[k].source, ns[k], codec, hash);
    }
  }

  /** The names of a plan are those of the sources, so they reach the same chunks. */
  lemma SameChunks(ns: seq<Sets.Name>, order: seq<SourceWithSize>, sources: seq<Source>, names: seq<Sets.Name>,
                   codec: Codec, hash: Hash)
    requires Sound(codec) && NamesOf(ns, order, codec, hash) && forall n :: n in ns ==> n in names
    requires |names| == |sources| && forall i :: 0 <= i < |sources| ==> StoredSource(sources[i], names[i], codec, hash)
    requires forall s :: s in sources ==> s in SourcesOf(order)
    ensures Sets.Reach(ns) == Sets.Reach(names)
  {
    hide StoredSource, Sound, Sets.Reach;
    forall n | n in names ensures n in ns {
      var i :| 0 <= i < |names| && names[i] == n;
      assert sources[i] in SourcesOf(order);
      var j :| 0 <= j < |order| && SourcesOf(order)[j] == sources[i];
      NameIsUnique(sources[i], n, ns[j], codec, hash);
    }
    Sets.ReachSame(ns, names);
  }

  /**
   * Conjoining table files implements the conjoin of the protocol: the bytes store a table that holds exactly what the
   * conjoined tables hold. If that is nothing, no file is written.
   */
  method ConjoinStored(sources: seq<Source>, ghost names: seq<Sets.Name>, ghost codec: Codec, ghost hash: Hash)
    returns (r: Option<seq<byte>>, chunkCount: nat, ghost n: Sets.Name)
    requires (forall i :: 0 <= i < |sources| ==> sources[i].tr.Valid()) && CountOf(sources) < U32 && Sound(codec)
    requires |names| == |sources| && forall i :: 0 <= i < |sources| ==> StoredSource(sources[i], names[i], codec, hash)
    ensures chunkCount == |n.addrs| && (r.None? <==> n.addrs == [])
    ensures r.Some? ==> Stores(r.value, n, codec, hash)
    ensures forall keepers :: Protocol.Splits(names + keepers, Protocol.Choice(n, names, keepers))
  {
    hide IsTable, Records, Sound, AllAddrs, AllRecords, CountOf, TableReader.Valid, StoredSource, NamesOf, Sets.Reach,
      Sets.Joined;
    r, chunkCount := ConjoinAll(sources);
    ghost var order: seq<SourceWithSize> :|
      && multiset(SourcesOf(order)) == multiset(sources)
      && chunkCount == |AllAddrs(order)|
      && (r.Some? ==> IsTable(r.value, AllAddrs(order), AllRecords(order), TotalUncompressed(sources)));
    SameMembers(SourcesOf(order), sources);
    forall j | 0 <= j < |order| ensures order[j].source in sources {
      assert SourcesOf(order)[j] in sources;
    }
    ghost var ns := CollectNames(order, sources, names, codec, hash);
    JoinedStores(ns, order, codec, hash);
    SameChunks(ns, order, sources, names, codec, hash);
    Sets.JoinedHolds(ns);
    n := Sets.NameOf(Sets.Joined(ns));
  }
}
