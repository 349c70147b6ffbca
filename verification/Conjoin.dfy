/** Executing a conjoin plan: the chunk data of the sources in one file, under the merged index. */
module Conjoin {
  import opened Bytes
  import opened Options
  import opened OffsetsReader
  import opened TableIndex
  import opened TableFile
  import opened TableWriter
  import opened TableReader
  import opened ConjoinPlan
  import opened Sorting

  /** The chunk data of the sources, back to back. */
  ghost function AllData(ss: seq<SourceWithSize>): seq<byte>
  {
    if ss == [] then [] else AllData(ss[..|ss| - 1]) + Flatten(ss[|ss| - 1].source.tr.records)
  }

  lemma {:induction false} DataIsFlat(ss: seq<SourceWithSize>)
    ensures AllData(ss) == Flatten(AllRecords(ss))
  {
    if ss != [] {
      var k := |ss| - 1;
      DataIsFlat(ss[..k]);
      FlattenAppend(AllRecords(ss[..k]), ss[k].source.tr.records);
    }
  }

  lemma DataStep(ss: seq<SourceWithSize>, k: nat)
    requires k < |ss|
    ensures AllData(ss[..k + 1]) == AllData(ss[..k]) + Flatten(ss[k].source.tr.records)
  {
    assert ss[..k + 1][..k] == ss[..k];
  }

  lemma DataEnds(ss: seq<SourceWithSize>)
    ensures AllData(ss[..0]) == [] && ss[..|ss|] == ss
  {
  }

  /** The chunk data of a source is the beginning of its table. */
  ghost predicate DataAt(s: SourceWithSize)
  {
    s.dataLen <= |s.source.tr.table| && s.source.tr.table[..s.dataLen] == Flatten(s.source.tr.records)
  }

  lemma ChunkData(s: SourceWithSize)
    requires Sized(s)
    ensures DataAt(s)
  {
    hide Flatten, Sum, TuplesFor, SuffixesFor;
  }

  /** The data of a plan followed by its index is a table of all records in plan order. */
  lemma PlanIsTable(plan: CompactionPlan, sources: seq<Source>, t: seq<byte>)
    requires Planned(plan, sources) && t == AllData(plan.sources) + plan.mergedIndex[..]
    ensures IsTable(t, AllAddrs(plan.sources), AllRecords(plan.sources), TotalUncompressed(sources))
  {
    hide Flatten, IsIndex, Footer, AllAddrs, AllRecords, AllData, TotalUncompressed, Sorted;
    var ss, m := plan.sources, plan.mergedIndex[..];
    var d, n := |AllData(ss)|, |AllAddrs(ss)|;
    DataIsFlat(ss);
    assert t[..d] == AllData(ss);
    assert t[d..d + IndexSize(n)] == m[..28 * n] == plan.mergedIndex[..28 * n];
    assert t[d + IndexSize(n)..] == m[28 * n..] == plan.mergedIndex[28 * n..];
  }

  /** Copies each source's chunk data, then the merged index; without any chunk no file is written. */
  method ConjoinAll(sources: seq<Source>) returns (r: Option<seq<byte>>, chunkCount: nat)
    requires forall i :: 0 <= i < |sources| ==> sources[i].tr.Valid()
    requires CountOf(sources) < U32
    ensures chunkCount == CountOf(sources) && (r.None? <==> chunkCount == 0)
    ensures exists order ::
              && multiset(SourcesOf(order)) == multiset(sources)
              && chunkCount == |AllAddrs(order)|
              && (r.Some? ==> IsTable(r.value, AllAddrs(order), AllRecords(order), TotalUncompressed(sources)))
  {
    hide IsTable, Flatten, AllData, AllAddrs, AllRecords, CountOf, TableReader.Valid, IsIndex, Footer;
    var plan := PlanConjoin(sources);
    ghost var order := plan.sources;
    chunkCount := plan.chunkCount;
    if chunkCount == 0 {
      return None, 0;
    }
    var t := [];
    DataEnds(order);
    for i := 0 to |plan.sources|
      invariant t == AllData(order[..i])
      modifies {}
    {
      var sws := plan.sources[i];
      ChunkData(sws);
      DataStep(order, i);
      t := t + sws.source.tr.table[..sws.dataLen];
    }
    t := t + plan.mergedIndex[..];
    PlanIsTable(plan, sources, t);
    r := Some(t);
  }

  // ----- Nothing lost, nothing made up -----

  /** Every record of the conjoined table is a record of some source, at the same address. */
  lemma {:induction false} FromSource(ss: seq<SourceWithSize>, i: nat) returns (s: nat, k: nat)
    requires forall j :: 0 <= j < |ss| ==> |ss[j].source.tr.addrs| == |ss[j].source.tr.records|
    requires i < |AllAddrs(ss)|
    ensures |AllRecords(ss)| == |AllAddrs(ss)|
    ensures s < |ss| && k < |ss[s].source.tr.addrs|
    ensures ss[s].source.tr.addrs[k] == AllAddrs(ss)[i] && ss[s].source.tr.records[k] == AllRecords(ss)[i]
  {
    var last := |ss| - 1;
    CountIsLength(ss);
    CountIsLength(ss[..last]);
    if i < |AllAddrs(ss[..last])| {
      s, k := FromSource(ss[..last], i);
    } else {
      s, k := last, i - |AllAddrs(ss[..last])|;
    }
  }

  /** Every address of a source is an address of the conjoined table. */
  lemma {:induction false} IntoConjoined(ss: seq<SourceWithSize>, s: nat)
    requires s < |ss|
    ensures forall h :: h in ss[s].source.tr.addrs ==> h in AllAddrs(ss)
  {
    if s < |ss| - 1 {
      IntoConjoined(ss[..|ss| - 1], s);
    }
  }

  /**
   * Conjoining preserves meaning: an address is in the conjoined table exactly if some source has it, and every
   * record found there is the record of a source.
   */
  lemma ConjoinPreserves(sources: seq<Source>, order: seq<SourceWithSize>, h: Addr)
    requires multiset(SourcesOf(order)) == multiset(sources)
    requires forall i :: 0 <= i < |sources| ==> |sources[i].tr.addrs| == |sources[i].tr.records|
    ensures |AllAddrs(order)| == |AllRecords(order)|
    ensures h in AllAddrs(order) <==> exists i :: 0 <= i < |sources| && h in sources[i].tr.addrs
    ensures forall i :: 0 <= i < |AllAddrs(order)| && AllAddrs(order)[i] == h ==>
              exists s :: 0 <= s < |sources| && HasRecordAt(sources[s], h, AllRecords(order)[i])
  {
    hide AllAddrs, AllRecords;
    SameMembers(SourcesOf(order), sources);
    forall j | 0 <= j < |order| ensures |order[j].source.tr.addrs| == |order[j].source.tr.records| {
      assert SourcesOf(order)[j] in sources;
    }
    CountIsLength(order);
    forall i | 0 <= i < |AllAddrs(order)| && AllAddrs(order)[i] == h
      ensures exists s :: 0 <= s < |sources| && HasRecordAt(sources[s], h, AllRecords(order)[i])
    {
      var s, k := FromSource(order, i);
      assert SourcesOf(order)[s] in sources;
      var t :| 0 <= t < |sources| && sources[t] == order[s].source;
      assert HasRecordAt(sources[t], h, AllRecords(order)[i]);
    }
    if i :| 0 <= i < |sources| && h in sources[i].tr.addrs {
      assert sources[i] in SourcesOf(order);
      var s :| 0 <= s < |order| && SourcesOf(order)[s] == sources[i];
      IntoConjoined(order, s);
    }
  }

  /** The source holds the record at the address. */
  ghost predicate HasRecordAt(s: Source, h: Addr, r: seq<byte>)
  {
    exists k :: 0 <= k < |s.tr.addrs| && k < |s.tr.records| && s.tr.addrs[k] == h && s.tr.records[k] == r
  }
}
