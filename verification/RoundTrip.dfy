/** Opening a table file from its bytes and reading back what was written. */
module RoundTrip {
  import opened Bytes
  import opened Conjoin
  import opened ConjoinPlan
  import opened MemTable
  import opened OffsetsReader
  import opened Options
  import opened TableFile
  import opened TableIndex
  import opened TableReader
  import opened TableWriter

  /** The end of a table: its index and its footer. */
  ghost predicate IsEnd(end: seq<byte>, addrs: seq<Addr>, lens: seq<nat>)
  {
    var size := IndexSize(|addrs|) + FOOTER_SIZE;
    && |end| == size
    && IsIndex(end[..size - 20], addrs, lens)
    && Value(end[size - 20..size - 16]) == |addrs|
    && end[size - 8..] == MAGIC
  }

  lemma TableEnd(t: seq<byte>, addrs: seq<Addr>, records: seq<seq<byte>>, u: nat)
    requires IsTable(t, addrs, records, u) && |addrs| < MAX_CHUNKS
    ensures var size := IndexSize(|addrs|) + FOOTER_SIZE;
            size <= |t| && IsEnd(t[|t| - size..], addrs, Lens(records))
    ensures Flatten(records) <= t && |records| == |addrs|
  {
    hide IsIndex, Value, BigEndian, IsEnd, Footer, Flatten, Lens;
    var d, m := |Flatten(records)|, IndexSize(|addrs|);
    var index := t[d..d + m];
    Last(t, d, m);
    FooterEnd(index, addrs, Lens(records), u);
    IndexLens(index, addrs, Lens(records));
  }

  lemma Last(t: seq<byte>, d: nat, m: nat)
    requires d + m <= |t|
    ensures t[d..] == t[d..d + m] + t[d + m..]
  {
  }

  lemma FooterEnd(index: seq<byte>, addrs: seq<Addr>, lens: seq<nat>, u: nat)
    requires IsIndex(index, addrs, lens) && |addrs| < MAX_CHUNKS
    ensures IsEnd(index + Footer(|addrs|, u), addrs, lens)
  {
    hide IsIndex, Value, BigEndian;
    var n, m := |addrs|, |index|;
    assert m == IndexSize(n) by { IndexLens(index, addrs, lens); }
    var end := index + Footer(n, u);
    assert end[..m] == index;
    assert end[m..m + 4] == BigEndian(n, 4);
    assert end[m + 12..] == MAGIC;
    Widths();
    ValueOfBigEndian(n, 4);
  }

  lemma IndexLens(b: seq<byte>, addrs: seq<Addr>, lens: seq<nat>)
    requires IsIndex(b, addrs, lens)
    ensures |lens| == |addrs| && |b| == IndexSize(|addrs|)
  {
  }

  /** Reads the end of a table of the given chunk count and parses it. */
  method OpenTable(t: seq<byte>, chunkCount: nat, blockSize: nat, codec: Codec,
                   ghost addrs: seq<Addr>, ghost records: seq<seq<byte>>, ghost u: nat) returns (tr: TableReader)
    requires IsTable(t, addrs, records, u) && chunkCount == |addrs| < MAX_CHUNKS
    ensures tr.Valid() && tr.addrs == addrs && tr.records == records && tr.codec == codec && tr.blockSize == blockSize
    ensures tr.table == t
  {
    hide IsIndex, IsTable, Value, BigEndian, Flatten, OnHeapTableIndex.Represents;
    TableEnd(t, addrs, records, u);
    var size := IndexSize(chunkCount) + FOOTER_SIZE;
    var end := t[|t| - size..];
    var buff := new byte[size](i requires 0 <= i < size => end[i]);
    assert buff[..] == end;
    SameSlices(buff, end);
    var r := ParseTableIndex(buff);
    tr := new TableReader(r.value, t, blockSize, codec, addrs, records);
  }

  lemma SameSlices(buff: array<byte>, end: seq<byte>)
    requires buff[..] == end && |end| >= 20
    ensures var n := |end|;
            && buff[..n - 20] == end[..n - 20] && buff[n - 20..n - 16] == end[n - 20..n - 16]
            && buff[n - 8..] == end[n - 8..]
  {
  }

  /** A table read back gives the written bytes for exactly the addresses written. */
  method ReadBack(t: seq<byte>, chunkCount: nat, blockSize: nat, codec: Codec, h: Addr,
                  ghost addrs: seq<Addr>, ghost datas: seq<seq<byte>>, ghost u: nat) returns (r: ReadResult)
    requires Sound(codec) && |datas| == |addrs| && IsTable(t, addrs, Records(codec, datas), u)
    requires chunkCount == |addrs| < MAX_CHUNKS
    ensures h !in addrs ==> r == Absent
    ensures h in addrs ==> exists ord :: 0 <= ord < |addrs| && addrs[ord] == h && r == Chunk(datas[ord])
  {
    hide IsTable, Records, Sound;
    var tr := OpenTable(t, chunkCount, blockSize, codec, addrs, Records(codec, datas), u);
    r := tr.Get(h, datas);
  }

  /** What a memtable writes can be read back: the chunks that are not marked as held, and no others. */
  method WriteAndRead(mt: MemTable, haver: Option<Addr -> bool>, codec: Codec, sha: seq<byte> -> Addr,
      blockSize: nat, h: Addr)
    returns (r: Option<ReadResult>)
    requires mt.Valid() && Sound(codec) && |mt.order| < MAX_CHUNKS
    modifies mt`order
    ensures mt.Valid()
    ensures mt.order == if haver.Some? && old(mt.order) != [] then Marked(old(mt.order), haver.value) else old(mt.order)
    ensures forall i :: 0 <= i < |Unheld(mt.order)| ==> Unheld(mt.order)[i] in mt.chunks
    ensures r.Some? <==>
            && mt.order != []
            && TableSize(codec, Pick(mt.chunks, Unheld(mt.order))) <= MaxTableSize(|mt.order|, mt.totalData)
    ensures r.Some? && h !in Unheld(mt.order) ==> r.value == Absent
    ensures r.Some? && h in Unheld(mt.order) ==> h in mt.chunks && r.value == Chunk(mt.chunks[h])
  {
    hide IsTable, Records, Sound, MemTable.Valid, Unheld, TableSize, WorstSize, MaxTableSize, Budget;
    var w := mt.Write(haver, codec, sha);
    if !w.Written? {
      return None;
    }
    ghost var addrs := Unheld(mt.order);
    ghost var u :| IsTable(w.data, addrs, Records(codec, Pick(mt.chunks, addrs)), u);
    UnheldCount(mt.order);
    var back := ReadBack(w.data, w.count, blockSize, codec, h, addrs, Pick(mt.chunks, addrs), u);
    return Some(back);
  }

  // ----- Conjoined tables -----

  /** The bytes of a table that an index entry selects. */
  function Selected(t: seq<byte>, e: IndexEntry): seq<byte>
    requires e.offset + e.length <= |t|
  {
    t[e.offset..e.offset + e.length]
  }

  /** The index finds an address exactly if it is in the table, and selects a record stored under it. */
  method LookupRecord(tr: TableReader, h: Addr) returns (r: Option<IndexEntry>)
    requires tr.Valid()
    ensures r.Some? <==> h in tr.addrs
    ensures r.Some? ==>
              && r.value.offset + r.value.length <= |tr.table|
              && exists ord ::
                && 0 <= ord < |tr.addrs| && ord < |tr.records| && tr.addrs[ord] == h
                && Selected(tr.table, r.value) == tr.records[ord]
  {
    hide OnHeapTableIndex.Represents, Flatten, Sum;
    r := tr.index.Lookup(h, tr.addrs, Lens(tr.records));
    if r.Some? {
      ghost var ord :| 0 <= ord < |tr.addrs| && tr.addrs[ord] == h
        && r.value == IndexEntry(Sum(Lens(tr.records)[..ord]), Lens(tr.records)[ord]);
      RecordInTable(tr.records, tr.table, ord);
    }
  }

  /**
   * Sources are conjoined, the result is opened from its bytes and an address is looked up there: it is found exactly
   * if some source has it, and the bytes selected are the record of a source that does.
   */
  method LookupConjoined(sources: seq<Source>, blockSize: nat, codec: Codec, h: Addr)
    returns (file: Option<seq<byte>>, r: Option<IndexEntry>)
    requires forall i :: 0 <= i < |sources| ==> sources[i].tr.Valid()
    requires CountOf(sources) < MAX_CHUNKS
    ensures r.Some? <==> exists i :: 0 <= i < |sources| && h in sources[i].tr.addrs
    ensures r.Some? ==>
              && file.Some? && r.value.offset + r.value.length <= |file.value|
              && exists s :: 0 <= s < |sources| && HasRecordAt(sources[s], h, Selected(file.value, r.value))
    ensures file.None? <==> CountOf(sources) == 0
  {
    hide IsTable, AllAddrs, AllRecords, CountOf, TableReader.Valid, HasRecordAt;
    SourceLengths(sources);
    var n: nat;
    file, n := ConjoinAll(sources);
    ghost var order :|
      && multiset(SourcesOf(order)) == multiset(sources)
      && n == |AllAddrs(order)|
      && (file.Some? ==> IsTable(file.value, AllAddrs(order), AllRecords(order), TotalUncompressed(sources)));
    ConjoinPreserves(sources, order, h);
    if file.None? {
      return None, None;
    }
    var t := file.value;
    var tr := OpenTable(t, n, blockSize, codec, AllAddrs(order), AllRecords(order), TotalUncompressed(sources));
    r := LookupRecord(tr, h);
  }

  lemma SourceLengths(sources: seq<Source>)
    requires forall i :: 0 <= i < |sources| ==> sources[i].tr.Valid()
    ensures forall i :: 0 <= i < |sources| ==> |sources[i].tr.addrs| == |sources[i].tr.records|
  {
    hide OnHeapTableIndex.Represents, Flatten;
  }
}
