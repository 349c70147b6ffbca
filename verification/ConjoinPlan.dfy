/** Conjoining tables: one merged index over the chunk data of all the sources, which is copied without re-encoding. */
module ConjoinPlan {
  import opened Bytes
  import opened OffsetsReader
  import opened TableIndex
  import opened TableFile
  import opened TableWriter
  import opened TableReader
  import opened Sorting

  /** A table to conjoin. onHeap says whether its index has the concrete type that is copied block by block. */
  datatype Source = Source(tr: TableReader, hash: nat, onHeap: bool, uncompressed: nat)

  datatype SourceWithSize = SourceWithSize(source: Source, dataLen: nat)

  ghost function AllAddrs(ss: seq<SourceWithSize>): seq<Addr>
  {
    if ss == [] then [] else AllAddrs(ss[..|ss| - 1]) + ss[|ss| - 1].source.tr.addrs
  }

  ghost function AllRecords(ss: seq<SourceWithSize>): seq<seq<byte>>
  {
    if ss == [] then [] else AllRecords(ss[..|ss| - 1]) + ss[|ss| - 1].source.tr.records
  }

  function LengthBytes(lens: seq<nat>): (b: seq<byte>)
    ensures |b| == 4 * |lens|
  {
    if lens == [] then [] else LengthBytes(lens[..|lens| - 1]) + BigEndian(lens[|lens| - 1], 4)
  }

  function SuffixBytes(addrs: seq<Addr>): (b: seq<byte>)
    ensures |b| == 12 * |addrs|
  {
    if addrs == [] then [] else SuffixBytes(addrs[..|addrs| - 1]) + Suffix(addrs[|addrs| - 1])
  }

  lemma {:induction false} LengthBytesAt(lens: seq<nat>, i: nat)
    requires i < |lens|
    ensures LengthBytes(lens)[4 * i..4 * i + 4] == BigEndian(lens[i], 4)
  {
    hide BigEndian;
    var k := |lens| - 1;
    var a, b := LengthBytes(lens[..k]), BigEndian(lens[k], 4);
    assert LengthBytes(lens) == a + b;
    if i < k {
      LengthBytesAt(lens[..k], i);
      assert (a + b)[4 * i..4 * i + 4] == a[4 * i..4 * i + 4];
    } else {
      assert (a + b)[4 * i..4 * i + 4] == b;
    }
  }

  lemma {:induction false} SuffixBytesAt(addrs: seq<Addr>, i: nat)
    requires i < |addrs|
    ensures SuffixBytes(addrs)[12 * i..12 * i + 12] == Suffix(addrs[i])
  {
    hide Suffix;
    var k := |addrs| - 1;
    var a, b := SuffixBytes(addrs[..k]), Suffix(addrs[k]);
    assert SuffixBytes(addrs) == a + b;
    if i < k {
      SuffixBytesAt(addrs[..k], i);
      assert (a + b)[12 * i..12 * i + 12] == a[12 * i..12 * i + 12];
    } else {
      assert (a + b)[12 * i..12 * i + 12] == b;
    }
  }

  lemma {:induction false} LengthBytesAppend(a: seq<nat>, b: seq<nat>)
    ensures LengthBytes(a + b) == LengthBytes(a) + LengthBytes(b)
  {
    hide BigEndian;
    if b == [] {
      assert a + b == a;
    } else {
      var k := |b| - 1;
      LengthBytesAppend(a, b[..k]);
      assert (a + b)[..|a + b| - 1] == a + b[..k];
    }
  }

  lemma {:induction false} SuffixBytesAppend(a: seq<Addr>, b: seq<Addr>)
    ensures SuffixBytes(a + b) == SuffixBytes(a) + SuffixBytes(b)
  {
    hide Suffix;
    if b == [] {
      assert a + b == a;
    } else {
      var k := |b| - 1;
      SuffixBytesAppend(a, b[..k]);
      assert (a + b)[..|a + b| - 1] == a + b[..k];
    }
  }

  lemma LengthsOfBytes(lens: seq<nat>)
    requires forall i :: 0 <= i < |lens| ==> lens[i] < U32
    ensures Lengths(LengthBytes(lens)) == lens
  {
    hide Value, BigEndian, LengthBytes;
    forall i | 0 <= i < |lens| ensures Lengths(LengthBytes(lens))[i] == lens[i] {
      LengthBytesAt(lens, i);
      Widths();
      ValueOfBigEndian(lens[i], 4);
    }
  }

  lemma SuffixesOfBytes(addrs: seq<Addr>)
    ensures SuffixesFor(SuffixBytes(addrs), addrs)
  {
    forall i | 0 <= i < |addrs| ensures SuffixBytes(addrs)[12 * i..12 * i + 12] == Suffix(addrs[i]) {
      SuffixBytesAt(addrs, i);
    }
  }

  /** Blocks filled slot by slot are the blocks written in one piece. */
  lemma {:induction false} SlotsFill(b: seq<byte>, lens: seq<nat>)
    requires |b| == 4 * |lens| && forall i :: 0 <= i < |lens| ==> b[4 * i..4 * i + 4] == BigEndian(lens[i], 4)
    ensures b == LengthBytes(lens)
  {
    if lens != [] {
      var k := |lens| - 1;
      forall i | 0 <= i < k ensures b[..4 * k][4 * i..4 * i + 4] == BigEndian(lens[..k][i], 4) {
        Sub(b, 0, 4 * k, 4 * i, 4 * i + 4);
      }
      SlotsFill(b[..4 * k], lens[..k]);
      assert b == b[..4 * k] + b[4 * k..4 * k + 4];
    }
  }

  lemma {:induction false} SuffixSlotsFill(b: seq<byte>, addrs: seq<Addr>)
    requires |b| == 12 * |addrs| && forall i :: 0 <= i < |addrs| ==> b[12 * i..12 * i + 12] == Suffix(addrs[i])
    ensures b == SuffixBytes(addrs)
  {
    if addrs != [] {
      var k := |addrs| - 1;
      forall i | 0 <= i < k ensures b[..12 * k][12 * i..12 * i + 12] == Suffix(addrs[..k][i]) {
        Sub(b, 0, 12 * k, 12 * i, 12 * i + 12);
      }
      SuffixSlotsFill(b[..12 * k], addrs[..k]);
      assert b == b[..12 * k] + b[12 * k..12 * k + 12];
    }
  }

  // ----- Copying one source's lengths and suffixes -----

  lemma OverwriteTwice(s: seq<byte>, pos: nat, x: seq<byte>, y: seq<byte>)
    requires pos + |x| + |y| <= |s|
    ensures Overwrite(Overwrite(s, pos, x), pos + |x|, y) == Overwrite(s, pos, x + y)
  {
  }

  lemma OverwriteInner(s: seq<byte>, pos: nat, x: seq<byte>, rel: nat, y: seq<byte>)
    requires pos + |x| <= |s| && rel + |y| <= |x|
    ensures Overwrite(Overwrite(s, pos, x), pos + rel, y) == Overwrite(s, pos, Overwrite(x, rel, y))
  {
  }

  lemma OverwriteCommutes(s: seq<byte>, p: nat, x: seq<byte>, q: nat, y: seq<byte>)
    requires p + |x| <= q && q + |y| <= |s|
    ensures Overwrite(Overwrite(s, p, x), q, y) == Overwrite(Overwrite(s, q, y), p, x)
  {
  }

  lemma OverwriteSelf(s: seq<byte>, p: nat, q: nat)
    requires p <= q <= |s|
    ensures Overwrite(s, p, s[p..q]) == s
  {
  }

  /** The source's lengths and suffixes, each written as one block. */
  function Blocks(s: seq<byte>, lengthsPos: nat, suffixesPos: nat, lengths: seq<byte>,
      suffixes: seq<byte>): (r: seq<byte>)
    requires lengthsPos + |lengths| <= suffixesPos && suffixesPos + |suffixes| <= |s|
    ensures |r| == |s|
  {
    Overwrite(Overwrite(s, lengthsPos, lengths), suffixesPos, suffixes)
  }

  lemma SuffixBlock(ti: OnHeapTableIndex, addrs: seq<Addr>, lens: seq<nat>)
    requires ti.Represents(addrs, lens)
    ensures ti.indexBuff[16 * ti.chunkCount..28 * ti.chunkCount] == SuffixBytes(addrs)
  {
    hide Value, Sum, TuplesFor, OnHeapTableIndex.OffsetAt;
    SuffixSlotsFill(ti.indexBuff[16 * ti.chunkCount..28 * ti.chunkCount], addrs);
  }

  /** Length by length, then all suffixes as they stand in the source. */
  method CopyOnHeap(a: array<byte>, lengthsPos: nat, suffixesPos: nat, ti: OnHeapTableIndex, ghost addrs: seq<Addr>,
      ghost lens: seq<nat>)
    requires ti.Represents(addrs, lens) && a != ti.indexBuff && a != ti.offsetB1
    requires lengthsPos + 4 * ti.chunkCount <= suffixesPos && suffixesPos + 12 * ti.chunkCount <= a.Length
    modifies a
    ensures a[..] == Blocks(old(a[..]), lengthsPos, suffixesPos, LengthBytes(lens), SuffixBytes(addrs))
  {
    hide Value, Sum, TuplesFor, SuffixesFor, OnHeapTableIndex.OffsetAt, OnHeapTableIndex.GetIndexEntry, LengthBytes,
      SuffixBytes, BigEndian, Overwrite;
    ghost var start := a[..];
    var pos := lengthsPos;
    LengthBytesEnds(lens);
    OverwriteSelf(start, lengthsPos, lengthsPos);
    assert start[lengthsPos..lengthsPos] == [];
    for ord := 0 to ti.chunkCount
      invariant pos == lengthsPos + 4 * ord
      invariant a[..] == Overwrite(start, lengthsPos, LengthBytes(lens[..ord]))
    {
      ti.EntryIsExact(addrs, lens, ord);
      LengthBytesStep(lens, ord);
      OverwriteTwice(start, lengthsPos, LengthBytes(lens[..ord]), BigEndian(lens[ord], 4));
      Put(a, pos, BigEndian(ti.GetIndexEntry(ord).length, 4));
      pos := pos + 4;
    }
    SuffixBlock(ti, addrs, lens);
    Put(a, suffixesPos, ti.indexBuff[16 * ti.chunkCount..28 * ti.chunkCount]);
  }

  lemma LengthBytesEnds(lens: seq<nat>)
    ensures LengthBytes(lens[..0]) == [] && LengthBytes(lens[..|lens|]) == LengthBytes(lens)
  {
    assert lens[..|lens|] == lens;
  }

  lemma LengthBytesStep(lens: seq<nat>, i: nat)
    requires i < |lens|
    ensures LengthBytes(lens[..i + 1]) == LengthBytes(lens[..i]) + BigEndian(lens[i], 4)
  {
    assert lens[..i + 1][..i] == lens[..i];
  }

  /** The slots of the first i listed ordinals hold their lengths and suffixes. */
  ghost predicate SlotsDone(lengths: seq<byte>, suffixes: seq<byte>, ordinals: seq<nat>, addrs: seq<Addr>,
      lens: seq<nat>, i: nat)
  {
    && i <= |ordinals| == |addrs| == |lens| && |lengths| == 4 * |lens| && |suffixes| == 12 * |addrs|
    && forall j :: 0 <= j < i ==>
         && ordinals[j] < |lens|
         && lengths[4 * ordinals[j]..4 * ordinals[j] + 4] == BigEndian(lens[ordinals[j]], 4)
         && suffixes[12 * ordinals[j]..12 * ordinals[j] + 12] == Suffix(addrs[ordinals[j]])
  }

  lemma SlotsStep(lengths: seq<byte>, suffixes: seq<byte>, ordinals: seq<nat>, addrs: seq<Addr>, lens: seq<nat>, i: nat)
    requires SlotsDone(lengths, suffixes, ordinals, addrs, lens, i) && i < |ordinals| && ordinals[i] < |lens|
    ensures
      var o := ordinals[i];
      SlotsDone(Overwrite(lengths, 4 * o, BigEndian(lens[o], 4)), Overwrite(suffixes, 12 * o, Suffix(addrs[o])),
        ordinals, addrs, lens, i + 1)
  {
    hide BigEndian, Suffix, Overwrite;
    var o := ordinals[i];
    var l', s' := Overwrite(lengths, 4 * o, BigEndian(lens[o], 4)), Overwrite(suffixes, 12 * o, Suffix(addrs[o]));
    forall j | 0 <= j <= i
      ensures ordinals[j] < |lens| && l'[4 * ordinals[j]..4 * ordinals[j] + 4] == BigEndian(lens[ordinals[j]], 4)
      ensures s'[12 * ordinals[j]..12 * ordinals[j] + 12] == Suffix(addrs[ordinals[j]])
    {
      var p := ordinals[j];
      if p == o {
        OverwriteAt(lengths, 4 * o, BigEndian(lens[o], 4));
        OverwriteAt(suffixes, 12 * o, Suffix(addrs[o]));
      } else {
        OverwriteKeeps(lengths, 4 * o, BigEndian(lens[o], 4), 4 * p, 4 * p + 4);
        OverwriteKeeps(suffixes, 12 * o, Suffix(addrs[o]), 12 * p, 12 * p + 12);
      }
    }
  }

  lemma SlotsEnd(lengths: seq<byte>, suffixes: seq<byte>, ordinals: seq<nat>, addrs: seq<Addr>, lens: seq<nat>)
    requires SlotsDone(lengths, suffixes, ordinals, addrs, lens, |ordinals|)
    requires forall o :: 0 <= o < |lens| ==> o in ordinals
    ensures lengths == LengthBytes(lens) && suffixes == SuffixBytes(addrs)
  {
    hide BigEndian, Suffix, LengthBytes, SuffixBytes;
    forall o | 0 <= o < |lens|
      ensures lengths[4 * o..4 * o + 4] == BigEndian(lens[o], 4) && suffixes[12 * o..12 * o + 12] == Suffix(addrs[o])
    {
      assert o in ordinals;
      var j :| 0 <= j < |ordinals| && ordinals[j] == o;
    }
    SlotsFill(lengths, lens);
    SuffixSlotsFill(suffixes, addrs);
  }

  /** Two writes into a pair of blocks are two writes into the blocks' contents. */
  lemma BlocksStep(s: seq<byte>, lp: nat, sp: nat, l: seq<byte>, x: seq<byte>, p: nat, b: seq<byte>, q: nat,
    c: seq<byte>)
    requires lp + |l| <= sp && sp + |x| <= |s| && p + |b| <= |l| && q + |c| <= |x|
    ensures Overwrite(Overwrite(Blocks(s, lp, sp, l, x), lp + p, b), sp + q, c)
         == Blocks(s, lp, sp, Overwrite(l, p, b), Overwrite(x, q, c))
  {
    hide Overwrite;
    var s1 := Overwrite(s, lp, l);
    OverwriteCommutes(s1, lp + p, b, sp, x);
    OverwriteInner(s, lp, l, p, b);
    OverwriteInner(Overwrite(s, lp, Overwrite(l, p, b)), sp, x, q, c);
  }

  /** Entry by entry in index order, each written to the slots its ordinal gives. */
  method CopyEntries(a: array<byte>, lengthsPos: nat, suffixesPos: nat, ti: OnHeapTableIndex, ordinals: seq<nat>,
                     ghost addrs: seq<Addr>, ghost lens: seq<nat>)
    requires ti.Represents(addrs, lens) && a != ti.indexBuff && a != ti.offsetB1
    requires |ordinals| == ti.chunkCount && forall i :: 0 <= i < |ordinals| ==> ordinals[i] == ti.OrdinalAt(i)
    requires lengthsPos + 4 * ti.chunkCount <= suffixesPos && suffixesPos + 12 * ti.chunkCount <= a.Length
    modifies a
    ensures a[..] == Blocks(old(a[..]), lengthsPos, suffixesPos, LengthBytes(lens), SuffixBytes(addrs))
  {
    hide *;
    ghost var start := a[..];
    ghost var l, x := start[lengthsPos..lengthsPos + 4 * ti.chunkCount],
        start[suffixesPos..suffixesPos + 12 * ti.chunkCount];
    BlocksSelf(start, lengthsPos, suffixesPos, 4 * ti.chunkCount, 12 * ti.chunkCount);
    EntryFacts(ti, ordinals, addrs, lens);
    SlotsNone(l, x, ordinals, addrs, lens);
    for i := 0 to |ordinals|
      invariant |l| == 4 * ti.chunkCount && |x| == 12 * ti.chunkCount
      invariant a[..] == Blocks(start, lengthsPos, suffixesPos, l, x)
      invariant SlotsDone(l, x, ordinals, addrs, lens, i)
    {
      var o := ordinals[i];
      var e, suffix := ti.GetIndexEntry(o), ti.SuffixAt(o);
      SlotsStep(l, x, ordinals, addrs, lens, i);
      BlocksStep(start, lengthsPos, suffixesPos, l, x, 4 * o, BigEndian(e.length, 4), 12 * o, suffix);
      l, x := Overwrite(l, 4 * o, BigEndian(e.length, 4)), Overwrite(x, 12 * o, suffix);
      Put(a, lengthsPos + 4 * o, BigEndian(e.length, 4));
      Put(a, suffixesPos + 12 * o, suffix);
    }
    SlotsEnd(l, x, ordinals, addrs, lens);
  }

  lemma BlocksSelf(s: seq<byte>, lp: nat, sp: nat, m: nat, k: nat)
    requires lp + m <= sp && sp + k <= |s|
    ensures Blocks(s, lp, sp, s[lp..lp + m], s[sp..sp + k]) == s
  {
    OverwriteSelf(s, lp, lp + m);
    OverwriteSelf(s, sp, sp + k);
  }

  lemma SlotsNone(l: seq<byte>, x: seq<byte>, ordinals: seq<nat>, addrs: seq<Addr>, lens: seq<nat>)
    requires |ordinals| == |addrs| == |lens| && |l| == 4 * |lens| && |x| == 12 * |addrs|
    ensures SlotsDone(l, x, ordinals, addrs, lens, 0)
  {
  }

  /** What the index answers for the ordinals it lists. */
  lemma EntryFacts(ti: OnHeapTableIndex, ordinals: seq<nat>, addrs: seq<Addr>, lens: seq<nat>)
    requires ti.Represents(addrs, lens)
    requires |ordinals| == ti.chunkCount && forall i :: 0 <= i < |ordinals| ==> ordinals[i] == ti.OrdinalAt(i)
    ensures ti.Valid() && |addrs| == |lens| == ti.chunkCount
    ensures forall i :: 0 <= i < |ordinals| ==> ordinals[i] < ti.chunkCount
    ensures forall o :: 0 <= o < ti.chunkCount ==> o in ordinals
    ensures forall o :: 0 <= o < ti.chunkCount ==>
              ti.GetIndexEntry(o).length == lens[o] && ti.SuffixAt(o) == Suffix(addrs[o])
    ensures forall i :: 0 <= i < |ordinals| ==> ti.PrefixAt(i) == Prefix(addrs[ordinals[i]])
    ensures forall o :: 0 <= o < ti.chunkCount ==> |Suffix(addrs[o])| == 12 && lens[o] < U32
  {
    hide Value, Sum, TuplesFor, SuffixesFor, OnHeapTableIndex.OffsetAt, OnHeapTableIndex.GetIndexEntry,
      OnHeapTableIndex.OrdinalAt, OnHeapTableIndex.SuffixAt, Prefix;
    ti.Reads(addrs, lens);
    forall o | 0 <= o < ti.chunkCount ensures o in ordinals && ti.GetIndexEntry(o).length == lens[o] {
      var i := ti.IndexOf(addrs, lens, o);
      assert ordinals[i] == o;
      ti.EntryIsExact(addrs, lens, o);
    }
  }

  // ----- The plan -----

  datatype CompactionPlan = CompactionPlan(sources: seq<SourceWithSize>, mergedIndex: array<byte>, chunkCount: nat)

  ghost function TotalCount(ss: seq<SourceWithSize>): nat
  {
    if ss == [] then 0 else TotalCount(ss[..|ss| - 1]) + |ss[|ss| - 1].source.tr.addrs|
  }

  ghost function CountOf(sources: seq<Source>): nat
  {
    if sources == [] then 0 else CountOf(sources[..|sources| - 1]) + |sources[|sources| - 1].tr.addrs|
  }

  function SourcesOf(ss: seq<SourceWithSize>): (r: seq<Source>)
    ensures |r| == |ss| && forall i :: 0 <= i < |r| ==> r[i] == ss[i].source
  {
    seq(|ss|, i requires 0 <= i < |ss| => ss[i].source)
  }

  lemma {:induction false} CountOfSources(ss: seq<SourceWithSize>)
    ensures CountOf(SourcesOf(ss)) == TotalCount(ss)
  {
    if ss != [] {
      CountOfSources(ss[..|ss| - 1]);
      assert SourcesOf(ss)[..|ss| - 1] == SourcesOf(ss[..|ss| - 1]);
    }
  }

  lemma SourcesPermuted(a: seq<SourceWithSize>, b: seq<SourceWithSize>)
    requires multiset(a) == multiset(b)
    ensures multiset(SourcesOf(a)) == multiset(SourcesOf(b))
  {
    var f := (s: SourceWithSize) => s.source;
    MapPermuted(f, a, b);
    assert SourcesOf(a) == MapSeq(f, a) && SourcesOf(b) == MapSeq(f, b);
  }

  function TotalUncompressed(sources: seq<Source>): nat
  {
    if sources == [] then 0 else TotalUncompressed(sources[..|sources| - 1]) + sources[|sources| - 1].uncompressed
  }

  ghost predicate Sized(s: SourceWithSize)
    reads s.source.tr.index.indexBuff, s.source.tr.index.offsetB1
  {
    s.source.tr.Valid() && s.dataLen == |Flatten(s.source.tr.records)|
  }

  function CalcChunkDataLen(ti: OnHeapTableIndex): nat
    requires ti.Valid()
    reads ti.indexBuff, ti.offsetB1
  {
    ti.TableFileSize() - IndexSize(ti.chunkCount) - FOOTER_SIZE
  }

  /** Larger chunk data first; ties by name. */
  predicate LargerFirst(a: SourceWithSize, b: SourceWithSize)
  {
    a.dataLen > b.dataLen || (a.dataLen == b.dataLen && a.source.hash <= b.source.hash)
  }

  /** More chunk data, or as much under a name that comes no later. */
  predicate Larger(a: SourceWithSize, b: SourceWithSize)
  {
    a.dataLen >= b.dataLen && (a.dataLen == b.dataLen ==> a.source.hash <= b.source.hash)
  }

  lemma SortedBySize(s: seq<SourceWithSize>)
    requires Sorted(s, LargerFirst)
    ensures forall i, j :: 0 <= i < j < |s| ==> Larger(s[i], s[j])
  {
  }

  lemma CountWraps(a: nat, b: nat)
    ensures (a % U32 + b) % U32 == (a + b) % U32
  {
  }

  /**
   * The count wraps around at 2^32 chunks. From there on the buffer of the plan is too small for an index of all the
   * records; and the parser cuts the right bytes out of the index of a plan exactly for fewer than 2^28 chunks.
   */
  lemma CounterExact(n: nat)
    ensures IndexSize(n % U32) == IndexSize(n) <==> n < U32
    ensures SliceBounds(n % U32) == (12 * n, 16 * n) <==> n < MAX_CHUNKS
  {
  }

  method MeasureSources(sources: seq<Source>) returns (sws: seq<SourceWithSize>, chunkCount: nat, uncompressed: nat)
    requires forall i :: 0 <= i < |sources| ==> sources[i].tr.Valid()
    ensures |sws| == |sources| && forall i :: 0 <= i < |sws| ==> sws[i].source == sources[i] && Sized(sws[i])
    ensures chunkCount == TotalCount(sws) % U32
    ensures uncompressed == TotalUncompressed(sources)
  {
    hide TableReader.Valid, Flatten, CalcChunkDataLen, OnHeapTableIndex.Represents;
    sws, chunkCount, uncompressed := [], 0, 0;
    assert sources[..0] == [];
    for i := 0 to |sources|
      invariant |sws| == i && forall k :: 0 <= k < i ==> sws[k].source == sources[k] && Sized(sws[k])
      invariant chunkCount == TotalCount(sws) % U32 && uncompressed == TotalUncompressed(sources[..i])
    {
      var src := sources[i];
      ReaderFacts(src.tr);
      var dataLen := CalcChunkDataLen(src.tr.index);
      assert sources[..i + 1][..i] == sources[..i];
      assert (sws + [SourceWithSize(src, dataLen)])[..i] == sws;
      sws := sws + [SourceWithSize(src, dataLen)];
      CountWraps(TotalCount(sws[..i]), src.tr.index.chunkCount);
      chunkCount := (chunkCount + src.tr.index.chunkCount) % U32;
      uncompressed := uncompressed + src.uncompressed;
    }
    assert sources[..|sources|] == sources;
  }

  lemma ReaderFacts(tr: TableReader)
    requires tr.Valid()
    ensures tr.index.Valid() && tr.index.chunkCount == |tr.addrs| == |tr.records| == |tr.prefixes|
    ensures tr.index.Represents(tr.addrs, Lens(tr.records))
    ensures CalcChunkDataLen(tr.index) == |Flatten(tr.records)|
    ensures Flatten(tr.records) <= tr.table
    ensures forall i :: 0 <= i < |tr.prefixes| ==> tr.prefixes[i] == tr.index.PrefixAt(i)
  {
    hide Value, Sum, TuplesFor, SuffixesFor, OnHeapTableIndex.OffsetAt;
    tr.index.TableFileSizeIsExact(tr.addrs, Lens(tr.records));
    FlattenLength(tr.records);
  }

  lemma {:induction false} CountIsLength(ss: seq<SourceWithSize>)
    requires forall i :: 0 <= i < |ss| ==> |ss[i].source.tr.addrs| == |ss[i].source.tr.records|
    ensures |AllAddrs(ss)| == |AllRecords(ss)| == TotalCount(ss)
  {
    if ss != [] {
      CountIsLength(ss[..|ss| - 1]);
    }
  }

  lemma {:induction false} CountWithout(ss: seq<SourceWithSize>, j: nat)
    requires j < |ss|
    ensures TotalCount(ss) == TotalCount(ss[..j] + ss[j + 1..]) + |ss[j].source.tr.addrs|
  {
    var k := |ss| - 1;
    if j == k {
      assert ss[..j] + ss[j + 1..] == ss[..k];
    } else {
      CountWithout(ss[..k], j);
      var w := ss[..j] + ss[j + 1..];
      assert w[..|w| - 1] == ss[..k][..j] + ss[..k][j + 1..];
      assert w[|w| - 1] == ss[k];
    }
  }

  lemma {:induction false} CountPermuted(a: seq<SourceWithSize>, b: seq<SourceWithSize>)
    requires multiset(a) == multiset(b)
    ensures TotalCount(a) == TotalCount(b)
    decreases |a|
  {
    if a == [] {
      SameMembers(a, b);
    } else {
      var j := Position(a, b);
      Rests(a, b, j);
      CountPermuted(a[1..], b[..j] + b[j + 1..]);
      CountWithout(a, 0);
      CountWithout(b, j);
      assert a[..0] + a[1..] == a[1..];
    }
  }

  /** The index records gathered so far name every address gathered so far. */
  ghost predicate Gathered(recs: seq<PrefixIndexRec>, addrs: seq<Addr>)
  {
    && |recs| == |addrs|
    && (forall j :: 0 <= j < |recs| ==> recs[j].order < |addrs| && recs[j].prefix == Prefix(addrs[recs[j].order]))
    && (forall i :: 0 <= i < |addrs| ==> Named(recs, i))
  }

  function Shift(prefixes: seq<nat>, ordinals: seq<nat>, shift: nat): (r: seq<PrefixIndexRec>)
    requires |prefixes| == |ordinals|
    ensures |r| == |prefixes|
    ensures forall j :: 0 <= j < |r| ==> r[j] == PrefixIndexRec(prefixes[j], [], shift + ordinals[j], 0)
  {
    seq(|prefixes|, j requires 0 <= j < |prefixes| => PrefixIndexRec(prefixes[j], [], shift + ordinals[j], 0))
  }

  lemma GatheredAppend(recs: seq<PrefixIndexRec>, addrs: seq<Addr>, prefixes: seq<nat>, ordinals: seq<nat>,
      added: seq<Addr>)
    requires |prefixes| == |ordinals| && Gathered(recs, addrs) && Gathered(Shift(prefixes, ordinals, 0), added)
    ensures Gathered(recs + Shift(prefixes, ordinals, |addrs|), addrs + added)
  {
    hide Prefix;
    var local, all := Shift(prefixes, ordinals, 0), recs + Shift(prefixes, ordinals, |addrs|);
    forall j | 0 <= j < |all|
      ensures all[j].order < |addrs + added| && all[j].prefix == Prefix((addrs + added)[all[j].order])
    {
      if j >= |recs| {
        var k := j - |recs|;
        assert local[k].order < |added| && all[j].order == |addrs| + local[k].order;
      }
    }
    forall i | 0 <= i < |addrs + added| ensures Named(all, i) {
      if i < |addrs| {
        assert Named(recs, i);
        var j :| 0 <= j < |recs| && recs[j].order == i;
        assert all[j].order == i;
      } else {
        assert Named(local, i - |addrs|);
        var j :| 0 <= j < |local| && local[j].order == i - |addrs|;
        assert all[|recs| + j].order == i;
      }
    }
  }

  /** The tuples of one table name all its addresses. */
  lemma SourceGathered(tr: TableReader, ordinals: seq<nat>)
    requires tr.Valid() && tr.index.Valid() && |ordinals| == tr.index.chunkCount
    requires forall i :: 0 <= i < |ordinals| ==> ordinals[i] == tr.index.OrdinalAt(i)
    ensures |tr.prefixes| == |ordinals| && Gathered(Shift(tr.prefixes, ordinals, 0), tr.addrs)
  {
    hide *;
    ReaderFacts(tr);
    EntryFacts(tr.index, ordinals, tr.addrs, Lens(tr.records));
    ListedGathered(tr.prefixes, ordinals, tr.addrs);
  }

  lemma ListedGathered(prefixes: seq<nat>, ordinals: seq<nat>, addrs: seq<Addr>)
    requires |prefixes| == |ordinals| == |addrs|
    requires forall i :: 0 <= i < |ordinals| ==> ordinals[i] < |addrs| && prefixes[i] == Prefix(addrs[ordinals[i]])
    requires forall o :: 0 <= o < |addrs| ==> o in ordinals
    ensures Gathered(Shift(prefixes, ordinals, 0), addrs)
  {
    hide Prefix;
    var local := Shift(prefixes, ordinals, 0);
    forall i | 0 <= i < |addrs| ensures Named(local, i) {
      assert i in ordinals;
      var j :| 0 <= j < |ordinals| && ordinals[j] == i;
      assert local[j].order == i;
    }
  }

  /** The prefix tuples of one source, its ordinals moved behind those of the sources before it. */
  method ShiftedRecs(prefixes: seq<nat>, ordinals: seq<nat>, ordinalOffset: nat) returns (more: seq<PrefixIndexRec>)
    requires |prefixes| == |ordinals|
    ensures more == Shift(prefixes, ordinals, ordinalOffset)
  {
    more := [];
    for j := 0 to |prefixes|
      invariant more == Shift(prefixes[..j], ordinals[..j], ordinalOffset)
    {
      more := more + [PrefixIndexRec(prefixes[j], [], ordinalOffset + ordinals[j], 0)];
    }
    assert prefixes[..|prefixes|] == prefixes && ordinals[..|prefixes|] == ordinals;
  }

  /** Copies the lengths and suffixes of one source, by the branch its index type selects; both write the same bytes. */
  method CopySource(a: array<byte>, lengthsPos: nat, suffixesPos: nat, src: Source, ordinals: seq<nat>)
    requires src.tr.Valid() && src.tr.index.Valid() && |ordinals| == src.tr.index.chunkCount
    requires forall i :: 0 <= i < |ordinals| ==> ordinals[i] == src.tr.index.OrdinalAt(i)
    requires a != src.tr.index.indexBuff && a != src.tr.index.offsetB1
    requires lengthsPos + 4 * src.tr.index.chunkCount <= suffixesPos
    requires suffixesPos + 12 * src.tr.index.chunkCount <= a.Length
    modifies a
    ensures |src.tr.addrs| == |Lens(src.tr.records)| == src.tr.index.chunkCount
    ensures a[..] == Blocks(old(a[..]), lengthsPos, suffixesPos, LengthBytes(Lens(src.tr.records)),
              SuffixBytes(src.tr.addrs))
  {
    hide *;
    ReaderFacts(src.tr);
    if src.onHeap {
      CopyOnHeap(a, lengthsPos, suffixesPos, src.tr.index, src.tr.addrs, Lens(src.tr.records));
    } else {
      CopyEntries(a, lengthsPos, suffixesPos, src.tr.index, ordinals, src.tr.addrs, Lens(src.tr.records));
    }
  }

  // The merged index as it grows: the blocks of the records so far stand in place.

  ghost predicate LengthsAt(m: seq<byte>, n: nat, lens: seq<nat>)
  {
    |lens| <= n && |m| == 28 * n + 20 && Holds(m, 12 * n, LengthBytes(lens))
  }

  ghost predicate SuffixesAt(m: seq<byte>, n: nat, addrs: seq<Addr>)
  {
    |addrs| <= n && |m| == 28 * n + 20 && Holds(m, 16 * n, SuffixBytes(addrs))
  }

  /** b stands at pos. */
  ghost predicate Holds(m: seq<byte>, pos: nat, b: seq<byte>)
  {
    pos + |b| <= |m| && m[pos..pos + |b|] == b
  }

  /** A block written right behind another one extends it. */
  lemma HoldsMore(m: seq<byte>, pos: nat, b: seq<byte>, next: nat, more: seq<byte>)
    requires Holds(m, pos, b) && next == pos + |b| && next + |more| <= |m|
    ensures Holds(Overwrite(m, next, more), pos, b + more)
  {
    var m' := Overwrite(m, next, more);
    assert m'[pos..pos + |b + more|] == m[pos..next] + more;
  }

  /** A block written elsewhere leaves this one. */
  lemma HoldsStill(m: seq<byte>, pos: nat, b: seq<byte>, at: nat, other: seq<byte>)
    requires Holds(m, pos, b) && at + |other| <= |m| && (at + |other| <= pos || pos + |b| <= at)
    ensures Holds(Overwrite(m, at, other), pos, b)
  {
    OverwriteKeeps(m, at, other, pos, pos + |b|);
  }

  lemma LengthsGrow(m: seq<byte>, n: nat, lens: seq<nat>, added: seq<nat>, x: seq<byte>)
    requires LengthsAt(m, n, lens) && |lens + added| <= n && |x| == 12 * |added|
    ensures LengthsAt(Blocks(m, 12 * n + 4 * |lens|, 16 * n + 12 * |lens|, LengthBytes(added), x), n, lens + added)
  {
    hide LengthBytes, Overwrite, Holds;
    var lp, sp, l := 12 * n + 4 * |lens|, 16 * n + 12 * |lens|, LengthBytes(added);
    LengthBytesAppend(lens, added);
    HoldsMore(m, 12 * n, LengthBytes(lens), lp, l);
    HoldsStill(Overwrite(m, lp, l), 12 * n, LengthBytes(lens + added), sp, x);
  }

  lemma SuffixesGrow(m: seq<byte>, n: nat, addrs: seq<Addr>, added: seq<Addr>, l: seq<byte>)
    requires SuffixesAt(m, n, addrs) && |addrs + added| <= n && |l| == 4 * |added|
    ensures SuffixesAt(Blocks(m, 12 * n + 4 * |addrs|, 16 * n + 12 * |addrs|, l, SuffixBytes(added)), n, addrs + added)
  {
    hide SuffixBytes, Overwrite, Holds;
    var lp, sp, x := 12 * n + 4 * |addrs|, 16 * n + 12 * |addrs|, SuffixBytes(added);
    SuffixBytesAppend(addrs, added);
    HoldsStill(m, 16 * n, SuffixBytes(addrs), lp, l);
    HoldsMore(Overwrite(m, lp, l), 16 * n, SuffixBytes(addrs), sp, x);
  }

  lemma AllStep(ss: seq<SourceWithSize>, k: nat)
    requires k < |ss|
    ensures AllAddrs(ss[..k + 1]) == AllAddrs(ss[..k]) + ss[k].source.tr.addrs
    ensures AllRecords(ss[..k + 1]) == AllRecords(ss[..k]) + ss[k].source.tr.records
    ensures Lens(AllRecords(ss[..k + 1])) == Lens(AllRecords(ss[..k])) + Lens(ss[k].source.tr.records)
  {
    assert ss[..k + 1][..k] == ss[..k];
  }

  lemma AllEnds(ss: seq<SourceWithSize>)
    ensures AllAddrs(ss[..0]) == [] && AllRecords(ss[..0]) == [] && ss[..|ss|] == ss
  {
  }

  lemma {:induction false} PartialCount(ss: seq<SourceWithSize>, k: nat)
    requires k <= |ss|
    ensures |AllAddrs(ss[..k])| <= |AllAddrs(ss)|
    decreases |ss|
  {
    if k == |ss| {
      assert ss[..k] == ss;
    } else {
      PartialCount(ss[..|ss| - 1], k);
      assert ss[..|ss| - 1][..k] == ss[..k];
    }
  }

  /** Copies every source's blocks and gathers every source's tuples, in plan order. */
  method MergeSources(a: array<byte>, n: nat, sws: seq<SourceWithSize>) returns (recs: seq<PrefixIndexRec>)
    requires forall i :: 0 <= i < |sws| ==> sws[i].source.tr.Valid()
    requires forall i :: 0 <= i < |sws| ==>
               a != sws[i].source.tr.index.indexBuff && a != sws[i].source.tr.index.offsetB1
    requires n == |AllAddrs(sws)| && a.Length == 28 * n + 20
    modifies a
    ensures Gathered(recs, AllAddrs(sws)) && LengthsAt(a[..], n, Lens(AllRecords(sws)))
    ensures SuffixesAt(a[..], n, AllAddrs(sws))
  {
    hide *;
    var lengthsPos, suffixesPos, ordinalOffset := 12 * n, 16 * n, 0;
    recs := [];
    AllEnds(sws);
    NothingMerged(a[..], n);
    for k := 0 to |sws|
      invariant ordinalOffset == |AllAddrs(sws[..k])| == |Lens(AllRecords(sws[..k]))|
      invariant lengthsPos == 12 * n + 4 * ordinalOffset && suffixesPos == 16 * n + 12 * ordinalOffset
      invariant Gathered(recs, AllAddrs(sws[..k]))
      invariant LengthsAt(a[..], n, Lens(AllRecords(sws[..k])))
      invariant SuffixesAt(a[..], n, AllAddrs(sws[..k]))
    {
      var src := sws[k].source;
      ReaderFacts(src.tr);
      AllStep(sws, k);
      PartialCount(sws, k + 1);
      var ordinals := src.tr.index.Ordinals();
      SourceGathered(src.tr, ordinals);
      GatheredAppend(recs, AllAddrs(sws[..k]), src.tr.prefixes, ordinals, src.tr.addrs);
      var more := ShiftedRecs(src.tr.prefixes, ordinals, ordinalOffset);
      recs := recs + more;
      LengthsGrow(a[..], n, Lens(AllRecords(sws[..k])), Lens(src.tr.records), SuffixBytes(src.tr.addrs));
      SuffixesGrow(a[..], n, AllAddrs(sws[..k]), src.tr.addrs, LengthBytes(Lens(src.tr.records)));
      CopySource(a, lengthsPos, suffixesPos, src, ordinals);
      ordinalOffset := ordinalOffset + src.tr.index.chunkCount;
      lengthsPos := lengthsPos + 4 * src.tr.index.chunkCount;
      suffixesPos := suffixesPos + 12 * src.tr.index.chunkCount;
    }
  }

  lemma NothingMerged(m: seq<byte>, n: nat)
    requires |m| == 28 * n + 20
    ensures Gathered([], []) && LengthsAt(m, n, Lens([])) && SuffixesAt(m, n, [])
  {
  }

  function TupleBytes(recs: seq<PrefixIndexRec>): (b: seq<byte>)
    ensures |b| == 12 * |recs|
  {
    if recs == [] then [] else TupleBytes(recs[..|recs| - 1]) + Tuple(recs[|recs| - 1])
  }

  lemma {:induction false} TupleBytesAt(recs: seq<PrefixIndexRec>, i: nat)
    requires i < |recs|
    ensures TupleBytes(recs)[12 * i..12 * i + 12] == Tuple(recs[i])
  {
    hide Tuple;
    var k := |recs| - 1;
    var a, b := TupleBytes(recs[..k]), Tuple(recs[k]);
    assert TupleBytes(recs) == a + b;
    if i < k {
      TupleBytesAt(recs[..k], i);
      assert (a + b)[12 * i..12 * i + 12] == a[12 * i..12 * i + 12];
    } else {
      assert (a + b)[12 * i..12 * i + 12] == b;
    }
  }

  lemma TupleBytesStep(recs: seq<PrefixIndexRec>, i: nat)
    requires i < |recs|
    ensures TupleBytes(recs[..i + 1]) == TupleBytes(recs[..i]) + Tuple(recs[i])
  {
    assert recs[..i + 1][..i] == recs[..i];
  }

  /** Writes the sorted tuples at the beginning of the merged index. */
  method WriteTuples(a: array<byte>, recs: seq<PrefixIndexRec>, n: nat, ghost addrs: seq<Addr>, ghost lens: seq<nat>)
    requires |recs| == n == |addrs| == |lens| && LengthsAt(a[..], n, lens) && SuffixesAt(a[..], n, addrs)
    modifies a
    ensures Holds(a[..], 0, TupleBytes(recs)) && LengthsAt(a[..], n, lens) && SuffixesAt(a[..], n, addrs)
  {
    hide TupleBytes, LengthBytes, SuffixBytes, Tuple, Overwrite, Holds;
    var pfxPos := 0;
    HoldsNothing(a[..], 0);
    assert recs[..0] == [] && TupleBytes([]) == [];
    for i := 0 to n
      invariant pfxPos == 12 * i
      invariant Holds(a[..], 0, TupleBytes(recs[..i])) && LengthsAt(a[..], n, lens) && SuffixesAt(a[..], n, addrs)
    {
      TupleBytesStep(recs, i);
      HoldsMore(a[..], 0, TupleBytes(recs[..i]), pfxPos, Tuple(recs[i]));
      HoldsStill(a[..], 12 * n, LengthBytes(lens), pfxPos, Tuple(recs[i]));
      HoldsStill(a[..], 16 * n, SuffixBytes(addrs), pfxPos, Tuple(recs[i]));
      Put(a, pfxPos, Tuple(recs[i]));
      pfxPos := pfxPos + 12;
    }
    assert recs[..n] == recs;
  }

  lemma HoldsNothing(m: seq<byte>, pos: nat)
    requires pos <= |m|
    ensures Holds(m, pos, [])
  {
  }

  lemma MergedIsIndex(m: seq<byte>, n: nat, recs: seq<PrefixIndexRec>, addrs: seq<Addr>, lens: seq<nat>)
    requires n == |addrs| == |lens| < U32 && Gathered(recs, addrs) && ByPrefix(recs)
    requires forall i :: 0 <= i < n ==> lens[i] < U32
    requires Holds(m, 0, TupleBytes(recs)) && LengthsAt(m, n, lens) && SuffixesAt(m, n, addrs)
    ensures IsIndex(m[..28 * n], addrs, lens)
  {
    hide TupleBytes, LengthBytes, SuffixBytes, Tuple, Lengths, TuplesFor, SuffixesFor, ByPrefix, Prefix;
    var b := m[..28 * n];
    assert b[..12 * n] == m[0..0 + 12 * n] == TupleBytes(recs);
    forall j | 0 <= j < |recs| ensures TupleBytes(recs)[12 * j..12 * j + 12] == Tuple(recs[j]) {
      TupleBytesAt(recs, j);
    }
    TuplesAreSorted(TupleBytes(recs), recs, addrs);
    assert b[12 * n..16 * n] == m[12 * n..12 * n + 4 * n];
    LengthsOfBytes(lens);
    assert b[16 * n..] == m[16 * n..16 * n + 12 * n];
    SuffixesOfBytes(addrs);
  }

  lemma GatheredPermuted(recs: seq<PrefixIndexRec>, sorted: seq<PrefixIndexRec>, addrs: seq<Addr>)
    requires Gathered(recs, addrs) && multiset(sorted) == multiset(recs)
    ensures Gathered(sorted, addrs)
  {
    hide Prefix;
    SameMembers(sorted, recs);
    forall j | 0 <= j < |sorted|
      ensures sorted[j].order < |addrs| && sorted[j].prefix == Prefix(addrs[sorted[j].order])
    {
      assert sorted[j] in recs;
    }
    forall i | 0 <= i < |addrs| ensures Named(sorted, i) {
      assert Named(recs, i);
      var j :| 0 <= j < |recs| && recs[j].order == i;
      assert recs[j] in sorted;
    }
  }

  /** The plan lists the sources, larger data first, and its index is the index of their records in that order. */
  ghost predicate Planned(plan: CompactionPlan, sources: seq<Source>)
    reads plan.mergedIndex
  {
    var n := |AllAddrs(plan.sources)|;
    && multiset(SourcesOf(plan.sources)) == multiset(sources)
    && (forall i, j :: 0 <= i < j < |plan.sources| ==> Larger(plan.sources[i], plan.sources[j]))
    && plan.chunkCount == n && |AllRecords(plan.sources)| == n
    && plan.mergedIndex.Length == IndexSize(n) + FOOTER_SIZE
    && IsIndex(plan.mergedIndex[..28 * n], AllAddrs(plan.sources), Lens(AllRecords(plan.sources)))
    && plan.mergedIndex[28 * n..] == Footer(n, TotalUncompressed(sources))
  }

  lemma {:induction false} SmallLens(ss: seq<SourceWithSize>)
    requires forall i :: 0 <= i < |ss| ==> ss[i].source.tr.Valid()
    ensures |AllAddrs(ss)| == |AllRecords(ss)|
    ensures forall i :: 0 <= i < |AllRecords(ss)| ==> |AllRecords(ss)[i]| < U32
  {
    hide TableReader.Valid;
    if ss != [] {
      var k := |ss| - 1;
      SmallLens(ss[..k]);
      ReaderFacts(ss[k].source.tr);
      LensBound(ss[k].source.tr);
    }
  }

  lemma LensBound(tr: TableReader)
    requires tr.Valid()
    ensures forall i :: 0 <= i < |tr.records| ==> |tr.records[i]| < U32
  {
    hide Value, Sum, TuplesFor, SuffixesFor, OnHeapTableIndex.OffsetAt, Flatten;
    forall i | 0 <= i < |tr.records| ensures |tr.records[i]| < U32 {
      assert Lens(tr.records)[i] < U32;
    }
  }

  method PlanConjoin(sources: seq<Source>) returns (plan: CompactionPlan)
    requires forall i :: 0 <= i < |sources| ==> sources[i].tr.Valid()
    requires CountOf(sources) < U32
    ensures fresh(plan.mergedIndex)
    ensures forall i :: 0 <= i < |plan.sources| ==> Sized(plan.sources[i])
    ensures Planned(plan, sources) && plan.chunkCount == CountOf(sources)
  {
    hide TableReader.Valid, TotalCount, CountOf, AllAddrs, AllRecords, IsIndex, Footer, Gathered, LengthsAt,
      SuffixesAt, Holds, ByPrefix, Overwrite;
    var measured, n, uncompressed := MeasureSources(sources);
    assert SourcesOf(measured) == sources;
    CountOfSources(measured);
    var sws := Sort(measured, LargerFirst);
    SortedBySize(sws);
    SameMembers(sws, measured);
    SourcesPermuted(sws, measured);
    CountPermuted(sws, measured);
    forall i | 0 <= i < |sws| ensures Sized(sws[i]) {
      assert sws[i] in measured;
    }
    plan := MergeInto(sws, n, uncompressed);
  }

  method MergeInto(sws: seq<SourceWithSize>, n: nat, uncompressed: nat) returns (plan: CompactionPlan)
    requires forall i :: 0 <= i < |sws| ==> Sized(sws[i])
    requires n == TotalCount(sws) < U32
    ensures plan.sources == sws && plan.chunkCount == n && fresh(plan.mergedIndex)
    ensures |AllAddrs(sws)| == |AllRecords(sws)| == n && plan.mergedIndex.Length == 28 * n + 20
    ensures IsIndex(plan.mergedIndex[..28 * n], AllAddrs(sws), Lens(AllRecords(sws)))
    ensures plan.mergedIndex[28 * n..] == Footer(n, uncompressed)
  {
    hide TableReader.Valid, TotalCount, AllAddrs, AllRecords, IsIndex, Footer, Gathered, LengthsAt, SuffixesAt,
      Holds, Overwrite, Sorted;
    SmallLens(sws);
    forall i | 0 <= i < |sws| ensures |sws[i].source.tr.addrs| == |sws[i].source.tr.records| {
      ReaderFacts(sws[i].source.tr);
    }
    CountIsLength(sws);
    ghost var addrs, lens := AllAddrs(sws), Lens(AllRecords(sws));
    var merged := new byte[IndexSize(n) + FOOTER_SIZE];
    var recs := MergeSources(merged, n, sws);
    var sorted := Sort(recs, (a: PrefixIndexRec, b: PrefixIndexRec) => a.prefix <= b.prefix);
    GatheredPermuted(recs, sorted, addrs);
    SortedByPrefix(sorted);
    GatheredCount(sorted, addrs);
    WriteTuples(merged, sorted, n, addrs, lens);
    MergedIsIndex(merged[..], n, sorted, addrs, lens);
    ghost var before := merged[..];
    OverwriteKeeps(before, 28 * n, Footer(n, uncompressed), 0, 28 * n);
    OverwriteAt(before, 28 * n, Footer(n, uncompressed));
    Put(merged, IndexSize(n), Footer(n, uncompressed));
    assert merged[..28 * n] == merged[0..28 * n] == before[..28 * n];
    plan := CompactionPlan(sws, merged, n);
  }

  lemma SortedByPrefix(recs: seq<PrefixIndexRec>)
    requires Sorted(recs, (a: PrefixIndexRec, b: PrefixIndexRec) => a.prefix <= b.prefix)
    ensures ByPrefix(recs)
  {
  }

  lemma GatheredCount(recs: seq<PrefixIndexRec>, addrs: seq<Addr>)
    requires Gathered(recs, addrs)
    ensures |recs| == |addrs|
  {
  }
}
