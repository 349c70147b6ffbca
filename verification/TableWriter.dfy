/** Writing a table file into a buffer: the chunk records, the index in prefix order, the footer and the name. */
module TableWriter {
  import opened Bytes
  import opened OffsetsReader
  import opened Options
  import opened Sorting
  import opened TableFile
  import opened TableIndex

  /** The library codecs a table depends on. */
  datatype Codec = Codec(encode: seq<byte> -> seq<byte>, decode: seq<byte> -> Option<seq<byte>>, crc: seq<byte> -> nat)

  /** The largest snappy encoding of n bytes. */
  function MaxEncodedLen(n: nat): nat { 32 + n + n / 6 }

  ghost predicate Sound(c: Codec)
  {
    && (forall d :: c.decode(c.encode(d)) == Some(d))
    && (forall d :: 0 < |c.encode(d)| <= MaxEncodedLen(|d|))
    && (forall d :: c.crc(d) < U32)
  }

  /** A chunk record: the encoded chunk and its checksum. */
  function Record(c: Codec, data: seq<byte>): seq<byte>
  {
    c.encode(data) + BigEndian(c.crc(c.encode(data)), 4)
  }

  function Records(c: Codec, datas: seq<seq<byte>>): (rs: seq<seq<byte>>)
    ensures |rs| == |datas|
    ensures forall i :: 0 <= i < |rs| ==> rs[i] == Record(c, datas[i])
  {
    seq(|datas|, i requires 0 <= i < |datas| => Record(c, datas[i]))
  }

  datatype PrefixIndexRec = PrefixIndexRec(prefix: nat, suffix: seq<byte>, order: nat, size: nat)

  /** The index record of the record with the given position, address and length. */
  function RecOf(order: nat, a: Addr, size: nat): PrefixIndexRec
  {
    PrefixIndexRec(Prefix(a), Suffix(a), order, size)
  }

  /** One index record per written record, in insertion order. */
  ghost predicate InOrder(recs: seq<PrefixIndexRec>, addrs: seq<Addr>, lens: seq<nat>)
  {
    && |recs| == |addrs| == |lens|
    && forall i :: 0 <= i < |recs| ==> recs[i] == RecOf(i, addrs[i], lens[i])
  }

  function Tuple(rec: PrefixIndexRec): (b: seq<byte>)
    ensures |b| == 12
  {
    BigEndian(rec.prefix, 8) + BigEndian(rec.order, 4)
  }

  // The parts of an index of n records that belong to the first k of the records recs.

  ghost predicate TuplesPlaced(b: seq<byte>, recs: seq<PrefixIndexRec>, k: nat)
  {
    && k <= |recs| && |b| == IndexSize(|recs|)
    && forall j :: 0 <= j < k ==> b[12 * j..12 * j + 12] == Tuple(recs[j])
  }

  ghost predicate LengthsPlaced(b: seq<byte>, recs: seq<PrefixIndexRec>, k: nat)
  {
    && k <= |recs| && |b| == IndexSize(|recs|)
    && forall j :: 0 <= j < k ==>
         recs[j].order < |recs| && LengthSlot(b, |recs|, recs[j].order) == BigEndian(recs[j].size, 4)
  }

  ghost predicate SuffixesPlaced(b: seq<byte>, recs: seq<PrefixIndexRec>, k: nat)
  {
    && k <= |recs| && |b| == IndexSize(|recs|)
    && forall j :: 0 <= j < k ==>
         recs[j].order < |recs| && SuffixSlot(b, |recs|, recs[j].order) == recs[j].suffix
  }

  function LengthSlot(b: seq<byte>, n: nat, ord: nat): seq<byte>
    requires |b| == IndexSize(n) && ord < n
  {
    b[12 * n + 4 * ord..12 * n + 4 * ord + 4]
  }

  function SuffixSlot(b: seq<byte>, n: nat, ord: nat): seq<byte>
    requires |b| == IndexSize(n) && ord < n
  {
    b[16 * n + 12 * ord..16 * n + 12 * ord + 12]
  }

  /** The three writes made for one record. */
  function Place(b: seq<byte>, n: nat, rec: PrefixIndexRec, k: nat): (r: seq<byte>)
    requires |b| == IndexSize(n) && k < n && rec.order < n && |rec.suffix| == 12
    ensures |r| == |b|
  {
    Overwrite(Overwrite(Overwrite(b, 12 * k, Tuple(rec)),
                        12 * n + 4 * rec.order, BigEndian(rec.size, 4)),
              16 * n + 12 * rec.order, rec.suffix)
  }

  lemma OverwriteKeeps(s: seq<byte>, pos: nat, b: seq<byte>, lo: nat, hi: nat)
    requires pos + |b| <= |s| && lo <= hi <= |s| && (hi <= pos || pos + |b| <= lo)
    ensures Overwrite(s, pos, b)[lo..hi] == s[lo..hi]
  {
  }

  lemma OverwriteAt(s: seq<byte>, pos: nat, b: seq<byte>)
    requires pos + |b| <= |s|
    ensures Overwrite(s, pos, b)[pos..pos + |b|] == b
  {
  }

  // Placing the next record keeps what was placed before it.

  lemma PlaceTuple(b: seq<byte>, recs: seq<PrefixIndexRec>, k: nat)
    requires TuplesPlaced(b, recs, k) && k < |recs| && recs[k].order < |recs| && |recs[k].suffix| == 12
    ensures TuplesPlaced(Place(b, |recs|, recs[k], k), recs, k + 1)
  {
    hide Overwrite, BigEndian, Tuple;
    var n, rec := |recs|, recs[k];
    var b1 := Overwrite(b, 12 * k, Tuple(rec));
    var b2 := Overwrite(b1, 12 * n + 4 * rec.order, BigEndian(rec.size, 4));
    forall j | 0 <= j <= k ensures Place(b, n, rec, k)[12 * j..12 * j + 12] == Tuple(recs[j]) {
      if j < k {
        OverwriteKeeps(b, 12 * k, Tuple(rec), 12 * j, 12 * j + 12);
      } else {
        OverwriteAt(b, 12 * k, Tuple(rec));
      }
      OverwriteKeeps(b1, 12 * n + 4 * rec.order, BigEndian(rec.size, 4), 12 * j, 12 * j + 12);
      OverwriteKeeps(b2, 16 * n + 12 * rec.order, rec.suffix, 12 * j, 12 * j + 12);
    }
  }

  lemma PlaceLength(b: seq<byte>, recs: seq<PrefixIndexRec>, k: nat)
    requires LengthsPlaced(b, recs, k) && k < |recs| && recs[k].order < |recs| && |recs[k].suffix| == 12
    requires forall j :: 0 <= j < k ==> recs[j].order != recs[k].order
    ensures LengthsPlaced(Place(b, |recs|, recs[k], k), recs, k + 1)
  {
    hide Overwrite, BigEndian, Tuple;
    var n, rec := |recs|, recs[k];
    var b1 := Overwrite(b, 12 * k, Tuple(rec));
    var b2 := Overwrite(b1, 12 * n + 4 * rec.order, BigEndian(rec.size, 4));
    forall j | 0 <= j <= k
      ensures LengthSlot(Place(b, n, rec, k), n, recs[j].order) == BigEndian(recs[j].size, 4)
    {
      var lo := 12 * n + 4 * recs[j].order;
      OverwriteKeeps(b, 12 * k, Tuple(rec), lo, lo + 4);
      if j < k {
        OverwriteKeeps(b1, 12 * n + 4 * rec.order, BigEndian(rec.size, 4), lo, lo + 4);
      } else {
        OverwriteAt(b1, lo, BigEndian(rec.size, 4));
      }
      OverwriteKeeps(b2, 16 * n + 12 * rec.order, rec.suffix, lo, lo + 4);
    }
  }

  lemma PlaceSuffix(b: seq<byte>, recs: seq<PrefixIndexRec>, k: nat)
    requires SuffixesPlaced(b, recs, k) && k < |recs| && recs[k].order < |recs| && |recs[k].suffix| == 12
    requires forall j :: 0 <= j < k ==> recs[j].order != recs[k].order
    ensures SuffixesPlaced(Place(b, |recs|, recs[k], k), recs, k + 1)
  {
    hide Overwrite, BigEndian, Tuple;
    var n, rec := |recs|, recs[k];
    var b1 := Overwrite(b, 12 * k, Tuple(rec));
    var b2 := Overwrite(b1, 12 * n + 4 * rec.order, BigEndian(rec.size, 4));
    forall j | 0 <= j <= k ensures SuffixSlot(Place(b, n, rec, k), n, recs[j].order) == recs[j].suffix {
      var lo := 16 * n + 12 * recs[j].order;
      OverwriteKeeps(b, 12 * k, Tuple(rec), lo, lo + 12);
      OverwriteKeeps(b1, 12 * n + 4 * rec.order, BigEndian(rec.size, 4), lo, lo + 12);
      if j < k {
        OverwriteKeeps(b2, 16 * n + 12 * rec.order, rec.suffix, lo, lo + 12);
      } else {
        OverwriteAt(b2, lo, rec.suffix);
      }
    }
  }

  ghost predicate ByPrefix(recs: seq<PrefixIndexRec>)
  {
    forall i, j :: 0 <= i < j < |recs| ==> recs[i].prefix <= recs[j].prefix
  }

  /** Every record names an address by position and carries its prefix, and every position is named. */
  ghost predicate Covers(recs: seq<PrefixIndexRec>, addrs: seq<Addr>)
  {
    && |recs| == |addrs| < U32
    && (forall j :: 0 <= j < |recs| ==> recs[j].order < |addrs| && recs[j].prefix == Prefix(addrs[recs[j].order]))
    && (forall i :: 0 <= i < |addrs| ==> Named(recs, i))
  }

  ghost predicate Named(recs: seq<PrefixIndexRec>, i: nat)
  {
    exists j :: 0 <= j < |recs| && recs[j].order == i
  }

  lemma TupleFields(t: seq<byte>, rec: PrefixIndexRec)
    requires t == Tuple(rec) && rec.prefix < U64 && rec.order < U32
    ensures Value(t[..8]) == rec.prefix && Value(t[8..12]) == rec.order
  {
    Widths();
    ValueOfBigEndian(rec.prefix, 8);
    ValueOfBigEndian(rec.order, 4);
    assert t[..8] == BigEndian(rec.prefix, 8) && t[8..12] == BigEndian(rec.order, 4);
  }

  lemma PrefixBound(a: Addr)
    ensures Prefix(a) < U64
  {
    BigEndianOfValue(a[..8]);
    Widths();
  }

  /** Sorted tuples are what a lookup needs. */
  lemma TuplesAreSorted(tuples: seq<byte>, recs: seq<PrefixIndexRec>, addrs: seq<Addr>)
    requires Covers(recs, addrs) && ByPrefix(recs) && |tuples| == 12 * |recs|
    requires forall j :: 0 <= j < |recs| ==> tuples[12 * j..12 * j + 12] == Tuple(recs[j])
    ensures TuplesFor(tuples, addrs)
  {
    hide Value, Tuple, Prefix;
    forall j | 0 <= j < |recs|
      ensures PrefixIn(tuples, j) == recs[j].prefix && OrdinalIn(tuples, j) == recs[j].order
    {
      PrefixBound(addrs[recs[j].order]);
      TupleFields(tuples[12 * j..12 * j + 12], recs[j]);
      Sub(tuples, 12 * j, 12 * j + 12, 0, 8);
      Sub(tuples, 12 * j, 12 * j + 12, 8, 12);
    }
    forall ord | 0 <= ord < |addrs| ensures Listed(tuples, ord) {
      assert Named(recs, ord);
      var j :| 0 <= j < |recs| && recs[j].order == ord;
      assert OrdinalIn(tuples, j) == ord;
    }
  }

  /** A sorted permutation of the insertion-order records still covers every address once. */
  lemma PermutationCovers(recs: seq<PrefixIndexRec>, sorted: seq<PrefixIndexRec>, addrs: seq<Addr>, lens: seq<nat>)
    requires InOrder(recs, addrs, lens) && |addrs| < U32 && multiset(sorted) == multiset(recs)
    ensures Covers(sorted, addrs)
    ensures forall j :: 0 <= j < |sorted| ==>
              sorted[j] == RecOf(sorted[j].order, addrs[sorted[j].order], lens[sorted[j].order])
    ensures forall i, j :: 0 <= i < j < |sorted| ==> sorted[i].order != sorted[j].order
  {
    SameMembers(sorted, recs);
    DistinctPermutation(recs, sorted);
    forall j | 0 <= j < |sorted|
      ensures sorted[j].order < |addrs|
      ensures sorted[j] == RecOf(sorted[j].order, addrs[sorted[j].order], lens[sorted[j].order])
    {
      assert sorted[j] in recs;
    }
    forall i | 0 <= i < |addrs| ensures Named(sorted, i) {
      assert recs[i] in sorted;
    }
  }

  /** Once all records are placed the bytes are an index of them. */
  lemma PlacedIsIndex(b: seq<byte>, sorted: seq<PrefixIndexRec>, addrs: seq<Addr>, lens: seq<nat>)
    requires Covers(sorted, addrs) && ByPrefix(sorted) && |lens| == |addrs|
    requires forall j :: 0 <= j < |sorted| ==>
               sorted[j] == RecOf(sorted[j].order, addrs[sorted[j].order], lens[sorted[j].order])
    requires forall i :: 0 <= i < |lens| ==> lens[i] < U32
    requires TuplesPlaced(b, sorted, |sorted|) && LengthsPlaced(b, sorted, |sorted|)
    requires SuffixesPlaced(b, sorted, |sorted|)
    ensures IsIndex(b, addrs, lens)
  {
    hide TuplesFor, SuffixesFor, Lengths, TuplesPlaced, LengthsPlaced, SuffixesPlaced, Covers, ByPrefix, RecOf;
    PlacedTuples(b, sorted, addrs);
    PlacedLengths(b, sorted, addrs, lens);
    PlacedSuffixes(b, sorted, addrs, lens);
  }

  lemma PlacedTuples(b: seq<byte>, sorted: seq<PrefixIndexRec>, addrs: seq<Addr>)
    requires Covers(sorted, addrs) && ByPrefix(sorted) && TuplesPlaced(b, sorted, |sorted|)
    ensures |b| == IndexSize(|addrs|) && TuplesFor(b[..12 * |addrs|], addrs)
  {
    hide Tuple, TuplesFor;
    var n := |addrs|;
    forall j | 0 <= j < n ensures b[..12 * n][12 * j..12 * j + 12] == Tuple(sorted[j]) {
      Sub(b, 0, 12 * n, 12 * j, 12 * j + 12);
    }
    TuplesAreSorted(b[..12 * n], sorted, addrs);
  }

  lemma PlacedLengths(b: seq<byte>, sorted: seq<PrefixIndexRec>, addrs: seq<Addr>, lens: seq<nat>)
    requires Covers(sorted, addrs) && |lens| == |addrs| && LengthsPlaced(b, sorted, |sorted|)
    requires forall j :: 0 <= j < |sorted| ==>
               sorted[j] == RecOf(sorted[j].order, addrs[sorted[j].order], lens[sorted[j].order])
    requires forall i :: 0 <= i < |lens| ==> lens[i] < U32
    ensures |b| == IndexSize(|addrs|) && Lengths(b[12 * |addrs|..16 * |addrs|]) == lens
  {
    hide BigEndian, Lengths, LengthSlot, Prefix, Suffix;
    var n := |addrs|;
    forall i | 0 <= i < n ensures LengthSlot(b, n, i) == BigEndian(lens[i], 4) {
      assert Named(sorted, i);
      var j :| 0 <= j < |sorted| && sorted[j].order == i;
    }
    SlotsAreLengths(b, n, lens);
  }

  lemma PlacedSuffixes(b: seq<byte>, sorted: seq<PrefixIndexRec>, addrs: seq<Addr>, lens: seq<nat>)
    requires Covers(sorted, addrs) && |lens| == |addrs| && SuffixesPlaced(b, sorted, |sorted|)
    requires forall j :: 0 <= j < |sorted| ==>
               sorted[j] == RecOf(sorted[j].order, addrs[sorted[j].order], lens[sorted[j].order])
    ensures |b| == IndexSize(|addrs|) && SuffixesFor(b[16 * |addrs|..], addrs)
  {
    hide Prefix, Suffix;
    var n := |addrs|;
    assert b[16 * n..] == b[16 * n..28 * n];
    forall i | 0 <= i < n ensures b[16 * n..28 * n][12 * i..12 * i + 12] == Suffix(addrs[i]) {
      assert Named(sorted, i);
      var j :| 0 <= j < |sorted| && sorted[j].order == i;
      assert SuffixSlot(b, n, i) == Suffix(addrs[i]);
      Sub(b, 16 * n, 28 * n, 12 * i, 12 * i + 12);
    }
  }

  lemma SlotsAreLengths(b: seq<byte>, n: nat, lens: seq<nat>)
    requires |b| == IndexSize(n) && |lens| == n
    requires forall i :: 0 <= i < n ==> lens[i] < U32 && LengthSlot(b, n, i) == BigEndian(lens[i], 4)
    ensures Lengths(b[12 * n..16 * n]) == lens
  {
    hide Value, BigEndian;
    var lengths := b[12 * n..16 * n];
    forall i | 0 <= i < n ensures Lengths(lengths)[i] == lens[i] {
      Sub(b, 12 * n, 16 * n, 4 * i, 4 * i + 4);
      assert LengthSlot(b, n, i) == lengths[4 * i..4 * i + 4];
      Widths();
      ValueOfBigEndian(lens[i], 4);
    }
  }

  /** A write inside a region is a write to the region. */
  lemma OverwriteRegion(s: seq<byte>, base: nat, len: nat, rel: nat, b: seq<byte>)
    requires base + len <= |s| && rel + |b| <= len
    ensures Overwrite(s, base + rel, b)[base..base + len] == Overwrite(s[base..base + len], rel, b)
    ensures Overwrite(s, base + rel, b)[..base] == s[..base]
  {
  }

  class TableWriter {
    const buff: array<byte>
    const codec: Codec
    const sha: seq<byte> -> Addr
    var pos: nat
    var totalCompressedData: nat
    var totalUncompressedData: nat
    var prefixes: seq<PrefixIndexRec>
    ghost var addrs: seq<Addr>
    ghost var datas: seq<seq<byte>>

    /** The buffer holds the records added so far, back to back, with one index record each. */
    ghost predicate Valid()
      reads this, buff
    {
      && |addrs| == |datas| && pos <= buff.Length
      && buff[..pos] == Flatten(Records(codec, datas))
      && InOrder(prefixes, addrs, Lens(Records(codec, datas)))
      && (forall i :: 0 <= i < |datas| ==> |Record(codec, datas[i])| < U32)
    }

    constructor (buff: array<byte>, codec: Codec, sha: seq<byte> -> Addr)
      ensures Valid() && this.buff == buff && this.codec == codec && this.sha == sha
      ensures addrs == [] && datas == [] && pos == 0 && totalUncompressedData == 0 && totalCompressedData == 0
    {
      this.buff := buff;
      this.codec := codec;
      this.sha := sha;
      pos, totalCompressedData, totalUncompressedData, prefixes := 0, 0, 0, [];
      addrs, datas := [], [];
    }

    method AddChunk(h: Addr, data: seq<byte>)
      requires Valid() && Sound(codec) && |data| > 0
      requires pos + MaxEncodedLen(|data|) + 4 <= buff.Length
      requires MaxEncodedLen(|data|) + 4 < U32
      modifies this, buff
      ensures Valid() && addrs == old(addrs) + [h] && datas == old(datas) + [data]
      ensures pos == old(pos) + |Record(codec, data)|
      ensures totalUncompressedData == old(totalUncompressedData) + |data|
      ensures totalCompressedData == old(totalCompressedData) + |codec.encode(data)|
    {
      hide Flatten, BigEndian, Prefix, Suffix, InOrder, Record, Overwrite;
      ghost var before, rs := buff[..], Records(codec, datas);
      var compressed := codec.encode(data);
      RecordIs(codec, data);
      Put(buff, pos, compressed);
      totalCompressedData := totalCompressedData + |compressed|;
      pos := pos + |compressed|;
      totalUncompressedData := totalUncompressedData + |data|;
      ghost var sum := BigEndian(codec.crc(compressed), 4);
      TwoWrites(before, old(pos), compressed, sum);
      Put(buff, pos, BigEndian(codec.crc(compressed), 4));
      pos := pos + 4;
      OrderedAdd(prefixes, addrs, Lens(rs), h, 4 + |compressed|);
      prefixes := prefixes + [RecOf(|prefixes|, h, 4 + |compressed|)];
      addrs, datas := addrs + [h], datas + [data];
      FlattenOne(rs, Record(codec, data));
      assert Records(codec, datas) == rs + [Record(codec, data)];
      assert Lens(Records(codec, datas)) == Lens(rs) + [4 + |compressed|];
      assert buff[..pos] == before[..old(pos)] + Record(codec, data);
    }

    /** Sorts the index records by prefix and writes the index behind the chunk data. */
    method WriteIndex()
      requires Valid() && |addrs| < U32 && pos + IndexSize(|addrs|) <= buff.Length
      modifies this, buff
      ensures addrs == old(addrs) && datas == old(datas) && totalUncompressedData == old(totalUncompressedData)
      ensures |prefixes| == |addrs|
      ensures pos == old(pos) + IndexSize(|addrs|)
      ensures buff[..old(pos)] == old(buff[..pos])
      ensures IsIndex(buff[old(pos)..pos], addrs, Lens(Records(codec, datas)))
    {
      hide Flatten, BigEndian, Tuple, Overwrite, TuplesPlaced, LengthsPlaced, SuffixesPlaced, IsIndex, InOrder,
        Prefix, Suffix, Sorted;
      ghost var lens, unsorted := Lens(Records(codec, datas)), prefixes;
      prefixes := Sort(prefixes, (a: PrefixIndexRec, b: PrefixIndexRec) => a.prefix <= b.prefix);
      ghost var base, sorted := pos, prefixes;
      PermutationCovers(unsorted, sorted, addrs, lens);
      WriteSorted(lens);
    }

    /** Places the sorted index records one after the other. */
    method WriteSorted(ghost lens: seq<nat>)
      requires pos + IndexSize(|prefixes|) <= buff.Length
      requires Sorted(prefixes, (a: PrefixIndexRec, b: PrefixIndexRec) => a.prefix <= b.prefix)
      requires Covers(prefixes, addrs) && |lens| == |addrs| && forall i :: 0 <= i < |lens| ==> lens[i] < U32
      requires forall j :: 0 <= j < |prefixes| ==>
                 prefixes[j] == RecOf(prefixes[j].order, addrs[prefixes[j].order], lens[prefixes[j].order])
      requires forall i, j :: 0 <= i < j < |prefixes| ==> prefixes[i].order != prefixes[j].order
      modifies this`pos, buff
      ensures pos == old(pos) + IndexSize(|addrs|)
      ensures buff[..old(pos)] == old(buff[..pos])
      ensures IsIndex(buff[old(pos)..pos], addrs, lens)
    {
      hide Flatten, BigEndian, Tuple, Overwrite, TuplesPlaced, LengthsPlaced, SuffixesPlaced, IsIndex, Prefix,
        Suffix, Place;
      var n := |prefixes|;
      ghost var base := pos;
      NothingPlaced(buff[base..base + 28 * n], prefixes);
      for k := 0 to n
        invariant pos == base + 12 * k
        invariant buff[..base] == old(buff[..pos])
        invariant TuplesPlaced(buff[base..base + 28 * n], prefixes, k)
        invariant LengthsPlaced(buff[base..base + 28 * n], prefixes, k)
        invariant SuffixesPlaced(buff[base..base + 28 * n], prefixes, k)
      {
        ghost var region := buff[base..base + 28 * n];
        assert |prefixes[k].suffix| == 12;
        PlaceRecord(prefixes[k], n, k, base);
        PlaceTuple(region, prefixes, k);
        PlaceLength(region, prefixes, k);
        PlaceSuffix(region, prefixes, k);
      }
      PlacedIsIndex(buff[base..base + 28 * n], prefixes, addrs, lens);
      pos := pos + 16 * n;
    }

    /** Writes the tuple of one record at pos, and its length and suffix at the places its ordinal gives. */
    method PlaceRecord(pi: PrefixIndexRec, n: nat, k: nat, ghost base: nat)
      requires k < n && pi.order < n && |pi.suffix| == 12
      requires pos == base + 12 * k && base + IndexSize(n) <= buff.Length
      modifies this`pos, buff
      ensures pos == old(pos) + 12
      ensures buff[..base] == old(buff[..base])
      ensures buff[base..base + 28 * n] == Place(old(buff[base..base + 28 * n]), n, pi, k)
    {
      hide Overwrite, BigEndian, Tuple;
      var lengthsOffset, suffixesOffset := pos - 12 * k + 12 * n, pos - 12 * k + 16 * n;
      ghost var b0 := buff[..];
      OverwriteRegion(b0, base, 28 * n, 12 * k, Tuple(pi));
      Put(buff, pos, Tuple(pi));
      pos := pos + 12;
      ghost var b1 := buff[..];
      OverwriteRegion(b1, base, 28 * n, 12 * n + 4 * pi.order, BigEndian(pi.size, 4));
      Put(buff, lengthsOffset + 4 * pi.order, BigEndian(pi.size, 4));
      ghost var b2 := buff[..];
      OverwriteRegion(b2, base, 28 * n, 16 * n + 12 * pi.order, pi.suffix);
      Put(buff, suffixesOffset + 12 * pi.order, pi.suffix);
    }

    /** Completes the table: index, footer, and the name taken from the suffixes. */
    method Finish() returns (length: nat, name: Addr)
      requires Valid() && |addrs| < U32 && pos + IndexSize(|addrs|) + FOOTER_SIZE <= buff.Length
      modifies this, buff
      ensures addrs == old(addrs) && datas == old(datas)
      ensures length <= buff.Length
      ensures IsTable(buff[..length], addrs, Records(codec, datas), old(totalUncompressedData))
      ensures FOOTER_SIZE + 12 * |addrs| <= length
      ensures name == sha(buff[length - FOOTER_SIZE - 12 * |addrs|..length - FOOTER_SIZE])
    {
      hide Flatten, BigEndian, IsIndex, InOrder, Footer, Overwrite, IsTable, Records, Lens;
      ghost var rs, u := Records(codec, datas), totalUncompressedData;
      WriteIndex();
      ghost var d, end := old(pos), pos;
      name := sha(buff[pos - 12 * |prefixes|..pos]);
      ghost var before := buff[..];
      assert before[..d] == Flatten(rs) && before[d..end] == buff[d..end];
      Put(buff, pos, Footer(|prefixes|, totalUncompressedData));
      FooterAppended(before, end, Footer(|addrs|, u));
      pos := pos + FOOTER_SIZE;
      length := pos;
      assert buff[..length] == before[..end] + Footer(|addrs|, u);
      Finished(before[..end], d, addrs, rs, u);
      OverwriteKeeps(before, end, Footer(|addrs|, u), end - 12 * |addrs|, end);
      assert buff[end - 12 * |addrs|..end] == buff[..][end - 12 * |addrs|..end];
    }
  }

  lemma RecordIs(c: Codec, data: seq<byte>)
    ensures Record(c, data) == c.encode(data) + BigEndian(c.crc(c.encode(data)), 4)
    ensures |Record(c, data)| == |c.encode(data)| + 4
  {
  }

  lemma TwoWrites(s: seq<byte>, pos: nat, a: seq<byte>, b: seq<byte>)
    requires pos + |a| + |b| <= |s|
    ensures Overwrite(Overwrite(s, pos, a), pos + |a|, b)[..pos + |a| + |b|] == s[..pos] + (a + b)
  {
  }

  lemma OrderedAdd(recs: seq<PrefixIndexRec>, addrs: seq<Addr>, lens: seq<nat>, h: Addr, size: nat)
    requires InOrder(recs, addrs, lens)
    ensures |recs| == |addrs| && InOrder(recs + [RecOf(|recs|, h, size)], addrs + [h], lens + [size])
  {
  }

  lemma FooterAppended(before: seq<byte>, end: nat, f: seq<byte>)
    requires end + |f| <= |before|
    ensures Overwrite(before, end, f)[..end + |f|] == before[..end] + f
  {
  }

  /** Data, index and footer make a table. */
  lemma Finished(body: seq<byte>, d: nat, addrs: seq<Addr>, rs: seq<seq<byte>>, u: nat)
    requires d <= |body| && body[..d] == Flatten(rs) && IsIndex(body[d..], addrs, Lens(rs))
    ensures IsTable(body + Footer(|addrs|, u), addrs, rs, u)
  {
    hide Flatten, Footer, TuplesFor, SuffixesFor, Lengths, Lens;
    var t := body + Footer(|addrs|, u);
    assert |body| == d + IndexSize(|addrs|);
    assert t[..d] == body[..d];
    assert t[d..d + IndexSize(|addrs|)] == body[d..];
    assert t[d + IndexSize(|addrs|)..] == Footer(|addrs|, u);
  }

  lemma FlattenOne(rs: seq<seq<byte>>, r: seq<byte>)
    ensures Flatten(rs + [r]) == Flatten(rs) + r
  {
    assert (rs + [r])[..|rs|] == rs;
  }

  lemma NothingPlaced(b: seq<byte>, recs: seq<PrefixIndexRec>)
    requires |b| == IndexSize(|recs|)
    ensures TuplesPlaced(b, recs, 0) && LengthsPlaced(b, recs, 0) && SuffixesPlaced(b, recs, 0)
  {
  }
}
