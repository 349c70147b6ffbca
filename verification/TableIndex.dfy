/** The index of an NBS table. */
module TableIndex {

  // Its byte layout, parsing it in place, and looking addresses up in it.

  import opened Bytes
  import opened OffsetsReader
  import opened Options

  /** A 20-byte chunk address. */
  type Addr = a: seq<byte> | |a| == 20 witness seq(20, _ => 0)

  const MAX_CHUNKS: nat := 0x1000_0000
  const FOOTER_SIZE: nat := 20
  const MAGIC: seq<byte> := [0xff, 0xb5, 0xd8, 0xc2, 0x24, 0x63, 0xee, 0x50]

  function Prefix(a: Addr): nat { Value(a[..8]) }

  function Suffix(a: Addr): (s: seq<byte>)
    ensures |s| == 12
  {
    a[8..]
  }

  function IndexSize(n: nat): nat { 28 * n }

  // ----- The layout: n (prefix, ordinal) tuples, then n lengths, then n suffixes -----

  function PrefixIn(tuples: seq<byte>, idx: nat): nat
    requires 12 * idx + 12 <= |tuples|
  {
    Value(tuples[12 * idx..12 * idx + 8])
  }

  function OrdinalIn(tuples: seq<byte>, idx: nat): nat
    requires 12 * idx + 12 <= |tuples|
  {
    Value(tuples[12 * idx + 8..12 * idx + 12])
  }

  /** The tuples list, in prefix order, every position of addrs once or more, each beside its own prefix. */
  ghost predicate TuplesFor(tuples: seq<byte>, addrs: seq<Addr>)
  {
    && |tuples| == 12 * |addrs|
    && (forall i :: 0 <= i < |addrs| ==>
          OrdinalIn(tuples, i) < |addrs| && PrefixIn(tuples, i) == Prefix(addrs[OrdinalIn(tuples, i)]))
    && (forall i, j :: 0 <= i < j < |addrs| ==> PrefixIn(tuples, i) <= PrefixIn(tuples, j))
    && (forall ord :: 0 <= ord < |addrs| ==> Listed(tuples, ord))
  }

  ghost predicate Listed(tuples: seq<byte>, ord: nat)
  {
    exists i :: 0 <= i && 12 * i + 12 <= |tuples| && OrdinalIn(tuples, i) == ord
  }

  ghost predicate SuffixesFor(suffixes: seq<byte>, addrs: seq<Addr>)
  {
    && |suffixes| == 12 * |addrs|
    && forall i :: 0 <= i < |addrs| ==> suffixes[12 * i..12 * i + 12] == Suffix(addrs[i])
  }

  /** b is an index of records at addrs with the given lengths, in record order. */
  ghost predicate IsIndex(b: seq<byte>, addrs: seq<Addr>, lens: seq<nat>)
  {
    var n := |addrs|;
    && |b| == IndexSize(n) && |lens| == n
    && TuplesFor(b[..12 * n], addrs)
    && Lengths(b[12 * n..16 * n]) == lens
    && SuffixesFor(b[16 * n..], addrs)
  }

  function Footer(n: nat, uncompressed: nat): (f: seq<byte>)
    ensures |f| == FOOTER_SIZE
  {
    BigEndian(n, 4) + BigEndian(uncompressed, 8) + MAGIC
  }

  // ----- 32-bit slice bounds -----

  /** The bounds of the lengths as the code computes them, in unsigned 32-bit arithmetic. */
  function SliceBounds(n: nat): (nat, nat)
  {
    (12 * n % U32, (12 * n % U32 + 4 * n % U32) % U32)
  }

  /** The slices are the intended ones exactly for fewer than 2^28 chunks. */
  lemma SliceBoundsExact(n: nat)
    requires n < U32
    ensures SliceBounds(n) == (12 * n, 16 * n) <==> n < MAX_CHUNKS
  {
  }

  /** A request for one address; the requests of a batch are sorted by prefix before they are answered. */
  datatype HasRecord = HasRecord(a: Addr, prefix: nat, order: nat, has: bool)

  datatype IndexEntry = IndexEntry(offset: nat, length: nat)
  datatype ParseError = ErrShortBuffer | ErrInvalidTableFile | ErrWrongBufferSize
  datatype Result<+T> = Ok(value: T) | Err(error: ParseError)

  // ----- Parsed index -----

  class OnHeapTableIndex {
    const indexBuff: array<byte>
    const offsetB1: array<byte>
    const chunkCount: nat
    const totalUncompressedData: nat

    ghost predicate Valid()
    {
      && chunkCount < MAX_CHUNKS
      && IndexSize(chunkCount) <= indexBuff.Length
      && offsetB1.Length == 8 * (chunkCount - chunkCount / 2)
    }

    /** The index answers for records at addrs with the given lengths. */
    ghost predicate Represents(addrs: seq<Addr>, lens: seq<nat>)
      reads indexBuff, offsetB1
    {
      && Valid() && |addrs| == |lens| == chunkCount
      && TuplesFor(indexBuff[..12 * chunkCount], addrs)
      && SuffixesFor(indexBuff[16 * chunkCount..28 * chunkCount], addrs)
      && (forall i :: 0 <= i < chunkCount ==> lens[i] < U32)
      && (forall i :: 0 <= i < chunkCount ==> OffsetAt(i) == Sum(lens[..i + 1]))
    }

    function PrefixAt(idx: nat): nat
      requires Valid() && idx < chunkCount
      reads indexBuff
    {
      Value(indexBuff[12 * idx..12 * idx + 8])
    }

    function OrdinalAt(idx: nat): nat
      requires Valid() && idx < chunkCount
      reads indexBuff
    {
      Value(indexBuff[12 * idx + 8..12 * idx + 12])
    }

    /** The first half of the offsets is in the extra buffer, the rest where the lengths used to be. */
    function OffsetAt(ord: nat): nat
      requires Valid() && ord < chunkCount
      reads indexBuff, offsetB1
    {
      var chunks1 := chunkCount - chunkCount / 2;
      if ord < chunks1 then Value(offsetB1[8 * ord..8 * ord + 8])
      else
        var off := 12 * chunkCount + 8 * (ord - chunks1);
        Value(indexBuff[off..off + 8])
    }

    function SuffixAt(ord: nat): seq<byte>
      requires Valid() && ord < chunkCount
      reads indexBuff
    {
      indexBuff[16 * chunkCount + 12 * ord..16 * chunkCount + 12 * ord + 12]
    }

    predicate EntrySuffixMatches(idx: nat, h: Addr)
      requires Valid() && idx < chunkCount && OrdinalAt(idx) < chunkCount
      reads indexBuff
    {
      SuffixAt(OrdinalAt(idx)) == Suffix(h)
    }

    function GetIndexEntry(ord: nat): IndexEntry
      requires Valid() && ord < chunkCount
      reads indexBuff, offsetB1
    {
      var prev := if ord == 0 then 0 else OffsetAt(ord - 1);
      IndexEntry(prev, (OffsetAt(ord) - prev) % U32)
    }

    constructor (indexBuff: array<byte>, offsetB1: array<byte>, chunkCount: nat, totalUncompressedData: nat)
      ensures this.indexBuff == indexBuff && this.offsetB1 == offsetB1
      ensures this.chunkCount == chunkCount && this.totalUncompressedData == totalUncompressedData
    {
      this.indexBuff := indexBuff;
      this.offsetB1 := offsetB1;
      this.chunkCount := chunkCount;
      this.totalUncompressedData := totalUncompressedData;
    }

    /** The entry of a record is exactly its place in the chunk data. */
    lemma EntryIsExact(addrs: seq<Addr>, lens: seq<nat>, ord: nat)
      requires Represents(addrs, lens) && ord < chunkCount
      ensures GetIndexEntry(ord) == IndexEntry(Sum(lens[..ord]), lens[ord])
    {
      hide Value, TuplesFor, SuffixesFor;
      SumStep(lens, ord);
      assert lens[..0] == [];
      if ord > 0 {
        assert OffsetAt(ord - 1) == Sum(lens[..ord]);
      }
    }

    /** The first position whose prefix is at least `prefix`. */
    method PrefixIdx(prefix: nat) returns (idx: nat)
      requires Valid()
      requires forall i, j :: 0 <= i < j < chunkCount ==> PrefixAt(i) <= PrefixAt(j)
      ensures idx <= chunkCount
      ensures forall i :: 0 <= i < idx ==> PrefixAt(i) < prefix
      ensures forall i :: idx <= i < chunkCount ==> PrefixAt(i) >= prefix
    {
      idx := 0;
      var j := chunkCount;
      while idx < j
        invariant idx <= j <= chunkCount
        invariant forall i :: 0 <= i < idx ==> PrefixAt(i) < prefix
        invariant forall i :: j <= i < chunkCount ==> PrefixAt(i) >= prefix
      {
        hide Value;
        var h := idx + (j - idx) / 2;
        if PrefixAt(h) < prefix {
          idx := h + 1;
        } else {
          j := h;
        }
      }
    }

    /** The ordinal of a record at h, or chunkCount when there is none. */
    method LookupOrdinal(h: Addr, ghost addrs: seq<Addr>, ghost lens: seq<nat>) returns (ord: nat)
      requires Represents(addrs, lens)
      ensures ord <= chunkCount
      ensures ord < chunkCount ==> addrs[ord] == h
      ensures ord == chunkCount ==> h !in addrs
    {
      hide Value, Sum, TuplesFor, SuffixesFor, Prefix, Suffix, PrefixAt, OrdinalAt, SuffixAt, Represents;
      Reads(addrs, lens);
      var prefix := Prefix(h);
      var idx := PrefixIdx(prefix);
      assert forall i :: 0 <= i < idx ==> PrefixAt(i) < prefix && PrefixAt(i) == Prefix(addrs[OrdinalAt(i)]);
      while idx < chunkCount && PrefixAt(idx) == prefix
        invariant idx <= chunkCount
        invariant forall i :: 0 <= i < idx ==> addrs[OrdinalAt(i)] != h
        invariant forall i :: idx <= i < chunkCount ==> PrefixAt(i) >= prefix
      {
        if EntrySuffixMatches(idx, h) {
          SameAddress(addrs[OrdinalAt(idx)], h);
          return OrdinalAt(idx);
        }
        idx := idx + 1;
      }
      ord := chunkCount;
      if k :| 0 <= k < chunkCount && addrs[k] == h {
        var i := IndexOf(addrs, lens, k);
        assert false;
      }
    }

    method Lookup(h: Addr, ghost addrs: seq<Addr>, ghost lens: seq<nat>) returns (r: Option<IndexEntry>)
      requires Represents(addrs, lens)
      ensures r.None? <==> h !in addrs
      ensures r.Some? ==> exists ord ::
                0 <= ord < |addrs| && addrs[ord] == h && r.value == IndexEntry(Sum(lens[..ord]), lens[ord])
    {
      hide Value, Sum, TuplesFor, SuffixesFor;
      var ord := LookupOrdinal(h, addrs, lens);
      if ord == chunkCount {
        return None;
      }
      EntryIsExact(addrs, lens, ord);
      return Some(GetIndexEntry(ord));
    }

    /** The ordinals in index order. */
    method Ordinals() returns (o: seq<nat>)
      requires Valid()
      ensures |o| == chunkCount && forall i :: 0 <= i < chunkCount ==> o[i] == OrdinalAt(i)
    {
      hide Value;
      o := [];
      for i := 0 to chunkCount
        invariant |o| == i && forall k :: 0 <= k < i ==> o[k] == OrdinalAt(k)
      {
        o := o + [OrdinalAt(i)];
      }
    }

    /** The prefixes in index order. */
    method Prefixes() returns (p: seq<nat>)
      requires Valid()
      ensures |p| == chunkCount && forall i :: 0 <= i < chunkCount ==> p[i] == PrefixAt(i)
    {
      hide Value;
      p := [];
      for i := 0 to chunkCount
        invariant |p| == i && forall k :: 0 <= k < i ==> p[k] == PrefixAt(k)
      {
        p := p + [PrefixAt(i)];
      }
    }

    /** What Represents says, in terms of the accessors. */
    lemma Reads(addrs: seq<Addr>, lens: seq<nat>)
      requires Represents(addrs, lens)
      ensures Valid() && |addrs| == chunkCount
      ensures forall i :: 0 <= i < chunkCount ==>
                OrdinalAt(i) < chunkCount && PrefixAt(i) == Prefix(addrs[OrdinalAt(i)])
      ensures forall i, j :: 0 <= i < j < chunkCount ==> PrefixAt(i) <= PrefixAt(j)
      ensures forall ord :: 0 <= ord < chunkCount ==> SuffixAt(ord) == Suffix(addrs[ord])
    {
      hide Value, Sum;
      var tuples := indexBuff[..12 * chunkCount];
      var suffixes := indexBuff[16 * chunkCount..28 * chunkCount];
      forall i | 0 <= i < chunkCount
        ensures PrefixAt(i) == PrefixIn(tuples, i) && OrdinalAt(i) == OrdinalIn(tuples, i)
      {
        assert tuples[12 * i..12 * i + 8] == indexBuff[12 * i..12 * i + 8];
        assert tuples[12 * i + 8..12 * i + 12] == indexBuff[12 * i + 8..12 * i + 12];
      }
      forall ord | 0 <= ord < chunkCount ensures SuffixAt(ord) == Suffix(addrs[ord]) {
        assert suffixes[12 * ord..12 * ord + 12] == SuffixAt(ord);
      }
    }

    lemma IndexOf(addrs: seq<Addr>, lens: seq<nat>, ord: nat) returns (i: nat)
      requires Represents(addrs, lens) && ord < chunkCount
      ensures i < chunkCount && OrdinalAt(i) == ord
    {
      hide Value, Sum;
      var tuples := indexBuff[..12 * chunkCount];
      assert Listed(tuples, ord);
      i :| 0 <= i && 12 * i + 12 <= |tuples| && OrdinalIn(tuples, i) == ord;
      assert tuples[12 * i + 8..12 * i + 12] == indexBuff[12 * i + 8..12 * i + 12];
    }

    /** The size of the whole table file: chunk data, index and footer. */
    function TableFileSize(): nat
      requires Valid()
      reads indexBuff, offsetB1
    {
      if chunkCount == 0 then FOOTER_SIZE
      else
        var e := GetIndexEntry(chunkCount - 1);
        e.offset + e.length + IndexSize(chunkCount) + FOOTER_SIZE
    }

    lemma TableFileSizeIsExact(addrs: seq<Addr>, lens: seq<nat>)
      requires Represents(addrs, lens)
      ensures TableFileSize() == Sum(lens) + IndexSize(chunkCount) + FOOTER_SIZE
    {
      hide Value, TuplesFor, SuffixesFor;
      if chunkCount > 0 {
        EntryIsExact(addrs, lens, chunkCount - 1);
        SumStep(lens, chunkCount - 1);
        assert lens[..chunkCount] == lens;
      }
    }
  }

  // ----- Parsing -----

  /** Fills p with the offsets of the next lengths; a byte reader delivers them all in one read. */
  method ReadFull(r: OffsetsReader, p: array<byte>, lo: nat, cells: nat, ghost raw: seq<byte>)
    requires r.Valid() && cells > 0 && lo + 8 * cells <= p.Length
    requires |raw| == 4 * cells && raw <= r.lengthsReader.Unread()
    modifies r, r.lengthsReader, p
    ensures r.Valid() && r.lengthsReader.pos == old(r.lengthsReader.pos) + 4 * cells
    ensures p[lo..lo + 8 * cells] == Offsets(old(r.offset), Lengths(raw))
    ensures r.offset == Wrap64(old(r.offset) + Sum(Lengths(raw)))
    ensures p[..lo] == old(p[..lo]) && p[lo + 8 * cells..] == old(p[lo + 8 * cells..])
  {
    hide Value, Sum, Offsets, Wrap64, Lengths, BigEndian, Taken;
    TakenAll(|r.lengthsReader.Unread()|, cells);
    assert r.lengthsReader.Unread()[..4 * cells] == raw;
    var n, e := r.Read(p, lo, lo + 8 * cells);
  }

  /**
   * Converts the lengths of an index into offsets, the second half of them into the very bytes the lengths occupied.
   * No length is lost: entry i is the sum of the lengths 0..i as they stood before the conversion.
   */
  method NewOnHeapTableIndex(indexBuff: array<byte>, offsetsBuff1: array<byte>, n: nat, uncompressed: nat)
    returns (ti: OnHeapTableIndex)
    requires n < MAX_CHUNKS && IndexSize(n) <= indexBuff.Length
    requires offsetsBuff1.Length == 8 * (n - n / 2) && offsetsBuff1 != indexBuff
    modifies indexBuff, offsetsBuff1
    ensures ti.Valid() && ti.chunkCount == n && ti.totalUncompressedData == uncompressed
    ensures ti.indexBuff == indexBuff && ti.offsetB1 == offsetsBuff1
    ensures indexBuff[..12 * n] == old(indexBuff[..12 * n]) && indexBuff[16 * n..] == old(indexBuff[16 * n..])
    ensures forall i :: 0 <= i < n ==> ti.OffsetAt(i) == Sum(Lengths(old(indexBuff[12 * n..16 * n]))[..i + 1])
  {
    hide Value, Sum, Offsets, Wrap64, Lengths, BigEndian, OnHeapTableIndex.OffsetAt;
    ti := new OnHeapTableIndex(indexBuff, offsetsBuff1, n, uncompressed);
    if n > 0 {
      ghost var raw := indexBuff[12 * n..16 * n];
      ConvertLengths(indexBuff, offsetsBuff1, n, n - n / 2, n / 2);
      OffsetsInPlace(ti, raw, n - n / 2, n / 2);
    }
  }

  /** The two runs of the offsets reader, the second one over the bytes it reads from. */
  method ConvertLengths(indexBuff: array<byte>, offsetsBuff1: array<byte>, n: nat, chunks1: nat, chunks2: nat)
    requires 0 < chunks1 && chunks2 <= chunks1 && n == chunks1 + chunks2 && IndexSize(n) <= indexBuff.Length
    requires offsetsBuff1.Length == 8 * chunks1 && offsetsBuff1 != indexBuff
    modifies indexBuff, offsetsBuff1
    ensures indexBuff[..12 * n] == old(indexBuff[..12 * n]) && indexBuff[16 * n..] == old(indexBuff[16 * n..])
    ensures offsetsBuff1[..] == Offsets(0, Lengths(old(indexBuff[12 * n..16 * n])[..4 * chunks1]))
    ensures
      var raw := old(indexBuff[12 * n..16 * n]);
      chunks2 > 0 ==>
        indexBuff[12 * n..12 * n + 8 * chunks2]
        == Offsets(Wrap64(0 + Sum(Lengths(raw[..4 * chunks1]))), Lengths(raw[4 * chunks1..]))
  {
    hide Value, Sum, Offsets, Wrap64, Lengths, BigEndian;
    ghost var raw := indexBuff[12 * n..16 * n];
    var lR := new ByteReader(indexBuff, 12 * n, 16 * n);
    var r := new OffsetsReader(lR);
    ReadFull(r, offsetsBuff1, 0, chunks1, raw[..4 * chunks1]);
    assert offsetsBuff1[..] == offsetsBuff1[0..8 * chunks1];
    assert lR.Unread() == raw[4 * chunks1..];
    if chunks2 > 0 {
      ReadFull(r, indexBuff, 12 * n, chunks2, raw[4 * chunks1..]);
      assert indexBuff[16 * n..] == indexBuff[12 * n + 8 * chunks2..][4 * n - 8 * chunks2..];
    }
  }

  lemma OffsetsInPlace(ti: OnHeapTableIndex, raw: seq<byte>, chunks1: nat, chunks2: nat)
    requires ti.Valid() && ti.chunkCount > 0 && chunks2 == ti.chunkCount / 2 && chunks1 == ti.chunkCount - chunks2
    requires |raw| == 4 * ti.chunkCount
    requires ti.offsetB1[..] == Offsets(0, Lengths(raw[..4 * chunks1]))
    requires chunks2 > 0 ==>
      ti.indexBuff[12 * ti.chunkCount..12 * ti.chunkCount + 8 * chunks2]
      == Offsets(Wrap64(0 + Sum(Lengths(raw[..4 * chunks1]))), Lengths(raw[4 * chunks1..]))
    ensures forall i :: 0 <= i < ti.chunkCount ==> ti.OffsetAt(i) == Sum(Lengths(raw)[..i + 1])
  {
    hide Value, Sum, Offsets, Wrap64, Lengths, BigEndian;
    var n, o1 := ti.chunkCount, ti.offsetB1[..];
    var cells := ti.indexBuff[12 * n..12 * n + 8 * chunks2];
    forall i | 0 <= i < n ensures ti.OffsetAt(i) == Sum(Lengths(raw)[..i + 1]) {
      if i < chunks1 {
        FirstHalf(raw, n, chunks1, o1, i);
        assert o1[8 * i..8 * i + 8] == ti.offsetB1[8 * i..8 * i + 8];
      } else {
        SecondHalf(raw, n, chunks1, cells, i);
        var k := i - chunks1;
        Sub(ti.indexBuff[..], 12 * n, 12 * n + 8 * chunks2, 8 * k, 8 * k + 8);
      }
    }
  }

  lemma TakenAll(unread: nat, chunks: nat)
    requires 4 * chunks <= unread
    ensures Taken(unread, 8 * chunks) == 4 * chunks
  {
  }

  // Reading the offsets in two runs gives the same running sums as reading them in one.

  lemma FirstHalf(raw: seq<byte>, n: nat, chunks1: nat, first: seq<byte>, i: nat)
    requires |raw| == 4 * n && n < MAX_CHUNKS && i < chunks1 <= n
    requires first == Offsets(0, Lengths(raw[..4 * chunks1]))
    ensures |Lengths(raw)| == n && |first| == 8 * chunks1
    ensures Value(first[8 * i..8 * i + 8]) == Sum(Lengths(raw)[..i + 1])
  {
    hide Value, Offsets, Sum;
    var ls, ls1 := Lengths(raw), Lengths(raw[..4 * chunks1]);
    LengthsSplit(raw, n, chunks1);
    LengthBound(raw);
    SmallSum(ls[..i + 1]);
    OffsetsAt(0, ls1, i);
    assert ls1[..i + 1] == ls[..i + 1];
  }

  lemma SecondHalf(raw: seq<byte>, n: nat, chunks1: nat, second: seq<byte>, i: nat)
    requires |raw| == 4 * n && n < MAX_CHUNKS && chunks1 <= i < n
    requires second == Offsets(Wrap64(0 + Sum(Lengths(raw[..4 * chunks1]))), Lengths(raw[4 * chunks1..]))
    ensures |Lengths(raw)| == n && |second| == 8 * (n - chunks1)
    ensures Value(second[8 * (i - chunks1)..8 * (i - chunks1) + 8]) == Sum(Lengths(raw)[..i + 1])
  {
    hide Value, Offsets, Sum;
    var ls, ls1, ls2 := Lengths(raw), Lengths(raw[..4 * chunks1]), Lengths(raw[4 * chunks1..]);
    LengthsSplit(raw, n, chunks1);
    LengthBound(raw);
    assert ls1 == ls[..chunks1];
    SmallSum(ls[..i + 1]);
    SmallSum(ls1);
    var k := i - chunks1;
    OffsetsAt(Sum(ls1), ls2, k);
    SumAppend(ls1, ls2[..k + 1]);
    assert ls1 + ls2[..k + 1] == ls[..i + 1];
  }

  lemma SmallSum(ls: seq<nat>)
    requires |ls| < MAX_CHUNKS && forall i :: 0 <= i < |ls| ==> ls[i] < U32
    ensures Sum(ls) < U64
  {
    SumBound(ls, U32);
  }

  lemma LengthsSplit(raw: seq<byte>, n: nat, k: nat)
    requires |raw| == 4 * n && k <= n
    ensures |Lengths(raw)| == n && |Lengths(raw[..4 * k])| == k
    ensures Lengths(raw) == Lengths(raw[..4 * k]) + Lengths(raw[4 * k..])
  {
    hide Value;
    var a, b := raw[..4 * k], raw[4 * k..];
    forall i | 0 <= i < n ensures Lengths(raw)[i] == (Lengths(a) + Lengths(b))[i] {
      if i < k {
        assert a[4 * i..4 * i + 4] == raw[4 * i..4 * i + 4];
      } else {
        assert b[4 * (i - k)..4 * (i - k) + 4] == raw[4 * i..4 * i + 4];
      }
    }
  }

  /** Checks the footer, then converts the index before it in place. */
  method ParseTableIndex(buff: array<byte>) returns (r: Result<OnHeapTableIndex>)
    requires buff.Length < IndexSize(MAX_CHUNKS) + FOOTER_SIZE
    modifies buff
    ensures r.Err? ==> buff[..] == old(buff[..])
    ensures (r == Err(ErrShortBuffer)) <==> buff.Length < FOOTER_SIZE
    ensures (r == Err(ErrInvalidTableFile)) <==>
              buff.Length >= FOOTER_SIZE && old(buff[buff.Length - 8..]) != MAGIC
    ensures r.Ok? <==>
              && buff.Length >= FOOTER_SIZE && old(buff[buff.Length - 8..]) == MAGIC
              && buff.Length == IndexSize(Value(old(buff[buff.Length - 20..buff.Length - 16]))) + FOOTER_SIZE
    ensures r.Ok? ==>
              && r.value.chunkCount == Value(old(buff[buff.Length - 20..buff.Length - 16]))
              && r.value.totalUncompressedData == Value(old(buff[buff.Length - 16..buff.Length - 8]))
              && forall addrs, lens :: IsIndex(old(buff[..buff.Length - 20]), addrs, lens) ==>
                r.value.Represents(addrs, lens)
  {
    hide Value, Sum, Lengths, TuplesFor, SuffixesFor, OnHeapTableIndex.OffsetAt;
    var len := buff.Length;
    if len < FOOTER_SIZE {
      return Err(ErrShortBuffer);
    }
    if buff[len - 8..] != MAGIC {
      return Err(ErrInvalidTableFile);
    }
    var chunkCount := Value(buff[len - 20..len - 16]);
    var uncompressed := Value(buff[len - 16..len - 8]);
    if len != IndexSize(chunkCount) + FOOTER_SIZE {
      return Err(ErrWrongBufferSize);
    }
    ghost var b := buff[..len - 20];
    assert b[12 * chunkCount..16 * chunkCount] == buff[12 * chunkCount..16 * chunkCount];
    var chunks1 := chunkCount - chunkCount / 2;
    var offsetsBuff1 := new byte[8 * chunks1];
    var ti := NewOnHeapTableIndex(buff, offsetsBuff1, chunkCount, uncompressed);
    forall addrs, lens | IsIndex(b, addrs, lens) ensures ti.Represents(addrs, lens) {
      Converted(ti, b, addrs, lens);
    }
    return Ok(ti);
  }

  /** A converted index answers for whatever the raw index described. */
  lemma Converted(ti: OnHeapTableIndex, b: seq<byte>, addrs: seq<Addr>, lens: seq<nat>)
    requires IsIndex(b, addrs, lens) && ti.Valid() && ti.chunkCount == |addrs|
    requires ti.indexBuff[..12 * |addrs|] == b[..12 * |addrs|]
    requires ti.indexBuff[16 * |addrs|..28 * |addrs|] == b[16 * |addrs|..]
    requires forall i :: 0 <= i < |addrs| ==> ti.OffsetAt(i) == Sum(Lengths(b[12 * |addrs|..16 * |addrs|])[..i + 1])
    ensures ti.Represents(addrs, lens)
  {
    hide Value, Sum, Lengths, TuplesFor, SuffixesFor, OnHeapTableIndex.OffsetAt;
    LengthBound(b[12 * |addrs|..16 * |addrs|]);
  }

  lemma SameAddress(a: Addr, b: Addr)
    requires Prefix(a) == Prefix(b) && Suffix(a) == Suffix(b)
    ensures a == b
  {
    BigEndianOfValue(a[..8]);
    BigEndianOfValue(b[..8]);
    assert a == a[..8] + a[8..] && b == b[..8] + b[8..];
  }
}
