/** Reading chunks out of a table file, one at a time and in batches. */
module TableReader {
  import opened Bytes
  import opened Options
  import opened Sorting
  import opened TableFile
  import opened TableIndex
  import opened TableWriter

  datatype GetRecord = GetRecord(a: Addr, prefix: nat, found: bool)
  datatype OffsetRec = OffsetRec(a: Addr, offset: nat, length: nat)
  datatype ReadResult = Chunk(data: seq<byte>) | Absent | ErrChecksum | ErrCorrupt

  const MAX_READ_SIZE: nat := 128 * 1024 * 1024

  /** Checks the checksum at the end of a record and decodes the rest. */
  function DecodeRecord(c: Codec, buff: seq<byte>): ReadResult
  {
    if |buff| < 4 then ErrCorrupt
    else
      var data := buff[..|buff| - 4];
      if Value(buff[|buff| - 4..]) != c.crc(data) then ErrChecksum
      else
        match c.decode(data)
        case None => ErrCorrupt
        case Some(d) => Chunk(d)
  }

  /** A record is refused exactly if it is too short, or its checksum is wrong, or its data not encoded. */
  lemma DecodeRefuses(c: Codec, data: seq<byte>, sum: seq<byte>)
    requires |sum| == 4
    ensures DecodeRecord(c, data + sum) == ErrChecksum <==> sum != BigEndian(c.crc(data), 4) || c.crc(data) >= U32
    ensures sum == BigEndian(c.crc(data), 4) && c.crc(data) < U32 ==>
              && (DecodeRecord(c, data + sum) == ErrCorrupt <==> c.decode(data) == None)
              && forall d :: DecodeRecord(c, data + sum) == Chunk(d) <==> c.decode(data) == Some(d)
    ensures forall b: seq<byte> :: |b| < 4 ==> DecodeRecord(c, b) == ErrCorrupt
  {
    hide Value, BigEndian;
    var b := data + sum;
    assert b[..|b| - 4] == data && b[|b| - 4..] == sum;
    Widths();
    BigEndianOfValue(sum);
    if c.crc(data) < U32 {
      ValueOfBigEndian(c.crc(data), 4);
    }
  }

  /** Decoding what the writer encoded gives the chunk back. */
  lemma DecodeInverts(c: Codec, data: seq<byte>)
    requires Sound(c)
    ensures DecodeRecord(c, Record(c, data)) == Chunk(data)
  {
    hide Value, BigEndian;
    var e := c.encode(data);
    var r := Record(c, data);
    Widths();
    ValueOfBigEndian(c.crc(e), 4);
    assert r[..|r| - 4] == e && r[|r| - 4..] == BigEndian(c.crc(e), 4);
  }

  // ----- Requests -----

  ghost predicate SortedRequests(reqs: seq<HasRecord>)
  {
    && (forall i :: 0 <= i < |reqs| ==> reqs[i].prefix == Prefix(reqs[i].a))
    && (forall i, j :: 0 <= i < j < |reqs| ==> reqs[i].prefix <= reqs[j].prefix)
  }

  ghost predicate SortedGets(reqs: seq<GetRecord>)
  {
    && (forall i :: 0 <= i < |reqs| ==> reqs[i].prefix == Prefix(reqs[i].a))
    && (forall i, j :: 0 <= i < j < |reqs| ==> reqs[i].prefix <= reqs[j].prefix)
  }

  /** The addresses a table answers that were not found before, in request order. */
  function NewlyFound(reqs: seq<GetRecord>, addrs: seq<Addr>): seq<Addr>
  {
    if reqs == [] then []
    else
      var r := reqs[|reqs| - 1];
      NewlyFound(reqs[..|reqs| - 1], addrs) + if !r.found && r.a in addrs then [r.a] else []
  }

  function AddrsOf(ors: seq<OffsetRec>): (r: seq<Addr>)
    ensures |r| == |ors| && forall i :: 0 <= i < |r| ==> r[i] == ors[i].a
  {
    seq(|ors|, i requires 0 <= i < |ors| => ors[i].a)
  }

  /** rec is where some record at its address lies. */
  ghost predicate Located(rec: OffsetRec, addrs: seq<Addr>, lens: seq<nat>)
    requires |addrs| == |lens|
  {
    exists ord :: 0 <= ord < |addrs| && At(rec, addrs, lens, ord)
  }

  ghost predicate At(rec: OffsetRec, addrs: seq<Addr>, lens: seq<nat>, ord: nat)
    requires |addrs| == |lens| && ord < |addrs|
  {
    addrs[ord] == rec.a && rec.offset == Sum(lens[..ord]) && rec.length == lens[ord]
  }

  class TableReader {
    const index: OnHeapTableIndex
    const prefixes: seq<nat>
    const table: seq<byte>
    const blockSize: nat
    const codec: Codec
    ghost const addrs: seq<Addr>
    ghost const records: seq<seq<byte>>

    ghost predicate Valid()
      reads index.indexBuff, index.offsetB1
    {
      && index.Represents(addrs, Lens(records))
      && |records| == |addrs| == |prefixes|
      && (forall i :: 0 <= i < |prefixes| ==> prefixes[i] == index.PrefixAt(i))
      && Flatten(records) <= table
    }

    /** Opens a table; the index is the end of its bytes, parsed. */
    constructor (index: OnHeapTableIndex, table: seq<byte>, blockSize: nat, codec: Codec,
                 ghost addrs: seq<Addr>, ghost records: seq<seq<byte>>)
      requires index.Represents(addrs, Lens(records)) && |records| == |addrs| && Flatten(records) <= table
      ensures Valid() && this.index == index && this.table == table
      ensures this.blockSize == blockSize && this.codec == codec
      ensures this.addrs == addrs && this.records == records
    {
      var p := index.Prefixes();
      this.index := index;
      this.prefixes := p;
      this.table := table;
      this.blockSize := blockSize;
      this.codec := codec;
      this.addrs := addrs;
      this.records := records;
    }

    /** The address listed at position i of the index. */
    ghost function Entry(i: nat): Addr
      requires Valid() && i < |prefixes|
      reads index.indexBuff, index.offsetB1
    {
      index.Reads(addrs, Lens(records));
      addrs[index.OrdinalAt(i)]
    }

    lemma Scan()
      requires Valid()
      ensures index.Valid() && index.chunkCount == |prefixes| == |addrs| == |records|
      ensures forall i :: 0 <= i < |prefixes| ==> index.OrdinalAt(i) < |addrs| && prefixes[i] == Prefix(Entry(i))
      ensures forall i, j :: 0 <= i < j < |prefixes| ==> prefixes[i] <= prefixes[j]
      ensures forall i, h :: 0 <= i < |prefixes| && prefixes[i] == Prefix(h) ==>
                (index.EntrySuffixMatches(i, h) <==> Entry(i) == h)
      ensures forall i :: 0 <= i < |prefixes| ==> Entry(i) in addrs
    {
      hide Value, Sum, TuplesFor, SuffixesFor, Prefix, Suffix, Flatten;
      index.Reads(addrs, Lens(records));
      forall i, h | 0 <= i < |prefixes| && prefixes[i] == Prefix(h)
        ensures index.EntrySuffixMatches(i, h) <==> Entry(i) == h
      {
        if index.EntrySuffixMatches(i, h) {
          SameAddress(Entry(i), h);
        }
      }
    }

    /** An address in the table is at some position of the index. */
    lemma Find(h: Addr) returns (i: nat)
      requires Valid() && h in addrs
      ensures i < |prefixes| && Entry(i) == h
    {
      hide Value, Sum, TuplesFor, SuffixesFor, Flatten;
      var k :| 0 <= k < |addrs| && addrs[k] == h;
      i := index.IndexOf(addrs, Lens(records), k);
    }

    lemma Missing(h: Addr, idx: nat)
      requires Valid() && idx <= |prefixes|
      requires forall j :: 0 <= j < idx ==> prefixes[j] < Prefix(h)
      requires idx < |prefixes| ==> prefixes[idx] > Prefix(h)
      ensures h !in addrs
    {
      if h in addrs {
        Scan();
        var i := Find(h);
        assert false;
      }
    }

    /** Moves past the prefixes below the given one. */
    method Advance(from: nat, prefix: nat) returns (idx: nat)
      requires from <= |prefixes| && forall j :: 0 <= j < from ==> prefixes[j] < prefix
      ensures from <= idx <= |prefixes| && forall j :: 0 <= j < idx ==> prefixes[j] < prefix
      ensures idx < |prefixes| ==> prefixes[idx] >= prefix
    {
      idx := from;
      while idx < |prefixes| && prefixes[idx] < prefix
        invariant from <= idx <= |prefixes|
        invariant forall j :: 0 <= j < idx ==> prefixes[j] < prefix
      {
        idx := idx + 1;
      }
    }

    /** Compares the suffixes of all entries that share the prefix of h. */
    method MatchFrom(idx: nat, h: Addr) returns (r: Option<nat>)
      requires Valid() && idx < |prefixes| && forall j :: 0 <= j < idx ==> prefixes[j] < Prefix(h)
      requires prefixes[idx] == Prefix(h)
      ensures r.Some? ==> r.value < |prefixes| && Entry(r.value) == h && h in addrs
      ensures r.None? ==> h !in addrs
    {
      hide *;
      Scan();
      var j := idx;
      while j < |prefixes| && prefixes[j] == Prefix(h)
        invariant idx <= j <= |prefixes|
        invariant forall k :: 0 <= k < j ==> Entry(k) != h
      {
        if index.EntrySuffixMatches(j, h) {
          return Some(j);
        }
        j := j + 1;
      }
      if h in addrs {
        var k := Find(h);
        assert false;
      }
      return None;
    }

    /** Marks exactly the requests for addresses in the table, by one scan over both sorted lists. */
    method HasMany(reqs: array<HasRecord>) returns (remaining: bool)
      requires Valid() && SortedRequests(reqs[..])
      modifies reqs
      ensures forall i :: 0 <= i < reqs.Length ==> reqs[i] == Answered(old(reqs[i]), addrs)
      ensures remaining <==> exists i :: 0 <= i < reqs.Length && !reqs[i].has
    {
      hide TableReader.Valid, Prefix;
      var filterIdx, filterLen := 0, |prefixes|;
      remaining := false;
      ghost var was := reqs[..];
      for i := 0 to reqs.Length
        invariant filterIdx <= filterLen
        invariant i < reqs.Length ==> forall j :: 0 <= j < filterIdx ==> prefixes[j] < was[i].prefix
        invariant forall k :: 0 <= k < i ==> reqs[k] == Answered(was[k], addrs)
        invariant forall k :: i <= k < reqs.Length ==> reqs[k] == was[k]
        invariant remaining <==> exists k :: 0 <= k < i && !reqs[k].has
      {
        if reqs[i].has {
          continue;
        }
        filterIdx := Advance(filterIdx, reqs[i].prefix);
        if filterIdx >= filterLen {
          forall k | i <= k < reqs.Length ensures reqs[k] == Answered(was[k], addrs) {
            Missing(was[k].a, filterIdx);
          }
          return true;
        }
        if reqs[i].prefix != prefixes[filterIdx] {
          Missing(reqs[i].a, filterIdx);
          remaining := true;
          continue;
        }
        var m := MatchFrom(filterIdx, reqs[i].a);
        if m.Some? {
          reqs[i] := reqs[i].(has := true);
        } else {
          remaining := true;
        }
      }
    }

    lemma EntryAt(j: nat, rec: OffsetRec)
      requires Valid() && j < |prefixes| && index.OrdinalAt(j) < index.chunkCount
      requires rec == OffsetRec(Entry(j), index.GetIndexEntry(index.OrdinalAt(j)).offset,
                 index.GetIndexEntry(index.OrdinalAt(j)).length)
      ensures Located(rec, addrs, Lens(records))
    {
      hide Value, Sum, TuplesFor, SuffixesFor, Flatten;
      var ord := index.OrdinalAt(j);
      index.EntryIsExact(addrs, Lens(records), ord);
      assert At(rec, addrs, Lens(records), ord);
    }

    /** Marks the requests the table answers and returns where their records lie, sorted by offset. */
    method FindOffsets(reqs: array<GetRecord>) returns (ors: seq<OffsetRec>, remaining: bool)
      requires Valid() && SortedGets(reqs[..])
      modifies reqs
      ensures forall i :: 0 <= i < reqs.Length ==> reqs[i] == Found(old(reqs[i]), addrs)
      ensures remaining <==> exists i :: 0 <= i < reqs.Length && !reqs[i].found
      ensures multiset(AddrsOf(ors)) == multiset(NewlyFound(old(reqs[..]), addrs))
      ensures forall i :: 0 <= i < |ors| ==> Located(ors[i], addrs, Lens(records))
      ensures forall i, j :: 0 <= i < j < |ors| ==> ors[i].offset <= ors[j].offset
    {
      var unsorted;
      unsorted, remaining := CollectOffsets(reqs);
      ors := Sort(unsorted, (a: OffsetRec, b: OffsetRec) => a.offset <= b.offset);
      assert Sorted(ors, (a: OffsetRec, b: OffsetRec) => a.offset <= b.offset);
      SameMembers(ors, unsorted);
      SameAddrs(ors, unsorted);
      forall i | 0 <= i < |ors| ensures Located(ors[i], addrs, Lens(records)) {
        assert ors[i] in unsorted;
      }
    }

    method CollectOffsets(reqs: array<GetRecord>) returns (ors: seq<OffsetRec>, remaining: bool)
      requires Valid() && SortedGets(reqs[..])
      modifies reqs
      ensures forall i :: 0 <= i < reqs.Length ==> reqs[i] == Found(old(reqs[i]), addrs)
      ensures remaining <==> exists i :: 0 <= i < reqs.Length && !reqs[i].found
      ensures AddrsOf(ors) == NewlyFound(old(reqs[..]), addrs)
      ensures forall i :: 0 <= i < |ors| ==> Located(ors[i], addrs, Lens(records))
    {
      hide TableReader.Valid, Prefix, Located, NewlyFound, OnHeapTableIndex.OrdinalAt,
        OnHeapTableIndex.GetIndexEntry, Entry, AddrsOf;
      Scan();
      var filterIdx, filterLen := 0, |prefixes|;
      ors, remaining := [], false;
      ghost var was := reqs[..];
      NewlyFoundEnds(was, addrs);
      for i := 0 to reqs.Length
        invariant filterIdx <= filterLen
        invariant i < reqs.Length ==> forall j :: 0 <= j < filterIdx ==> prefixes[j] < was[i].prefix
        invariant forall k :: 0 <= k < i ==> reqs[k] == Found(was[k], addrs)
        invariant forall k :: i <= k < reqs.Length ==> reqs[k] == was[k]
        invariant remaining <==> exists k :: 0 <= k < i && !reqs[k].found
        invariant AddrsOf(ors) == NewlyFound(was[..i], addrs)
        invariant forall k :: 0 <= k < |ors| ==> Located(ors[k], addrs, Lens(records))
      {
        NewlyFoundStep(was, addrs, i);
        if reqs[i].found {
          continue;
        }
        filterIdx := Advance(filterIdx, reqs[i].prefix);
        if filterIdx >= filterLen {
          forall k | i <= k < reqs.Length ensures was[k].a !in addrs {
            Missing(was[k].a, filterIdx);
          }
          NothingFound(was, addrs, i);
          remaining := true;
          break;
        }
        if reqs[i].prefix != prefixes[filterIdx] {
          Missing(reqs[i].a, filterIdx);
          remaining := true;
          continue;
        }
        var m := MatchFrom(filterIdx, reqs[i].a);
        if m.Some? {
          var e := index.GetIndexEntry(index.OrdinalAt(m.value));
          var rec := OffsetRec(reqs[i].a, e.offset, e.length);
          EntryAt(m.value, rec);
          reqs[i] := reqs[i].(found := true);
          AddrsPush(ors, rec);
          ors := ors + [rec];
        } else {
          remaining := true;
        }
      }
    }

    /** Reads one chunk: present exactly for the addresses of the table, with the bytes that were written. */
    method Get(h: Addr, ghost datas: seq<seq<byte>>) returns (r: ReadResult)
      requires Valid() && Sound(codec) && |datas| == |addrs| && records == Records(codec, datas)
      ensures h !in addrs ==> r == Absent
      ensures h in addrs ==> exists ord :: 0 <= ord < |addrs| && addrs[ord] == h && r == Chunk(datas[ord])
    {
      hide Value, Sum, TuplesFor, SuffixesFor, Flatten, DecodeRecord, Record;
      var e := index.Lookup(h, addrs, Lens(records));
      if e.None? {
        return Absent;
      }
      ghost var ord :| 0 <= ord < |addrs| && addrs[ord] == h && e.value == IndexEntry(Sum(Lens(records)[..ord]),
          Lens(records)[ord]);
      RecordInTable(records, table, ord);
      DecodeInverts(codec, datas[ord]);
      r := DecodeRecord(codec, table[e.value.offset..e.value.offset + e.value.length]);
    }
  }

  lemma RecordInTable(records: seq<seq<byte>>, table: seq<byte>, ord: nat)
    requires Flatten(records) <= table && ord < |records|
    ensures Sum(Lens(records)[..ord]) + |records[ord]| <= |table|
    ensures table[Sum(Lens(records)[..ord])..Sum(Lens(records)[..ord]) + |records[ord]|] == records[ord]
  {
    hide Flatten, Sum;
    RecordAt(records, ord);
    var f, o, l := Flatten(records), Sum(Lens(records)[..ord]), |records[ord]|;
    assert table[..|f|] == f;
    assert table[o..o + l] == table[..|f|][o..o + l];
  }

  lemma AddrsPush(ors: seq<OffsetRec>, rec: OffsetRec)
    ensures AddrsOf(ors + [rec]) == AddrsOf(ors) + [rec.a]
  {
  }

  lemma SameAddrs(a: seq<OffsetRec>, b: seq<OffsetRec>)
    requires multiset(a) == multiset(b)
    ensures multiset(AddrsOf(a)) == multiset(AddrsOf(b))
  {
    var f := (r: OffsetRec) => r.a;
    MapPermuted(f, a, b);
    assert AddrsOf(a) == MapSeq(f, a) && AddrsOf(b) == MapSeq(f, b);
  }

  lemma NewlyFoundEnds(reqs: seq<GetRecord>, addrs: seq<Addr>)
    ensures NewlyFound(reqs[..0], addrs) == [] && NewlyFound(reqs[..|reqs|], addrs) == NewlyFound(reqs, addrs)
  {
    assert reqs[..|reqs|] == reqs;
  }

  lemma NewlyFoundStep(reqs: seq<GetRecord>, addrs: seq<Addr>, i: nat)
    requires i < |reqs|
    ensures NewlyFound(reqs[..i + 1], addrs)
         == NewlyFound(reqs[..i], addrs) + if !reqs[i].found && reqs[i].a in addrs then [reqs[i].a] else []
  {
    assert reqs[..i + 1][..i] == reqs[..i];
  }

  lemma {:induction false} NothingFound(reqs: seq<GetRecord>, addrs: seq<Addr>, i: nat)
    requires i <= |reqs| && forall k :: i <= k < |reqs| ==> reqs[k].a !in addrs
    ensures NewlyFound(reqs, addrs) == NewlyFound(reqs[..i], addrs)
    decreases |reqs| - i
  {
    if i == |reqs| {
      assert reqs[..i] == reqs;
    } else {
      NothingFound(reqs, addrs, i + 1);
      NewlyFoundStep(reqs, addrs, i);
    }
  }

  function Found(req: GetRecord, addrs: seq<Addr>): GetRecord
  {
    req.(found := req.found || req.a in addrs)
  }

  function Answered(req: HasRecord, addrs: seq<Addr>): HasRecord
  {
    req.(has := req.has || req.a in addrs)
  }
}
