/** Grouping the records to read into physical reads. */
module ReadBatches {
  import opened Bytes
  import opened TableIndex
  import opened TableFile
  import opened TableWriter
  import opened TableReader

  function Start(b: seq<OffsetRec>): nat
    requires b != []
  {
    b[0].offset
  }

  function End(b: seq<OffsetRec>): nat
    requires b != []
  {
    b[|b| - 1].offset + b[|b| - 1].length
  }

  /** Whether the read [curStart, curEnd) is worth extending to rec, and the end it then has. */
  function CanReadAhead(rec: OffsetRec, curStart: nat, curEnd: nat, blockSize: nat): (nat, bool)
  {
    if rec.offset < curEnd then (curEnd, true)
    else if curEnd - curStart >= MAX_READ_SIZE then (curEnd, false)
    else if rec.offset - curEnd > blockSize then (curEnd, false)
    else (rec.offset + rec.length, true)
  }

  predicate Extends(b: seq<OffsetRec>, rec: OffsetRec, blockSize: nat)
    requires b != []
  {
    CanReadAhead(rec, Start(b), End(b), blockSize).1
  }

  /** The greedy grouping: extend the current batch as long as reading ahead pays. */
  function Group(batch: seq<OffsetRec>, rest: seq<OffsetRec>, blockSize: nat): seq<seq<OffsetRec>>
    requires batch != []
    decreases |rest|
  {
    if rest == [] then [batch]
    else if Extends(batch, rest[0], blockSize) then Group(batch + [rest[0]], rest[1..], blockSize)
    else [batch] + Group([rest[0]], rest[1..], blockSize)
  }

  function Batches(ors: seq<OffsetRec>, blockSize: nat): seq<seq<OffsetRec>>
  {
    if ors == [] then [] else Group([ors[0]], ors[1..], blockSize)
  }

  method ToReadBatches(ors: seq<OffsetRec>, blockSize: nat) returns (res: seq<seq<OffsetRec>>)
    ensures res == Batches(ors, blockSize)
    ensures LaidOut(ors) ==> Maximal(res, ors, blockSize)
  {
    if LaidOut(ors) {
      BatchesMaximal(ors, blockSize);
    }
    res := [];
    var batch: seq<OffsetRec> := [];
    var i := 0;
    while i < |ors|
      invariant 0 <= i <= |ors|
      invariant batch == [] ==> res + Batches(ors[i..], blockSize) == Batches(ors, blockSize)
      invariant batch != [] ==> res + Group(batch, ors[i..], blockSize) == Batches(ors, blockSize)
      invariant i == |ors| ==> batch != [] || ors == []
      decreases |ors| - i, |batch|
    {
      var rec := ors[i];
      assert ors[i..][1..] == ors[i + 1..];
      if batch == [] {
        batch := [rec];
        i := i + 1;
      } else if Extends(batch, rec, blockSize) {
        batch := batch + [rec];
        i := i + 1;
      } else {
        assert res + ([batch] + Batches(ors[i..], blockSize)) == (res + [batch]) + Batches(ors[i..], blockSize);
        res := res + [batch];
        batch := [];
      }
    }
    if batch != [] {
      res := res + [batch];
    }
  }

  // ----- What the grouping guarantees -----

  /** Records in offset order that coincide or do not overlap, as entries of one index do. */
  ghost predicate LaidOut(ors: seq<OffsetRec>)
  {
    forall i, j :: 0 <= i < j < |ors| ==>
      (ors[i].offset == ors[j].offset && ors[i].length == ors[j].length) ||
        ors[i].offset + ors[i].length <= ors[j].offset
  }

  function Concat(bs: seq<seq<OffsetRec>>): seq<OffsetRec>
  {
    if bs == [] then [] else bs[0] + Concat(bs[1..])
  }

  /** A batch whose one read covers all its records and is not much larger than the read limit. */
  ghost predicate Good(b: seq<OffsetRec>, blockSize: nat)
  {
    && b != []
    && (forall i :: 0 <= i < |b| ==> Start(b) <= b[i].offset && b[i].offset + b[i].length <= End(b))
    && End(b) - Start(b) < MAX_READ_SIZE + blockSize + b[|b| - 1].length
  }

  lemma GoodSingle(rec: OffsetRec, blockSize: nat)
    ensures Good([rec], blockSize)
  {
  }

  lemma LaidOutSlice(ors: seq<OffsetRec>, lo: nat, hi: nat)
    requires LaidOut(ors) && lo <= hi <= |ors|
    ensures LaidOut(ors[lo..hi])
  {
  }

  lemma GoodExtended(b: seq<OffsetRec>, rec: OffsetRec, blockSize: nat)
    requires Good(b, blockSize) && LaidOut(b + [rec]) && Extends(b, rec, blockSize)
    ensures Good(b + [rec], blockSize)
    ensures End(b + [rec]) == CanReadAhead(rec, Start(b), End(b), blockSize).0
  {
    var more := b + [rec];
    var k := |b| - 1;
    assert more[k] == b[k] && more[k + 1] == rec;
    assert (more[k].offset == rec.offset && more[k].length == rec.length) || End(b) <= rec.offset;
    forall i | 0 <= i < |more| ensures Start(more) <= more[i].offset && more[i].offset + more[i].length <= End(more) {
      if i <= k {
        assert more[i] == b[i];
      }
    }
  }

  lemma {:induction false} GroupIsGood(batch: seq<OffsetRec>, rest: seq<OffsetRec>, blockSize: nat)
    requires Good(batch, blockSize) && LaidOut(batch + rest)
    ensures Concat(Group(batch, rest, blockSize)) == batch + rest
    ensures forall k :: 0 <= k < |Group(batch, rest, blockSize)| ==> Good(Group(batch, rest, blockSize)[k], blockSize)
    decreases |rest|
  {
    hide LaidOut, Good, Extends;
    GoodIsNonempty(batch, blockSize);
    if rest == [] {
      assert Concat([batch]) == batch + Concat([]);
    } else if Extends(batch, rest[0], blockSize) {
      assert batch + rest == (batch + [rest[0]]) + rest[1..];
      assert LaidOut(batch + [rest[0]]) by {
        assert batch + [rest[0]] == (batch + rest)[0..|batch| + 1];
        LaidOutSlice(batch + rest, 0, |batch| + 1);
      }
      GoodExtended(batch, rest[0], blockSize);
      GroupIsGood(batch + [rest[0]], rest[1..], blockSize);
    } else {
      assert rest == [rest[0]] + rest[1..] == (batch + rest)[|batch|..|batch + rest|];
      LaidOutSlice(batch + rest, |batch|, |batch + rest|);
      GoodSingle(rest[0], blockSize);
      GroupIsGood([rest[0]], rest[1..], blockSize);
      var tail := Group([rest[0]], rest[1..], blockSize);
      assert ([batch] + tail)[1..] == tail;
    }
  }

  /** The batches are a partition of the records, in order, and each is good. */
  lemma BatchesPartition(ors: seq<OffsetRec>, blockSize: nat)
    requires LaidOut(ors)
    ensures Concat(Batches(ors, blockSize)) == ors
    ensures forall k :: 0 <= k < |Batches(ors, blockSize)| ==> Good(Batches(ors, blockSize)[k], blockSize)
  {
    if ors != [] {
      assert ors == [ors[0]] + ors[1..];
      GroupIsGood([ors[0]], ors[1..], blockSize);
    }
  }

  // ----- The grouping is the only maximal one -----

  ghost predicate Positive(ors: seq<OffsetRec>)
  {
    forall i :: 0 <= i < |ors| ==> ors[i].length > 0
  }

  function EndOf(rec: OffsetRec): nat
  {
    rec.offset + rec.length
  }

  /**
   * Every record of a batch coincides with the one before it, or lies at most a block behind it while the read up to
   * there is below the limit.
   */
  ghost predicate Close(b: seq<OffsetRec>, blockSize: nat)
  {
    forall i :: 0 < i < |b| ==>
      || (b[i].offset == b[i - 1].offset && b[i].length == b[i - 1].length)
      || (&& EndOf(b[i - 1]) <= b[i].offset <= EndOf(b[i - 1]) + blockSize
          && EndOf(b[i - 1]) < b[0].offset + MAX_READ_SIZE)
  }

  /** The next batch lies more than a block behind, or the read has reached the limit. */
  ghost predicate Apart(b: seq<OffsetRec>, next: seq<OffsetRec>, blockSize: nat)
  {
    && b != [] && next != []
    && EndOf(b[|b| - 1]) <= next[0].offset
    && (next[0].offset > EndOf(b[|b| - 1]) + blockSize || EndOf(b[|b| - 1]) >= b[0].offset + MAX_READ_SIZE)
  }

  /** The records, in order, in batches that hang together and cannot be joined. */
  ghost predicate Maximal(bs: seq<seq<OffsetRec>>, ors: seq<OffsetRec>, blockSize: nat)
  {
    && Concat(bs) == ors
    && (forall k :: 0 <= k < |bs| ==> bs[k] != [] && Close(bs[k], blockSize))
    && forall k :: 0 < k < |bs| ==> Apart(bs[k - 1], bs[k], blockSize)
  }

  lemma CloseExtended(b: seq<OffsetRec>, rec: OffsetRec, blockSize: nat)
    requires b != [] && Close(b, blockSize) && LaidOut(b + [rec]) && Extends(b, rec, blockSize)
    ensures Close(b + [rec], blockSize)
  {
    var more, n := b + [rec], |b|;
    assert more[n - 1] == b[n - 1] && more[n] == rec && more[0] == b[0];
    forall i | 0 < i < |more|
      ensures || (more[i].offset == more[i - 1].offset && more[i].length == more[i - 1].length)
              || (&& EndOf(more[i - 1]) <= more[i].offset <= EndOf(more[i - 1]) + blockSize
                  && EndOf(more[i - 1]) < more[0].offset + MAX_READ_SIZE)
    {
      if i < n {
        assert more[i] == b[i] && more[i - 1] == b[i - 1];
      }
    }
  }

  lemma {:induction false} GroupIsMaximal(batch: seq<OffsetRec>, rest: seq<OffsetRec>, blockSize: nat)
    requires batch != [] && Close(batch, blockSize) && LaidOut(batch + rest)
    ensures var bs := Group(batch, rest, blockSize);
            && Maximal(bs, batch + rest, blockSize)
            && bs != [] && bs[0] != [] && bs[0][0] == batch[0]
    decreases |rest|
  {
    hide LaidOut, Close, Extends;
    if rest == [] {
      assert Concat([batch]) == batch + Concat([]);
    } else if Extends(batch, rest[0], blockSize) {
      assert batch + rest == (batch + [rest[0]]) + rest[1..];
      assert LaidOut(batch + [rest[0]]) by {
        assert batch + [rest[0]] == (batch + rest)[0..|batch| + 1];
        LaidOutSlice(batch + rest, 0, |batch| + 1);
      }
      CloseExtended(batch, rest[0], blockSize);
      GroupIsMaximal(batch + [rest[0]], rest[1..], blockSize);
    } else {
      assert rest == [rest[0]] + rest[1..] == (batch + rest)[|batch|..|batch + rest|];
      LaidOutSlice(batch + rest, |batch|, |batch + rest|);
      assert Close([rest[0]], blockSize) by { CloseOne(rest[0], blockSize); }
      GroupIsMaximal([rest[0]], rest[1..], blockSize);
      var tail := Group([rest[0]], rest[1..], blockSize);
      NotExtended(batch, rest[0], tail[0], blockSize);
      MaximalMore(batch, tail, rest, blockSize);
    }
  }

  lemma CloseOne(rec: OffsetRec, blockSize: nat)
    ensures Close([rec], blockSize)
  {
  }

  lemma NotExtended(b: seq<OffsetRec>, rec: OffsetRec, next: seq<OffsetRec>, blockSize: nat)
    requires b != [] && next != [] && next[0] == rec && !Extends(b, rec, blockSize)
    ensures Apart(b, next, blockSize)
  {
  }

  lemma MaximalMore(b: seq<OffsetRec>, tail: seq<seq<OffsetRec>>, rest: seq<OffsetRec>, blockSize: nat)
    requires b != [] && Close(b, blockSize) && Maximal(tail, rest, blockSize)
    requires tail != [] && Apart(b, tail[0], blockSize)
    ensures Maximal([b] + tail, b + rest, blockSize)
  {
    hide Close, Apart;
    var bs := [b] + tail;
    assert bs[1..] == tail;
    forall k | 0 < k < |bs| ensures Apart(bs[k - 1], bs[k], blockSize) {
      assert k > 1 ==> Apart(tail[k - 2], tail[k - 1], blockSize);
    }
  }

  /** The grouping is maximal ... */
  lemma BatchesMaximal(ors: seq<OffsetRec>, blockSize: nat)
    requires LaidOut(ors)
    ensures Maximal(Batches(ors, blockSize), ors, blockSize)
  {
    if ors != [] {
      assert ors == [ors[0]] + ors[1..];
      CloseOne(ors[0], blockSize);
      GroupIsMaximal([ors[0]], ors[1..], blockSize);
    }
  }

  /** ... and no other grouping is. */
  lemma {:induction false} MaximalUnique(
      bs: seq<seq<OffsetRec>>, cs: seq<seq<OffsetRec>>, ors: seq<OffsetRec>, blockSize: nat)
    requires Maximal(bs, ors, blockSize) && Maximal(cs, ors, blockSize) && Positive(ors)
    ensures bs == cs
    decreases |bs|
  {
    hide Close, Apart;
    if bs == [] || cs == [] {
      assert bs == [] ==> ors == [];
      assert cs == [] ==> ors == [];
    } else {
      NotShorter(bs, cs, ors, blockSize);
      NotShorter(cs, bs, ors, blockSize);
      var n := |bs[0]|;
      assert bs[0] == ors[..n] == cs[0];
      MaximalRest(bs, ors, blockSize);
      MaximalRest(cs, ors, blockSize);
      MaximalUnique(bs[1..], cs[1..], ors[n..], blockSize);
      assert bs == [bs[0]] + bs[1..] && cs == [cs[0]] + cs[1..];
    }
  }

  lemma MaximalRest(bs: seq<seq<OffsetRec>>, ors: seq<OffsetRec>, blockSize: nat)
    requires Maximal(bs, ors, blockSize) && bs != []
    ensures |bs[0]| <= |ors| && Maximal(bs[1..], ors[|bs[0]|..], blockSize)
  {
    hide Close, Apart;
    var tail := bs[1..];
    forall k | 0 < k < |tail| ensures Apart(tail[k - 1], tail[k], blockSize) {
      assert Apart(bs[k], bs[k + 1], blockSize);
    }
  }

  /** A first batch cannot be shorter: its last record and the next one would be apart and close. */
  lemma NotShorter(bs: seq<seq<OffsetRec>>, cs: seq<seq<OffsetRec>>, ors: seq<OffsetRec>, blockSize: nat)
    requires Maximal(bs, ors, blockSize) && Maximal(cs, ors, blockSize) && Positive(ors) && bs != [] && cs != []
    ensures |bs[0]| >= |cs[0]|
  {
    hide Close, Apart;
    var b, c := bs[0], cs[0];
    var n := |b|;
    assert ors == b + Concat(bs[1..]) == c + Concat(cs[1..]);
    if n < |c| {
      assert bs[1..] != [];
      var next := bs[1];
      assert Apart(bs[0], bs[1], blockSize);
      assert bs[1..][0] == next;
      assert ors[n] == next[0] && ors[n] == c[n] && ors[n - 1] == b[n - 1] == c[n - 1] && ors[0] == b[0] == c[0];
      CloseNotApart(b, c, next, blockSize);
    }
  }

  lemma CloseNotApart(b: seq<OffsetRec>, c: seq<OffsetRec>, next: seq<OffsetRec>, blockSize: nat)
    requires b != [] && next != [] && |b| < |c| && b[0] == c[0] && b[|b| - 1] == c[|b| - 1] && next[0] == c[|b|]
    requires Close(c, blockSize) && c[|b| - 1].length > 0
    ensures !Apart(b, next, blockSize)
  {
  }

  lemma Determined(ors: seq<OffsetRec>, blockSize: nat)
    requires LaidOut(ors) && Positive(ors)
    ensures forall bs :: Maximal(bs, ors, blockSize) ==> bs == Batches(ors, blockSize)
  {
    hide Maximal, Batches;
    BatchesMaximal(ors, blockSize);
    forall bs | Maximal(bs, ors, blockSize) ensures bs == Batches(ors, blockSize) {
      MaximalUnique(bs, Batches(ors, blockSize), ors, blockSize);
    }
  }

  lemma LocatedPositive(ors: seq<OffsetRec>, addrs: seq<Addr>, lens: seq<nat>)
    requires |addrs| == |lens| && forall k :: 0 <= k < |lens| ==> lens[k] > 0
    requires forall i :: 0 <= i < |ors| ==> Located(ors[i], addrs, lens)
    ensures Positive(ors)
  {
    hide Sum;
  }

  /** The number of batches, counted without building them. */
  method CountReads(ors: seq<OffsetRec>, blockSize: nat) returns (count: nat)
    requires LaidOut(ors)
    ensures count == |Batches(ors, blockSize)|
    ensures Positive(ors) ==> forall bs :: Maximal(bs, ors, blockSize) ==> |bs| == count
  {
    hide LaidOut, Good, Positive, Maximal;
    count := 0;
    var readStart, readEnd, readStarted := 0, 0, false;
    ghost var batch: seq<OffsetRec> := [];
    var i := 0;
    while i < |ors|
      invariant 0 <= i <= |ors|
      invariant readStarted <==> batch != []
      invariant i == |ors| ==> readStarted || ors == []
      invariant !readStarted ==> count + |Batches(ors[i..], blockSize)| == |Batches(ors, blockSize)|
      invariant readStarted ==> count - 1 + |Group(batch, ors[i..], blockSize)| == |Batches(ors, blockSize)|
      invariant readStarted ==> Good(batch, blockSize) && readStart == Start(batch) && readEnd == End(batch)
      invariant |batch| <= i && batch == ors[i - |batch|..i]
      decreases |ors| - i, readStarted
    {
      var rec := ors[i];
      assert ors[i..][1..] == ors[i + 1..];
      if !readStarted {
        readStarted := true;
        count := count + 1;
        readStart := rec.offset;
        readEnd := readStart + rec.length;
        batch := [rec];
        GoodSingle(rec, blockSize);
        i := i + 1;
      } else {
        var (newEnd, canRead) := CanReadAhead(rec, readStart, readEnd, blockSize);
        if canRead {
          LaidOutSlice(ors, i - |batch|, i + 1);
          assert batch + [rec] == ors[i - |batch|..i + 1];
          GoodExtended(batch, rec, blockSize);
          readEnd := newEnd;
          batch := batch + [rec];
          i := i + 1;
        } else {
          readStarted := false;
          batch := [];
        }
      }
    }    if Positive(ors) {
      Determined(ors, blockSize);
    }
  }

  // ----- Reading the batches -----

  datatype Reply = Reply(a: Addr, result: ReadResult)

  /** Entries of one index, sorted by offset, coincide or do not overlap. */
  lemma EntriesLaidOut(ors: seq<OffsetRec>, addrs: seq<Addr>, lens: seq<nat>)
    requires |addrs| == |lens| && forall k :: 0 <= k < |lens| ==> lens[k] > 0
    requires forall i :: 0 <= i < |ors| ==> Located(ors[i], addrs, lens)
    requires forall i, j :: 0 <= i < j < |ors| ==> ors[i].offset <= ors[j].offset
    ensures LaidOut(ors)
  {
    hide Sum;
    forall i, j | 0 <= i < j < |ors|
      ensures (ors[i].offset == ors[j].offset && ors[i].length == ors[j].length) ||
                ors[i].offset + ors[i].length <= ors[j].offset
    {
      var a :| 0 <= a < |addrs| && At(ors[i], addrs, lens, a);
      var b :| 0 <= b < |addrs| && At(ors[j], addrs, lens, b);
      SumStep(lens, a);
      SumStep(lens, b);
      if a < b {
        SumPrefix(lens, a + 1, b);
      } else if b < a {
        SumPrefix(lens, b + 1, a);
      }
    }
  }

  /** One physical read; every record of the batch is cut out of the buffer it fills. */
  method ReadAtOffsets(table: seq<byte>, codec: Codec, rb: seq<OffsetRec>, ghost blockSize: nat)
    returns (out: seq<Reply>)
    requires Good(rb, blockSize) && End(rb) <= |table|
    ensures |out| == |rb|
    ensures forall i :: 0 <= i < |rb| ==>
              rb[i].offset + rb[i].length <= |table|
              && out[i] == Reply(rb[i].a, DecodeRecord(codec, table[rb[i].offset..rb[i].offset + rb[i].length]))
  {
    hide DecodeRecord;
    var start, end := Start(rb), End(rb);
    var buff := table[start..end];
    out := [];
    for i := 0 to |rb|
      invariant |out| == i
      invariant forall k :: 0 <= k < i ==>
                  out[k] == Reply(rb[k].a, DecodeRecord(codec, table[rb[k].offset..rb[k].offset + rb[k].length]))
    {
      var lo := rb[i].offset - start;
      Sub(table, start, end, lo, lo + rb[i].length);
      out := out + [Reply(rb[i].a, DecodeRecord(codec, buff[lo..lo + rb[i].length]))];
    }
  }

  /** The chunk written for the address of rec, wherever it lies in the table. */
  ghost predicate Right(reply: Reply, addrs: seq<Addr>, datas: seq<seq<byte>>)
    requires |addrs| == |datas|
  {
    exists ord :: 0 <= ord < |addrs| && addrs[ord] == reply.a && reply.result == Chunk(datas[ord])
  }

  lemma RightReply(tr: TableReader, rec: OffsetRec, datas: seq<seq<byte>>)
    requires tr.Valid() && Sound(tr.codec) && |datas| == |tr.addrs| && tr.records == Records(tr.codec, datas)
    requires Located(rec, tr.addrs, Lens(tr.records))
    ensures rec.offset + rec.length <= |tr.table|
    ensures Right(Reply(rec.a, DecodeRecord(tr.codec, tr.table[rec.offset..rec.offset + rec.length])), tr.addrs, datas)
  {
    hide DecodeRecord, Record, Sum, Flatten;
    var ord :| 0 <= ord < |tr.addrs| && At(rec, tr.addrs, Lens(tr.records), ord);
    RecordInTable(tr.records, tr.table, ord);
    DecodeInverts(tr.codec, datas[ord]);
  }

  function ReplyAddrs(out: seq<Reply>): (r: seq<Addr>)
    ensures |r| == |out| && forall i :: 0 <= i < |r| ==> r[i] == out[i].a
  {
    seq(|out|, i requires 0 <= i < |out| => out[i].a)
  }

  /** Reads one batch and decodes its chunks. */
  method ReadBatch(tr: TableReader, rb: seq<OffsetRec>, ghost datas: seq<seq<byte>>) returns (out: seq<Reply>)
    requires tr.Valid() && Sound(tr.codec) && |datas| == |tr.addrs| && tr.records == Records(tr.codec, datas)
    requires Good(rb, tr.blockSize) && forall i :: 0 <= i < |rb| ==> Located(rb[i], tr.addrs, Lens(tr.records))
    ensures ReplyAddrs(out) == AddrsOf(rb)
    ensures forall i :: 0 <= i < |out| ==> Right(out[i], tr.addrs, datas)
  {
    hide DecodeRecord, TableReader.Valid, Located, LaidOut, Good, Right, Record;
    forall i | 0 <= i < |rb|
      ensures rb[i].offset + rb[i].length <= |tr.table|
      ensures Right(Reply(rb[i].a, DecodeRecord(tr.codec, tr.table[rb[i].offset..rb[i].offset + rb[i].length])),
                tr.addrs, datas)
    {
      RightReply(tr, rb[i], datas);
    }
    GoodIsNonempty(rb, tr.blockSize);
    out := ReadAtOffsets(tr.table, tr.codec, rb, tr.blockSize);
  }

  /**
   * The number of physical reads that answering the requests takes: one for each of the batches GetMany makes of them.
   */
  method CalcReads(tr: TableReader, reqs: array<GetRecord>)
    returns (count: nat, remaining: bool, ghost ors: seq<OffsetRec>)
    requires tr.Valid() && SortedGets(reqs[..]) && forall k :: 0 <= k < |tr.records| ==> tr.records[k] != []
    modifies reqs
    ensures remaining <==> exists i :: 0 <= i < reqs.Length && !reqs[i].found
    ensures forall i :: 0 <= i < reqs.Length ==> reqs[i] == Found(old(reqs[i]), tr.addrs)
    ensures multiset(AddrsOf(ors)) == multiset(NewlyFound(old(reqs[..]), tr.addrs))
    ensures LaidOut(ors) && forall i :: 0 <= i < |ors| ==> Located(ors[i], tr.addrs, Lens(tr.records))
    ensures exists bs :: Maximal(bs, ors, tr.blockSize) && |bs| == count
    ensures forall bs :: Maximal(bs, ors, tr.blockSize) ==> |bs| == count
  {
    hide TableReader.Valid, Located, LaidOut, Good, NewlyFound, Found, Batches, Maximal;
    assert |tr.records| == |tr.addrs| by { ReaderLengths(tr); }
    var offsets;
    offsets, remaining := tr.FindOffsets(reqs);
    ors := offsets;
    EntriesLaidOut(ors, tr.addrs, Lens(tr.records));
    BatchesMaximal(ors, tr.blockSize);
    LocatedPositive(ors, tr.addrs, Lens(tr.records));
    count := CountReads(offsets, tr.blockSize);
  }

  lemma ReaderLengths(tr: TableReader)
    requires tr.Valid()
    ensures |tr.records| == |tr.addrs|
  {
    hide OnHeapTableIndex.Represents, Flatten;
  }

  /** Retrieves every requested chunk the table holds, each with the bytes that were written for it. */
  method GetMany(tr: TableReader, reqs: array<GetRecord>, ghost datas: seq<seq<byte>>)
    returns (out: seq<Reply>, remaining: bool)
    requires tr.Valid() && Sound(tr.codec) && |datas| == |tr.addrs| && tr.records == Records(tr.codec, datas)
    requires SortedGets(reqs[..])
    modifies reqs
    ensures remaining <==> exists i :: 0 <= i < reqs.Length && !reqs[i].found
    ensures forall i :: 0 <= i < reqs.Length ==> reqs[i] == Found(old(reqs[i]), tr.addrs)
    ensures multiset(ReplyAddrs(out)) == multiset(NewlyFound(old(reqs[..]), tr.addrs))
    ensures forall i :: 0 <= i < |out| ==> Right(out[i], tr.addrs, datas)
  {
    hide TableReader.Valid, Located, LaidOut, Good, Right, NewlyFound, Records, Found, Sound;
    var ors;
    ors, remaining := tr.FindOffsets(reqs);
    PositiveLens(tr, datas);
    EntriesLaidOut(ors, tr.addrs, Lens(tr.records));
    out := GetManyAtOffsets(tr, ors, datas);
  }

  method GetManyAtOffsets(tr: TableReader, ors: seq<OffsetRec>, ghost datas: seq<seq<byte>>) returns (out: seq<Reply>)
    requires tr.Valid() && Sound(tr.codec) && |datas| == |tr.addrs| && tr.records == Records(tr.codec, datas)
    requires LaidOut(ors) && forall i :: 0 <= i < |ors| ==> Located(ors[i], tr.addrs, Lens(tr.records))
    ensures ReplyAddrs(out) == AddrsOf(ors)
    ensures forall i :: 0 <= i < |out| ==> Right(out[i], tr.addrs, datas)
  {
    hide TableReader.Valid, Located, LaidOut, Good, Right, Records, Sound, Batches, Maximal, Lens, Concat, AddrsOf,
      ReplyAddrs;
    BatchesPartition(ors, tr.blockSize);
    var batches := ToReadBatches(ors, tr.blockSize);
    out := [];
    ghost var done: seq<OffsetRec> := [];
    ConcatEnds(done, batches);
    for k := 0 to |batches|
      invariant done + Concat(batches[k..]) == ors
      invariant ReplyAddrs(out) == AddrsOf(done)
      invariant forall i :: 0 <= i < |out| ==> Right(out[i], tr.addrs, datas)
    {
      var rb := batches[k];
      ConcatStep(done, batches, k);
      forall i | 0 <= i < |rb| ensures Located(rb[i], tr.addrs, Lens(tr.records)) {
        assert rb[i] == ors[|done| + i];
      }
      var replies := ReadBatch(tr, rb, datas);
      AddrsAppend(out, replies, done, rb);
      out := out + replies;
      done := done + rb;
    }
    assert done == ors by { ConcatEnds(done, batches); }
  }

  lemma AddrsAppend(a: seq<Reply>, b: seq<Reply>, p: seq<OffsetRec>, q: seq<OffsetRec>)
    ensures ReplyAddrs(a + b) == ReplyAddrs(a) + ReplyAddrs(b) && AddrsOf(p + q) == AddrsOf(p) + AddrsOf(q)
  {
  }

  lemma ConcatEnds(done: seq<OffsetRec>, batches: seq<seq<OffsetRec>>)
    ensures done + Concat(batches[|batches|..]) == done && Concat(batches[0..]) == Concat(batches)
    ensures ReplyAddrs([]) == AddrsOf([]) == []
  {
    assert batches[0..] == batches;
  }

  lemma ConcatStep(done: seq<OffsetRec>, batches: seq<seq<OffsetRec>>, k: nat)
    requires k < |batches|
    ensures done + Concat(batches[k..]) == (done + batches[k]) + Concat(batches[k + 1..])
  {
    assert batches[k..][1..] == batches[k + 1..];
    assert done + (batches[k] + Concat(batches[k + 1..])) == (done + batches[k]) + Concat(batches[k + 1..]);
  }

  lemma GoodIsNonempty(b: seq<OffsetRec>, blockSize: nat)
    requires Good(b, blockSize)
    ensures b != []
  {
  }

  lemma PositiveLens(tr: TableReader, datas: seq<seq<byte>>)
    requires tr.records == Records(tr.codec, datas)
    ensures forall k :: 0 <= k < |Lens(tr.records)| ==> Lens(tr.records)[k] > 0
  {
  }
}
