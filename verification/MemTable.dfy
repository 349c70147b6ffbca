/** The in-memory table. */
module MemTable {

  // Chunks accumulate in a map and are written out as one table file.

  import opened Bytes
  import opened Options
  import opened Sorting
  import opened TableFile
  import opened TableIndex
  import opened TableWriter

  // ----- Space -----

  /** The buffer size the writer allocates: it budgets for chunks of the (rounded down) average size. */
  function MaxTableSize(n: nat, totalData: nat): nat
    requires n > 0
  {
    n * (32 + MaxEncodedLen(totalData / n)) + FOOTER_SIZE
  }

  function MaxLens(lens: seq<nat>): (r: seq<nat>)
    ensures |r| == |lens|
    ensures forall i :: 0 <= i < |r| ==> r[i] == MaxEncodedLen(lens[i])
  {
    seq(|lens|, i requires 0 <= i < |lens| => MaxEncodedLen(lens[i]))
  }

  lemma {:induction false} SumOfMaxLens(lens: seq<nat>)
    ensures 6 * Sum(MaxLens(lens)) <= 192 * |lens| + 7 * Sum(lens)
    ensures Sum(MaxLens(lens)) >= 32 * |lens| + Sum(lens)
  {
    if lens != [] {
      var k := |lens| - 1;
      SumOfMaxLens(lens[..k]);
      assert MaxLens(lens)[..k] == MaxLens(lens[..k]);
    }
  }

  lemma {:induction false} SumMonotone(a: seq<nat>, b: seq<nat>)
    requires |a| == |b| && forall i :: 0 <= i < |a| ==> a[i] <= b[i]
    ensures Sum(a) <= Sum(b)
  {
    if a != [] {
      SumMonotone(a[..|a| - 1], b[..|b| - 1]);
    }
  }

  /** The part of the buffer meant for the encoded chunks. */
  function Budget(n: nat, t: nat): nat
    requires n > 0
  {
    n * MaxEncodedLen(t / n)
  }

  lemma TableSizeIsBudget(n: nat, t: nat)
    requires n > 0
    ensures MaxTableSize(n, t) == 32 * n + Budget(n, t) + FOOTER_SIZE
  {
    Distribute(n, 32, MaxEncodedLen(t / n));
  }

  lemma Distribute(n: nat, a: nat, b: nat)
    ensures n * (a + b) == n * a + n * b
  {
  }

  lemma Quotient(t: nat, n: nat)
    requires n > 0
    ensures n * (t / n) <= t < n * (t / n) + n
  {
  }

  lemma AtMost(n: nat, r: nat, bound: nat)
    requires r <= bound
    ensures n * r <= n * bound
  {
  }

  /** Rounding the average down loses less than two bytes a chunk. */
  lemma BudgetBound(n: nat, t: nat)
    requires n > 0
    ensures 6 * Budget(n, t) >= 180 * n + 7 * t
  {
    var avg := t / n;
    var q, r := avg / 6, avg % 6;
    Quotient(t, n);
    Distribute(n, 32 + avg, q);
    Distribute(n, 32, avg);
    Distribute(n, 6 * q, r);
    AtMost(n, r, 5);
    assert n * (6 * q) == 6 * (n * q);
  }

  /**
   * However the chunks before it were encoded, chunk i can be encoded in place: behind them there is still room for the
   * worst case of its own size and the checksum.
   */
  lemma EncodeRoom(lens: seq<nat>, sizes: seq<nat>, i: nat)
    requires i < |lens| && |sizes| == i
    requires forall j :: 0 <= j < i ==> sizes[j] <= MaxEncodedLen(lens[j])
    ensures Sum(sizes) + 4 * i + MaxEncodedLen(lens[i]) + 4 <= MaxTableSize(|lens|, Sum(lens))
  {
    hide Budget, MaxTableSize, Sum;
    var n, t := |lens|, Sum(lens);
    var upTo := MaxLens(lens)[..i + 1];
    SumMonotone(sizes, upTo[..i]);
    SumStep(MaxLens(lens), i);
    assert upTo[..i] == MaxLens(lens)[..i];
    SumPrefix(MaxLens(lens), i + 1, n);
    assert MaxLens(lens)[..n] == MaxLens(lens);
    SumOfMaxLens(lens);
    BudgetBound(n, t);
    TableSizeIsBudget(n, t);
  }

  // ----- Insertion order -----

  /** Requests for addrs, numbered in order. */
  ghost predicate Numbered(order: seq<HasRecord>)
  {
    forall i :: 0 <= i < |order| ==> order[i].order == i && order[i].prefix == Prefix(order[i].a)
  }

  /** The requests with those that `haver` answers marked. */
  function Marked(reqs: seq<HasRecord>, haver: Addr -> bool): (r: seq<HasRecord>)
    ensures |r| == |reqs|
    ensures forall i :: 0 <= i < |r| ==> r[i] == reqs[i].(has := reqs[i].has || haver(reqs[i].a))
  {
    seq(|reqs|, i requires 0 <= i < |reqs| => reqs[i].(has := reqs[i].has || haver(reqs[i].a)))
  }

  predicate PrefixNotAfter(a: HasRecord, b: HasRecord)
  {
    a.prefix <= b.prefix
  }

  ghost predicate InPrefixOrder(reqs: seq<HasRecord>)
  {
    forall i, j :: 0 <= i < j < |reqs| ==> reqs[i].prefix <= reqs[j].prefix
  }

  lemma SortedByPrefix(reqs: seq<HasRecord>)
    requires Sorted(reqs, PrefixNotAfter)
    ensures InPrefixOrder(reqs)
  {
  }

  /** What the tables in front of the memtable answer; they have to be asked in prefix order. */
  function HasMany(reqs: seq<HasRecord>, haver: Addr -> bool): seq<HasRecord>
    requires InPrefixOrder(reqs)
  {
    Marked(reqs, haver)
  }

  /** Sorting by prefix, marking, and sorting back by number gives the marked requests in their first order. */
  lemma OrderRestored(order: seq<HasRecord>, byPrefix: seq<HasRecord>, back: seq<HasRecord>, haver: Addr -> bool)
    requires Numbered(order) && multiset(byPrefix) == multiset(order)
    requires multiset(back) == multiset(Marked(byPrefix, haver))
    requires Sorted(back, (a: HasRecord, b: HasRecord) => a.order <= b.order)
    ensures back == Marked(order, haver)
  {
    hide Prefix;
    var f := (r: HasRecord) => r.(has := r.has || haver(r.a));
    MapPermuted(f, byPrefix, order);
    assert Marked(byPrefix, haver) == MapSeq(f, byPrefix) && Marked(order, haver) == MapSeq(f, order);
    SameWhenSorted(Marked(order, haver), back, (r: HasRecord) => r.order);
  }

  /** The addresses of the requests not marked, in order. */
  function Unheld(order: seq<HasRecord>): (r: seq<Addr>)
  {
    if order == [] then []
    else
      var rest := Unheld(order[..|order| - 1]);
      var last := order[|order| - 1];
      if last.has then rest else rest + [last.a]
  }

  function Pick(chunks: map<Addr, seq<byte>>, addrs: seq<Addr>): (r: seq<seq<byte>>)
    requires forall i :: 0 <= i < |addrs| ==> addrs[i] in chunks
    ensures |r| == |addrs| && forall i :: 0 <= i < |r| ==> r[i] == chunks[addrs[i]]
  {
    seq(|addrs|, i requires 0 <= i < |addrs| => chunks[addrs[i]])
  }

  /** The lengths of the chunks requested, in order. */
  function OrderLens(chunks: map<Addr, seq<byte>>, order: seq<HasRecord>): (r: seq<nat>)
    requires forall i :: 0 <= i < |order| ==> order[i].a in chunks
    ensures |r| == |order| && forall i :: 0 <= i < |r| ==> r[i] == |chunks[order[i].a]|
  {
    seq(|order|, i requires 0 <= i < |order| => |chunks[order[i].a]|)
  }

  lemma {:induction false} CountBound(lens: seq<nat>)
    requires forall i :: 0 <= i < |lens| ==> lens[i] > 0
    ensures |lens| <= Sum(lens)
    ensures forall i :: 0 <= i < |lens| ==> lens[i] <= Sum(lens)
  {
    if lens != [] {
      CountBound(lens[..|lens| - 1]);
    }
  }

  lemma {:induction false} UnheldMembers(order: seq<HasRecord>, a: Addr)
    ensures a in Unheld(order) <==> exists i :: 0 <= i < |order| && order[i].a == a && !order[i].has
  {
    if order != [] {
      var k := |order| - 1;
      UnheldMembers(order[..k], a);
      if i :| 0 <= i < |order| && order[i].a == a && !order[i].has {
        assert i < k ==> order[..k][i] == order[i];
      }
    }
  }

  /** What a memory table keeps: every chunk is numbered once, in insertion order, and the sizes add up. */
  ghost predicate Consistent(chunks: map<Addr, seq<byte>>, order: seq<HasRecord>, totalData: nat)
  {
    && Numbered(order)
    && (forall i, j :: 0 <= i < j < |order| ==> order[i].a != order[j].a)
    && (forall i :: 0 <= i < |order| ==> order[i].a in chunks && chunks[order[i].a] != [])
    && Requested(order) == chunks.Keys
    && totalData == Sum(OrderLens(chunks, order))
  }

  ghost function Requested(order: seq<HasRecord>): set<Addr>
  {
    set i | 0 <= i < |order| :: order[i].a
  }

  lemma RequestedAdd(order: seq<HasRecord>, rec: HasRecord)
    ensures Requested(order + [rec]) == Requested(order) + {rec.a}
  {
    var more := order + [rec];
    assert more[|order|] == rec;
    forall a | a in Requested(order) ensures a in Requested(more) {
      var i :| 0 <= i < |order| && order[i].a == a;
      assert more[i].a == a;
    }
  }

  lemma ConsistentAdd(chunks: map<Addr, seq<byte>>, order: seq<HasRecord>, totalData: nat, h: Addr, data: seq<byte>)
    requires Consistent(chunks, order, totalData) && h !in chunks && data != []
    ensures Consistent(chunks[h := data], order + [HasRecord(h, Prefix(h), |order|, false)], totalData + |data|)
  {
    hide Prefix, Sum, Requested;
    var rec := HasRecord(h, Prefix(h), |order|, false);
    var lens := OrderLens(chunks, order);
    RequestedAdd(order, rec);
    assert OrderLens(chunks[h := data], order + [rec]) == lens + [|data|];
    assert Sum(lens + [|data|]) == Sum(lens) + |data| by {
      SumStep(lens + [|data|], |lens|);
      assert (lens + [|data|])[..|lens|] == lens && (lens + [|data|])[..|lens| + 1] == lens + [|data|];
    }
  }

  lemma ConsistentMark(chunks: map<Addr, seq<byte>>, order: seq<HasRecord>, totalData: nat, haver: Addr -> bool)
    requires Consistent(chunks, order, totalData)
    ensures Consistent(chunks, Marked(order, haver), totalData)
  {
    hide Prefix, Sum;
    var m := Marked(order, haver);
    assert OrderLens(chunks, m) == OrderLens(chunks, order);
    assert Requested(m) == Requested(order) by {
      assert forall i :: 0 <= i < |order| ==> m[i].a == order[i].a;
    }
  }

  // ----- When the table fits -----

  /** The size of a table of the given chunks. */
  function TableSize(c: Codec, datas: seq<seq<byte>>): nat
  {
    |Flatten(Records(c, datas))| + IndexSize(|datas|) + FOOTER_SIZE
  }

  /** The size of a table whose every chunk takes the most that snappy may make of it. */
  function WorstSize(datas: seq<seq<byte>>): nat
  {
    Sum(MaxLens(Lens(datas))) + 32 * |datas| + FOOTER_SIZE
  }

  lemma {:induction false} AtMostWorst(c: Codec, datas: seq<seq<byte>>)
    requires Sound(c)
    ensures TableSize(c, datas) <= WorstSize(datas)
  {
    hide Sound, Record, MaxEncodedLen;
    if datas != [] {
      var k := |datas| - 1;
      AtMostWorst(c, datas[..k]);
      RecordLength(c, datas[k]);
      assert Records(c, datas)[..k] == Records(c, datas[..k]);
      assert MaxLens(Lens(datas))[..k] == MaxLens(Lens(datas[..k]));
    }
  }

  /** A codec that pads every chunk to the most it may take, behind a mark. */
  function WorstCodec(): Codec
  {
    Codec(Padded, Unpadded, (d: seq<byte>) => 0)
  }

  function Padded(d: seq<byte>): seq<byte>
  {
    d + [1] + seq(31 + |d| / 6, i => 0)
  }

  function Unpadded(e: seq<byte>): Option<seq<byte>>
  {
    if e == [] then None
    else if e[|e| - 1] == 0 then Unpadded(e[..|e| - 1])
    else Some(e[..|e| - 1])
  }

  lemma {:induction false} UnpadPadded(d: seq<byte>, k: nat)
    ensures Unpadded(d + [1] + seq(k, i => 0)) == Some(d)
  {
    var e: seq<byte> := d + [1] + seq(k, i => 0);
    if k == 0 {
      assert e == d + [1] && e[..|e| - 1] == d;
    } else {
      UnpadPadded(d, k - 1);
      assert e[..|e| - 1] == d + [1] + seq(k - 1, i => 0);
    }
  }

  lemma WorstSound()
    ensures Sound(WorstCodec())
  {
    forall d: seq<byte> ensures Unpadded(Padded(d)) == Some(d) {
      UnpadPadded(d, 31 + |d| / 6);
    }
  }

  lemma {:induction false} WorstReached(datas: seq<seq<byte>>)
    ensures TableSize(WorstCodec(), datas) == WorstSize(datas)
  {
    hide MaxEncodedLen;
    if datas != [] {
      var k, c := |datas| - 1, WorstCodec();
      WorstReached(datas[..k]);
      assert |Record(c, datas[k])| == MaxEncodedLen(|datas[k]|) + 4 by { PaddedLength(datas[k]); }
      assert Records(c, datas)[..k] == Records(c, datas[..k]);
      assert MaxLens(Lens(datas))[..k] == MaxLens(Lens(datas[..k]));
    }
  }

  lemma PaddedLength(d: seq<byte>)
    ensures |Padded(d)| == MaxEncodedLen(|d|)
  {
  }

  lemma UnheldKnown(chunks: map<Addr, seq<byte>>, order: seq<HasRecord>)
    requires forall i :: 0 <= i < |order| ==> order[i].a in chunks
    ensures forall i :: 0 <= i < |Unheld(order)| ==> Unheld(order)[i] in chunks
  {
    forall i | 0 <= i < |Unheld(order)| ensures Unheld(order)[i] in chunks {
      UnheldMembers(order, Unheld(order)[i]);
    }
  }

  /**
   * Whatever the codec makes of the chunks, their table fits exactly when the worst encodings of the unmarked ones do.
   */
  lemma IndexFitsExactly(chunks: map<Addr, seq<byte>>, order: seq<HasRecord>, totalData: nat)
    requires Consistent(chunks, order, totalData) && order != []
    ensures forall i :: 0 <= i < |Unheld(order)| ==> Unheld(order)[i] in chunks
    ensures var datas, room := Pick(chunks, Unheld(order)), MaxTableSize(|order|, totalData);
            (forall c: Codec :: Sound(c) ==> TableSize(c, datas) <= room) <==> WorstSize(datas) <= room
  {
    hide Sound, Sum, MaxTableSize, Unheld, Prefix, TableSize, WorstSize;
    UnheldKnown(chunks, order);
    var datas, room := Pick(chunks, Unheld(order)), MaxTableSize(|order|, totalData);
    WorstSound();
    WorstReached(datas);
    forall c: Codec | Sound(c) ensures TableSize(c, datas) <= WorstSize(datas) {
      AtMostWorst(c, datas);
    }
  }

  /** It does if the worst encodings of all the chunks stay within those of so many average chunks. */
  lemma WithinBudget(chunks: map<Addr, seq<byte>>, order: seq<HasRecord>, totalData: nat)
    requires Consistent(chunks, order, totalData) && order != []
    ensures forall i :: 0 <= i < |Unheld(order)| ==> Unheld(order)[i] in chunks
    ensures Sum(MaxLens(OrderLens(chunks, order))) <= Budget(|order|, totalData) ==>
              WorstSize(Pick(chunks, Unheld(order))) <= MaxTableSize(|order|, totalData)
  {
    hide Sum, Budget, MaxTableSize, Unheld, Prefix, WorstSize;
    UnheldKnown(chunks, order);
    UnheldSize(chunks, order);
    TableSizeIsBudget(|order|, totalData);
  }

  lemma {:induction false} UnheldSize(chunks: map<Addr, seq<byte>>, order: seq<HasRecord>)
    requires forall i :: 0 <= i < |order| ==> order[i].a in chunks
    ensures forall i :: 0 <= i < |Unheld(order)| ==> Unheld(order)[i] in chunks
    ensures WorstSize(Pick(chunks, Unheld(order)))
            <= Sum(MaxLens(OrderLens(chunks, order))) + 32 * |order| + FOOTER_SIZE
  {
    hide MaxEncodedLen, WorstSize, Unheld, Sum;
    UnheldKnown(chunks, order);
    if order == [] {
      UnheldEnds(order);
      assert Pick(chunks, Unheld(order)) == [] && WorstSize([]) == FOOTER_SIZE by { WorstNone(); }
    } else {
      var k := |order| - 1;
      UnheldSize(chunks, order[..k]);
      UnheldStep(order, k);
      UnheldEnds(order);
      var lens := MaxLens(OrderLens(chunks, order));
      assert lens[..k] == MaxLens(OrderLens(chunks, order[..k])) && lens[..k + 1] == lens;
      SumStep(lens, k);
      if order[k].has {
        assert Unheld(order) == Unheld(order[..k]);
      } else {
        WorstStep(Pick(chunks, Unheld(order[..k])), chunks[order[k].a]);
        assert Pick(chunks, Unheld(order)) == Pick(chunks, Unheld(order[..k])) + [chunks[order[k].a]];
      }
    }
  }

  lemma WorstNone()
    ensures WorstSize([]) == FOOTER_SIZE
  {
  }

  lemma WorstStep(datas: seq<seq<byte>>, d: seq<byte>)
    ensures WorstSize(datas + [d]) == WorstSize(datas) + MaxEncodedLen(|d|) + 32
  {
    hide MaxEncodedLen;
    assert MaxLens(Lens(datas + [d]))[..|datas|] == MaxLens(Lens(datas));
  }

  datatype WriteResult = Written(name: Addr, data: seq<byte>, count: nat) | ErrZeroChunks | ErrShortWrite

  class MemTable {
    const maxData: nat
    var chunks: map<Addr, seq<byte>>
    var order: seq<HasRecord>
    var totalData: nat

    ghost predicate Valid()
      reads this
    {
      MaxEncodedLen(maxData) + 4 < U32 && Consistent(chunks, order, totalData) && totalData <= maxData
    }

    constructor (memTableSize: nat)
      requires MaxEncodedLen(memTableSize) + 4 < U32
      ensures Valid() && chunks == map[] && order == [] && totalData == 0 && maxData == memTableSize
    {
      maxData, chunks, order, totalData := memTableSize, map[], [], 0;
    }

    /** Accepts a chunk unless it is new and does not fit any more. */
    method AddChunk(h: Addr, data: seq<byte>) returns (ok: bool)
      requires Valid() && data != []
      modifies this
      ensures Valid()
      ensures ok <==> h in old(chunks) || old(totalData) + |data| <= maxData
      ensures chunks == if ok && h !in old(chunks) then old(chunks)[h := data] else old(chunks)
      ensures order == old(order) +
                if ok && h !in old(chunks) then [HasRecord(h, Prefix(h), |old(order)|, false)] else []
      ensures totalData == old(totalData) + if ok && h !in old(chunks) then |data| else 0
    {
      hide MaxEncodedLen, Prefix, Consistent;
      if h in chunks {
        return true;
      }
      if totalData + |data| > maxData {
        return false;
      }
      ConsistentAdd(chunks, order, totalData, h, data);
      totalData := totalData + |data|;
      chunks := chunks[h := data];
      order := order + [HasRecord(h, Prefix(h), |order|, false)];
      return true;
    }

    /** Answers the requests in prefix order and restores the insertion order. */
    method MarkHeld(haver: Addr -> bool)
      requires Valid()
      modifies this`order
      ensures Valid() && order == Marked(old(order), haver)
    {
      hide MaxEncodedLen, Prefix, Sum, Sorted;
      ghost var first := order;
      assert Numbered(first);
      var byPrefix := Sort(order, PrefixNotAfter);
      assert InPrefixOrder(byPrefix) by { SortedByPrefix(byPrefix); }
      var marked := HasMany(byPrefix, haver);
      order := Sort(marked, (a: HasRecord, b: HasRecord) => a.order <= b.order);
      OrderRestored(first, byPrefix, order, haver);
      ConsistentMark(chunks, first, totalData, haver);
    }

    /** Adds the unmarked chunks to a fresh writer; there is room for each of them. */
    method WriteAll(tw: TableWriter)
      requires Valid() && order != [] && Sound(tw.codec)
      requires tw.Valid() && tw.addrs == [] && tw.datas == [] && tw.pos == 0
      requires tw.buff.Length == MaxTableSize(|order|, totalData)
      modifies tw, tw.buff
      ensures tw.Valid() && tw.addrs == Unheld(order)
      ensures (forall i :: 0 <= i < |tw.addrs| ==> tw.addrs[i] in chunks) && tw.datas == Pick(chunks, tw.addrs)
    {
      hide MaxEncodedLen, MaxTableSize, Prefix, Flatten, Record, Sum, InOrder, Consistent, Unheld, TableWriter.Valid;
      ConsistentReads(chunks, order, totalData);
      ghost var lens := OrderLens(chunks, order);
      ghost var sizes: seq<nat> := [];
      CountBound(lens);
      UnheldEnds(order);
      for i := 0 to |order|
        invariant tw.Valid() && tw.addrs == Unheld(order[..i])
        invariant forall k :: 0 <= k < |tw.addrs| ==> tw.addrs[k] in chunks
        invariant tw.datas == Pick(chunks, tw.addrs)
        invariant Bounded(sizes, lens, i) && tw.pos <= Sum(sizes) + 4 * i
      {
        var rec := order[i];
        UnheldStep(order, i);
        if rec.has {
          NextSize(sizes, lens, i, 0);
          sizes := sizes + [0];
        } else {
          var data := chunks[rec.a];
          EncodeRoom(lens, sizes, i);
          Small(|data|, maxData);
          RecordLength(tw.codec, data);
          NextSize(sizes, lens, i, |tw.codec.encode(data)|);
          sizes := sizes + [|tw.codec.encode(data)|];
          tw.AddChunk(rec.a, data);
        }
      }
    }

    method MakeTable(codec: Codec, sha: seq<byte> -> Addr) returns (r: WriteResult)
      requires Valid() && Sound(codec) && order != []
      ensures r != ErrZeroChunks
      ensures forall i :: 0 <= i < |Unheld(order)| ==> Unheld(order)[i] in chunks
      ensures r == ErrShortWrite <==>
              TableSize(codec, Pick(chunks, Unheld(order))) > MaxTableSize(|order|, totalData)
      ensures r.Written? ==> HoldsUnheld(r, codec, chunks, order)
    {
      hide MaxEncodedLen, MaxTableSize, Prefix, IsTable, Record, Sum, Consistent, Flatten;
      var buff := new byte[MaxTableSize(|order|, totalData)];
      var tw := new TableWriter(buff, codec, sha);
      WriteAll(tw);
      var count := |tw.prefixes|;
      if tw.pos + IndexSize(count) + FOOTER_SIZE > buff.Length {
        return ErrShortWrite;
      }
      UnheldCount(order);
      ConsistentReads(chunks, order, totalData);
      CountBound(OrderLens(chunks, order));
      Small(|order|, maxData);
      ghost var u := tw.totalUncompressedData;
      var length, name := tw.Finish();
      r := Written(name, buff[..length], count);
      assert IsTable(r.data, Unheld(order), Records(codec, Pick(chunks, Unheld(order))), u);
    }

    /**
     * Writes the chunks that `haver` does not already hold as one table, in insertion order. Encoding never runs out of
     * room; writing the index does exactly when the encodings ran past the average budget.
     */
    method Write(haver: Option<Addr -> bool>, codec: Codec, sha: seq<byte> -> Addr) returns (r: WriteResult)
      requires Valid() && Sound(codec)
      modifies this`order
      ensures Valid()
      ensures order == if haver.Some? && old(order) != [] then Marked(old(order), haver.value) else old(order)
      ensures r == ErrZeroChunks <==> old(order) == []
      ensures forall i :: 0 <= i < |Unheld(order)| ==> Unheld(order)[i] in chunks
      ensures r == ErrShortWrite <==>
              order != [] && TableSize(codec, Pick(chunks, Unheld(order))) > MaxTableSize(|order|, totalData)
      ensures order != [] && WorstSize(Pick(chunks, Unheld(order))) <= MaxTableSize(|order|, totalData) ==> r.Written?
      ensures order != [] && Sum(MaxLens(OrderLens(chunks, order))) <= Budget(|order|, totalData) ==> r.Written?
      ensures r.Written? ==> HoldsUnheld(r, codec, chunks, order)
    {
      hide MaxEncodedLen, Consistent, HoldsUnheld, TableSize, WorstSize, MaxTableSize, Sum, Budget, Sound, Prefix;
      if order == [] {
        return ErrZeroChunks;
      }
      if haver.Some? {
        MarkHeld(haver.value);
      }
      r := MakeTable(codec, sha);
      AtMostWorst(codec, Pick(chunks, Unheld(order)));
      WithinBudget(chunks, order, totalData);
    }
  }

  method TwoChunks(a: Addr, b: Addr) returns (mt: MemTable)
    requires a != b
    ensures fresh(mt) && mt.Valid() && mt.totalData == 3 && mt.chunks == map[a := [0], b := [0, 0]]
    ensures mt.order == [HasRecord(a, Prefix(a), 0, false), HasRecord(b, Prefix(b), 1, false)]
  {
    hide Consistent, Prefix;
    mt := new MemTable(1024);
    var _ := mt.AddChunk(a, [0]);
    var _ := mt.AddChunk(b, [0, 0]);
  }

  /** Two chunks of one and two bytes: a codec that uses all it may leaves the index one byte short. */
  method RunsOutOfRoom(a: Addr, b: Addr, sha: seq<byte> -> Addr) returns (r: WriteResult)
    requires a != b
    ensures r == ErrShortWrite
  {
    hide *;
    var mt := TwoChunks(a, b);
    WorstSound();
    r := mt.Write(None, WorstCodec(), sha);
    WorstReached(Pick(mt.chunks, Unheld(mt.order)));
    OneShort(mt.order, mt.chunks, a, b);
  }

  lemma OneShort(order: seq<HasRecord>, chunks: map<Addr, seq<byte>>, a: Addr, b: Addr)
    requires a != b && order == [HasRecord(a, Prefix(a), 0, false), HasRecord(b, Prefix(b), 1, false)]
    requires chunks == map[a := [0], b := [0, 0]]
    ensures forall i :: 0 <= i < |Unheld(order)| ==> Unheld(order)[i] in chunks
    ensures WorstSize(Pick(chunks, Unheld(order))) > MaxTableSize(2, 3)
  {
    hide Prefix, Unheld;
    UnheldEnds(order);
    UnheldStep(order, 0);
    UnheldStep(order, 1);
    assert Unheld(order) == [a, b];
    var lens := MaxLens(Lens(Pick(chunks, [a, b])));
    assert lens == [33, 34];
    assert lens[..1] == [33] && Sum([33]) == 33;
  }

  /** The data written is a table of exactly the unmarked chunks, in order. */
  ghost predicate HoldsUnheld(r: WriteResult, codec: Codec, chunks: map<Addr, seq<byte>>, order: seq<HasRecord>)
    requires r.Written?
  {
    var addrs := Unheld(order);
    && (forall i :: 0 <= i < |addrs| ==> addrs[i] in chunks)
    && r.count == |addrs|
    && exists u :: IsTable(r.data, addrs, Records(codec, Pick(chunks, addrs)), u)
  }

  lemma ConsistentReads(chunks: map<Addr, seq<byte>>, order: seq<HasRecord>, totalData: nat)
    requires Consistent(chunks, order, totalData)
    ensures forall i :: 0 <= i < |order| ==> order[i].a in chunks && chunks[order[i].a] != []
    ensures totalData == Sum(OrderLens(chunks, order))
  {
  }

  lemma UnheldEnds(order: seq<HasRecord>)
    ensures Unheld(order[..0]) == [] && Unheld(order[..|order|]) == Unheld(order)
  {
    assert order[..|order|] == order;
  }

  lemma UnheldStep(order: seq<HasRecord>, i: nat)
    requires i < |order|
    ensures Unheld(order[..i + 1]) == Unheld(order[..i]) + if order[i].has then [] else [order[i].a]
  {
    assert order[..i + 1][..i] == order[..i];
  }

  ghost predicate Bounded(sizes: seq<nat>, lens: seq<nat>, i: nat)
  {
    |sizes| == i <= |lens| && forall j :: 0 <= j < i ==> sizes[j] <= MaxEncodedLen(lens[j])
  }

  lemma NextSize(sizes: seq<nat>, lens: seq<nat>, i: nat, size: nat)
    requires Bounded(sizes, lens, i) && i < |lens| && size <= MaxEncodedLen(lens[i])
    ensures Bounded(sizes + [size], lens, i + 1) && Sum(sizes + [size]) == Sum(sizes) + size
  {
    assert (sizes + [size])[..i] == sizes;
  }

  lemma Small(len: nat, maxData: nat)
    requires len <= maxData && MaxEncodedLen(maxData) + 4 < U32
    ensures MaxEncodedLen(len) + 4 < U32 && len < U32
  {
  }

  lemma RecordLength(c: Codec, data: seq<byte>)
    requires Sound(c)
    ensures |Record(c, data)| == |c.encode(data)| + 4 && |c.encode(data)| <= MaxEncodedLen(|data|)
  {
  }

  lemma {:induction false} UnheldCount(order: seq<HasRecord>)
    ensures |Unheld(order)| <= |order|
  {
    if order != [] {
      UnheldCount(order[..|order| - 1]);
    }
  }
}
