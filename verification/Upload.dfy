/** Splitting a conjoined table into the parts of a multipart upload. */
module Upload {
  import opened Bytes
  import opened Conjoin
  import opened ConjoinPlan
  import opened Options
  import opened Sorting
  import opened TableFile
  import opened TableIndex
  import opened TableReader

  // ----- Splitting one large source -----

  /** The number of parts: the quotient, rounded up. */
  function NumParts(dataLen: nat, maxPartSize: nat): nat
    requires maxPartSize > 0
  {
    dataLen / maxPartSize + if dataLen % maxPartSize > 0 then 1 else 0
  }

  lemma NumPartsBounds(d: nat, max: nat)
    requires d > max > 0
    ensures NumParts(d, max) >= 2
    ensures (NumParts(d, max) - 1) * max < d <= NumParts(d, max) * max
  {
    var q, r := d / max, d % max;
    assert d == q * max + r;
    assert (q + 1) * max == q * max + max;
    if q == 1 {
      assert r > 0;
    }
    assert (q - 1) * max == q * max - max;
  }

  lemma Product(n: nat, a: nat, b: nat)
    requires a >= b
    ensures n * a >= n * b
  {
  }

  lemma DivMod(d: nat, parts: nat)
    requires parts > 0
    ensures d == (d / parts) * parts + d % parts
  {
  }

  /** Enough data for so many parts of at least the minimum. */
  lemma EnoughForMin(d: nat, parts: nat, min: nat, max: nat)
    requires parts >= 2 && (parts - 1) * max < d && max >= 2 * min
    ensures d >= parts * min
  {
    Product(parts - 1, max, 2 * min);
    assert (parts - 1) * (2 * min) == 2 * (parts * min) - 2 * min;
    Product(min, parts, 2);
    assert min * parts == parts * min;
  }

  lemma BaseAtLeast(parts: nat, base: nat, extra: nat, min: nat)
    requires extra < parts && parts * min <= base * parts + extra
    ensures min <= base
  {
    if base < min {
      Product(parts, min, base + 1);
    }
  }

  lemma BaseAtMost(parts: nat, base: nat, extra: nat, max: nat)
    requires extra < parts && base * parts + extra <= parts * max
    ensures if extra > 0 then base + 1 <= max else base <= max
  {
    if base > max || (base == max && extra > 0) {
      Product(parts, base, max);
      if base > max {
        Product(parts, base, max + 1);
      }
    }
  }

  /** An even split keeps every part within bounds. */
  lemma EvenSplit(d: nat, parts: nat, min: nat, max: nat)
    requires parts > 0 && parts * min <= d <= parts * max
    ensures min <= d / parts
    ensures if d % parts > 0 then d / parts + 1 <= max else d / parts <= max
  {
    var base, extra := d / parts, d % parts;
    DivMod(d, parts);
    BaseAtLeast(parts, base, extra, min);
    BaseAtMost(parts, base, extra, max);
  }

  function Times(n: nat, size: nat): nat
  {
    if n == 0 then 0 else Times(n - 1, size) + size
  }

  lemma {:induction false} TimesIsProduct(n: nat, size: nat)
    ensures Times(n, size) == size * n
  {
    if n > 0 {
      TimesIsProduct(n - 1, size);
      assert size * n == size * (n - 1) + size;
    }
  }

  /** Splits dataLen into the fewest parts of at most maxPartSize, their sizes differing by at most one. */
  method SplitOnMaxSize(dataLen: nat, maxPartSize: nat, ghost minPartSize: nat) returns (sizes: seq<nat>)
    requires 0 < maxPartSize < dataLen
    ensures Sum(sizes) == dataLen
    ensures |sizes| == NumParts(dataLen, maxPartSize)
    ensures forall i :: 0 <= i < |sizes| ==> sizes[i] <= maxPartSize
    ensures maxPartSize >= 2 * minPartSize ==> forall i :: 0 <= i < |sizes| ==> minPartSize <= sizes[i]
  {
    hide NumParts;
    var numParts := NumParts(dataLen, maxPartSize);
    NumPartsBounds(dataLen, maxPartSize);
    EvenSplit(dataLen, numParts, 0, maxPartSize);
    if maxPartSize >= 2 * minPartSize {
      EnoughForMin(dataLen, numParts, minPartSize, maxPartSize);
      EvenSplit(dataLen, numParts, minPartSize, maxPartSize);
    }
    DivMod(dataLen, numParts);
    sizes := EvenSizes(numParts, dataLen / numParts, dataLen % numParts);
    TimesIsProduct(numParts, dataLen / numParts);
  }

  /** The first `extra` parts get one byte more. */
  method EvenSizes(numParts: nat, baseSize: nat, extra: nat) returns (sizes: seq<nat>)
    requires extra <= numParts
    ensures |sizes| == numParts && Sum(sizes) == Times(numParts, baseSize) + extra
    ensures forall k :: 0 <= k < numParts ==> baseSize <= sizes[k] <= baseSize + (if extra > 0 then 1 else 0)
  {
    var left := extra;
    sizes := [];
    for i := 0 to numParts
      invariant |sizes| == i && left == (if i < extra then extra - i else 0)
      invariant Sum(sizes) == Times(i, baseSize) + extra - left
      invariant forall k :: 0 <= k < i ==> baseSize <= sizes[k] <= baseSize + (if extra > 0 then 1 else 0)
    {
      var size := baseSize;
      if left > 0 {
        size := size + 1;
        left := left - 1;
      }
      assert (sizes + [size])[..i] == sizes;
      sizes := sizes + [size];
    }
  }

  // ----- Dividing a plan -----

  /** A part copied on the server from a range of a source's chunk data. */
  datatype CopyPart = CopyPart(source: Source, offset: nat, length: nat)

  ghost predicate InRange(p: CopyPart)
  {
    p.offset + p.length <= |p.source.tr.table|
  }

  function PartBytes(p: CopyPart): seq<byte>
    requires InRange(p)
  {
    p.source.tr.table[p.offset..p.offset + p.length]
  }

  ghost predicate AllInRange(copies: seq<CopyPart>)
  {
    forall i :: 0 <= i < |copies| ==> InRange(copies[i])
  }

  /** Every part lies in its source and within the size limits. */
  ghost predicate AllSized(copies: seq<CopyPart>, min: nat, max: nat)
  {
    AllInRange(copies) && forall i :: 0 <= i < |copies| ==> min <= copies[i].length <= max
  }

  /** The bytes the copied parts add to the new table, in order. */
  function CopiedBytes(copies: seq<CopyPart>): seq<byte>
    requires AllInRange(copies)
  {
    if copies == [] then [] else CopiedBytes(copies[..|copies| - 1]) + PartBytes(copies[|copies| - 1])
  }

  lemma CopiedOne(copies: seq<CopyPart>, p: CopyPart)
    requires InRange(p) && AllInRange(copies)
    ensures AllInRange(copies + [p]) && CopiedBytes(copies + [p]) == CopiedBytes(copies) + PartBytes(p)
  {
    assert (copies + [p])[..|copies|] == copies;
  }

  /** Copies one source of at least min bytes, split when it is larger than max. */
  method CopySourceParts(sws: SourceWithSize, copies0: seq<CopyPart>, min: nat, max: nat)
    returns (copies: seq<CopyPart>)
    requires DataAt(sws) && 0 < max && 2 * min <= max && min <= sws.dataLen
    requires AllSized(copies0, min, max)
    ensures AllSized(copies, min, max)
    ensures CopiedBytes(copies) == CopiedBytes(copies0) + Flatten(sws.source.tr.records)
  {
    hide CopiedBytes, Flatten, Sum, NumParts;
    var src := sws.source;
    if sws.dataLen <= max {
      var p := CopyPart(src, 0, sws.dataLen);
      CopiedOne(copies0, p);
      return copies0 + [p];
    }
    var lens := SplitOnMaxSize(sws.dataLen, max, min);
    copies := copies0;
    var srcStart := 0;
    SumEnds(lens);
    for i := 0 to |lens|
      invariant srcStart == Sum(lens[..i]) <= sws.dataLen
      invariant AllSized(copies, min, max)
      invariant CopiedBytes(copies) == CopiedBytes(copies0) + src.tr.table[..srcStart]
    {
      SumStep(lens, i);
      SumPrefix(lens, i + 1, |lens|);
      var p := CopyPart(src, srcStart, lens[i]);
      CopiedOne(copies, p);
      assert src.tr.table[..srcStart] + PartBytes(p) == src.tr.table[..srcStart + lens[i]];
      copies := copies + [p];
      srcStart := srcStart + lens[i];
    }
  }

  lemma SumEnds(ls: seq<nat>)
    ensures Sum(ls[..0]) == 0 && ls[..|ls|] == ls
  {
  }

  datatype Division = Division(copies: seq<CopyPart>, buff: seq<byte>) | ErrSplit

  /** The first n sources are copied; they reach the minimum, and the next one, if there is one, does not. */
  ghost predicate LargeCopied(copies: seq<CopyPart>, ss: seq<SourceWithSize>, min: nat, n: nat)
  {
    && n <= |ss| && AllInRange(copies) && CopiedBytes(copies) == AllData(ss[..n])
    && (forall k :: 0 <= k < n ==> ss[k].dataLen >= min)
    && (n < |ss| ==> ss[n].dataLen < min)
  }

  /** Large sources become copied parts; the small ones at the end, and the index, are assembled in a buffer. */
  method DividePlan(plan: CompactionPlan, min: nat, max: nat) returns (r: Division)
    requires 0 < max && forall i :: 0 <= i < |plan.sources| ==> Sized(plan.sources[i])
    ensures r.ErrSplit? <==> max < 2 * min
    ensures r.Division? ==>
              && (AllSized(r.copies, min, max))
              && CopiedBytes(r.copies) + r.buff == AllData(plan.sources) + plan.mergedIndex[..]
              && exists n :: LargeCopied(r.copies, plan.sources, min, n)
  {
    hide CopiedBytes, Sized, Flatten, AllData;
    if max < 2 * min {
      return ErrSplit;
    }
    var ss := plan.sources;
    forall k | 0 <= k < |ss| ensures DataAt(ss[k]) {
      ChunkData(ss[k]);
    }
    var copies: seq<CopyPart> := [];
    var i := 0;
    DataEnds(ss);
    assert CopiedBytes([]) == [] by { NoCopies(); }
    while i < |ss| && ss[i].dataLen >= min
      invariant 0 <= i <= |ss|
      invariant AllSized(copies, min, max)
      invariant CopiedBytes(copies) == AllData(ss[..i])
      invariant forall k :: 0 <= k < i ==> ss[k].dataLen >= min
    {
      DataStep(ss, i);
      copies := CopySourceParts(ss[i], copies, min, max);
      i := i + 1;
    }
    ghost var split := i;
    assert LargeCopied(copies, ss, min, split);
    var manual: seq<byte> := [];
    while i < |ss|
      invariant split <= i <= |ss|
      invariant AllData(ss[..split]) + manual == AllData(ss[..i])
    {
      DataStep(ss, i);
      assert AllData(ss[..split]) + (manual + Flatten(ss[i].source.tr.records)) ==
        (AllData(ss[..split]) + manual) + Flatten(ss[i].source.tr.records);
      manual := manual + ss[i].source.tr.table[..ss[i].dataLen];
      i := i + 1;
    }
    var index := plan.mergedIndex[..];
    assert CopiedBytes(copies) + (manual + index) == (CopiedBytes(copies) + manual) + index;
    r := Division(copies, manual + index);
  }

  lemma NoCopies()
    ensures CopiedBytes([]) == []
  {
  }

  // ----- The parts -----

  datatype UploadedPart = UploadedPart(num: nat, bytes: seq<byte>)

  function PartsBytes(parts: seq<UploadedPart>): seq<byte>
  {
    if parts == [] then [] else PartsBytes(parts[..|parts| - 1]) + parts[|parts| - 1].bytes
  }

  /** Parts numbered from one, in order. */
  ghost predicate InNumberOrder(parts: seq<UploadedPart>)
  {
    forall i :: 0 <= i < |parts| ==> parts[i].num == i + 1
  }

  lemma PartsOne(parts: seq<UploadedPart>, p: UploadedPart)
    ensures PartsBytes(parts + [p]) == PartsBytes(parts) + p.bytes
  {
    assert (parts + [p])[..|parts|] == parts;
  }

  function GetNumParts(dataLen: nat, partSize: nat): (n: nat)
    requires partSize > 0
    ensures n > 0
    ensures n > 1 ==> n * partSize <= dataLen
    ensures dataLen < (n + 1) * partSize
  {
    if dataLen / partSize == 0 then 1 else dataLen / partSize
  }

  lemma WholeParts(dataLen: nat, partSize: nat)
    requires partSize > 0
    ensures GetNumParts(dataLen, partSize) > 1 ==> Times(GetNumParts(dataLen, partSize), partSize) <= dataLen
  {
    var n := GetNumParts(dataLen, partSize);
    if n > 1 {
      TimesIsProduct(n, partSize);
      DivMod(dataLen, partSize);
    }
  }

  lemma {:induction false} TimesMonotone(i: nat, n: nat, size: nat)
    requires i <= n
    ensures Times(i, size) <= Times(n, size)
    decreases n - i
  {
    if i < n {
      TimesMonotone(i + 1, n, size);
    }
  }

  /** The bytes of each copied part. */
  function CopiedParts(copies: seq<CopyPart>): (r: seq<seq<byte>>)
    requires AllInRange(copies)
    ensures |r| == |copies| && forall i :: 0 <= i < |r| ==> r[i] == PartBytes(copies[i])
  {
    seq(|copies|, i requires 0 <= i < |copies| => PartBytes(copies[i]))
  }

  lemma {:induction false} CopiedIsFlat(copies: seq<CopyPart>)
    requires AllInRange(copies)
    ensures CopiedBytes(copies) == Flatten(CopiedParts(copies))
  {
    if copies != [] {
      var k := |copies| - 1;
      CopiedIsFlat(copies[..k]);
      assert CopiedParts(copies)[..k] == CopiedParts(copies[..k]);
    }
  }

  /** One numbered part per copy, then the buffer in slices of partTarget, the last one taking the rest. */
  method NumberParts(copied: seq<seq<byte>>, buff: seq<byte>, partTarget: nat) returns (parts: seq<UploadedPart>)
    requires partTarget > 0
    ensures InNumberOrder(parts)
    ensures PartsBytes(parts) == Flatten(copied) + buff
    ensures |parts| == |copied| + GetNumParts(|buff|, partTarget)
  {
    hide PartsBytes, Flatten, GetNumParts, Times;
    parts := [];
    var partNum := 1;
    FlatEnds(copied);
    for i := 0 to |copied|
      invariant |parts| == i && partNum == i + 1 && InNumberOrder(parts)
      invariant PartsBytes(parts) == Flatten(copied[..i])
    {
      FlatStep(copied, i);
      PartsOne(parts, UploadedPart(partNum, copied[i]));
      parts := parts + [UploadedPart(partNum, copied[i])];
      partNum := partNum + 1;
    }
    var n := GetNumParts(|buff|, partTarget);
    WholeParts(|buff|, partTarget);
    TimesStart(partTarget);
    var start := 0;
    assert buff[..0] == [];
    for i := 0 to n
      invariant |parts| == |copied| + i && partNum == |parts| + 1 && InNumberOrder(parts)
      invariant if i < n then start == Times(i, partTarget) <= |buff| else start == |buff|
      invariant PartsBytes(parts) == Flatten(copied) + buff[..start]
    {
      TimesStep(i, partTarget);
      TimesMonotone(i + 1, n, partTarget);
      var end := if i + 1 == n then |buff| else start + partTarget;
      PartsOne(parts, UploadedPart(partNum, buff[start..end]));
      assert buff[..start] + buff[start..end] == buff[..end];
      assert (Flatten(copied) + buff[..start]) + buff[start..end] ==
        Flatten(copied) + (buff[..start] + buff[start..end]);
      parts := parts + [UploadedPart(partNum, buff[start..end])];
      partNum := partNum + 1;
      start := end;
    }
  }

  lemma FlatEnds(copied: seq<seq<byte>>)
    ensures Flatten(copied[..0]) == [] && copied[..|copied|] == copied && PartsBytes([]) == []
  {
  }

  lemma FlatStep(copied: seq<seq<byte>>, i: nat)
    requires i < |copied|
    ensures Flatten(copied[..i + 1]) == Flatten(copied[..i]) + copied[i]
  {
    assert copied[..i + 1][..i] == copied[..i];
  }

  lemma TimesStart(size: nat)
    ensures Times(0, size) == 0
  {
  }

  lemma TimesStep(i: nat, size: nat)
    ensures Times(i + 1, size) == Times(i, size) + size
  {
  }

  /** However the uploads finish, putting the parts in number order restores the table. */
  lemma ArrivalOrderIrrelevant(parts: seq<UploadedPart>, arrived: seq<UploadedPart>, sorted: seq<UploadedPart>)
    requires InNumberOrder(parts) && multiset(arrived) == multiset(parts)
    requires multiset(sorted) == multiset(arrived)
    requires Sorted(sorted, (a: UploadedPart, b: UploadedPart) => a.num <= b.num)
    ensures PartsBytes(sorted) == PartsBytes(parts)
  {
    SameWhenSorted(parts, sorted, (p: UploadedPart) => p.num);
  }

  /** The uploaded parts, in number order, are the conjoined table. */
  method AssembleTable(plan: CompactionPlan, ghost sources: seq<Source>, min: nat, max: nat, partTarget: nat)
    returns (r: Option<seq<UploadedPart>>)
    requires 0 < max && partTarget > 0
    requires Planned(plan, sources) && forall i :: 0 <= i < |plan.sources| ==> Sized(plan.sources[i])
    ensures r.None? <==> |plan.sources| > 10000 || max < 2 * min
    ensures r.Some? ==>
              && InNumberOrder(r.value)
              && IsTable(PartsBytes(r.value), AllAddrs(plan.sources), AllRecords(plan.sources),
                TotalUncompressed(sources))
  {
    hide IsTable, PartsBytes, CopiedBytes, AllData, AllAddrs, AllRecords, Planned, Sized, TotalUncompressed;
    if |plan.sources| > 10000 {
      return None;
    }
    var d := DividePlan(plan, min, max);
    if d.ErrSplit? {
      return None;
    }
    assert AllInRange(d.copies);
    CopiedIsFlat(d.copies);
    var parts := NumberParts(CopiedParts(d.copies), d.buff, partTarget);
    PlanIsTable(plan, sources, PartsBytes(parts));
    return Some(parts);
  }
}
