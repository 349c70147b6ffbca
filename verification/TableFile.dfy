/** A whole table file: chunk records back to back, then the index, then the footer. */
module TableFile {
  import opened Bytes
  import opened OffsetsReader
  import opened TableIndex

  function Flatten(records: seq<seq<byte>>): seq<byte>
  {
    if records == [] then [] else Flatten(records[..|records| - 1]) + records[|records| - 1]
  }

  function Lens(records: seq<seq<byte>>): (ls: seq<nat>)
    ensures |ls| == |records|
    ensures forall i :: 0 <= i < |ls| ==> ls[i] == |records[i]|
  {
    seq(|records|, i requires 0 <= i < |records| => |records[i]|)
  }

  /** t is a table of the given records, record i at address addrs[i]. */
  ghost predicate IsTable(t: seq<byte>, addrs: seq<Addr>, records: seq<seq<byte>>, uncompressed: nat)
  {
    var d := |Flatten(records)|;
    var n := |addrs|;
    && |t| == d + IndexSize(n) + FOOTER_SIZE
    && t[..d] == Flatten(records)
    && IsIndex(t[d..d + IndexSize(n)], addrs, Lens(records))
    && t[d + IndexSize(n)..] == Footer(n, uncompressed)
  }

  lemma {:induction false} FlattenLength(records: seq<seq<byte>>)
    ensures |Flatten(records)| == Sum(Lens(records))
  {
    if records != [] {
      var k := |records| - 1;
      FlattenLength(records[..k]);
      assert Lens(records)[..k] == Lens(records[..k]);
    }
  }

  lemma {:induction false} FlattenAppend(a: seq<seq<byte>>, b: seq<seq<byte>>)
    ensures Flatten(a + b) == Flatten(a) + Flatten(b)
  {
    if b == [] {
      assert a + b == a;
    } else {
      var k := |b| - 1;
      FlattenAppend(a, b[..k]);
      assert (a + b)[..|a + b| - 1] == a + b[..k] && (a + b)[|a + b| - 1] == b[k];
      assert Flatten(a) + Flatten(b[..k]) + b[k] == Flatten(a) + (Flatten(b[..k]) + b[k]);
    }
  }

  /** Record i lies at the sum of the lengths before it. */
  lemma RecordAt(records: seq<seq<byte>>, i: nat)
    requires i < |records|
    ensures Sum(Lens(records)[..i]) + |records[i]| <= |Flatten(records)|
    ensures Flatten(records)[Sum(Lens(records)[..i])..Sum(Lens(records)[..i]) + |records[i]|] == records[i]
  {
    var a, b := records[..i], records[i + 1..];
    assert records == (a + [records[i]]) + b;
    FlattenAppend(a + [records[i]], b);
    assert (a + [records[i]])[..i] == a;
    FlattenLength(a);
    assert Lens(a) == Lens(records)[..i];
  }
}
