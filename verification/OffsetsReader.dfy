/** The in-place rewrite of 4-byte lengths into 8-byte running offsets. */
module OffsetsReader {
  import opened Bytes

  datatype ReadError = NoError | EOF | ErrNotEnoughBytes

  /** The lengths held by a byte string, four bytes each. */
  function Lengths(b: seq<byte>): (ls: seq<nat>)
    ensures |ls| == |b| / 4
    ensures forall i :: 0 <= i < |ls| ==> ls[i] == Value(b[4 * i..4 * i + 4])
  {
    seq(|b| / 4, i requires 0 <= i < |b| / 4 => Value(b[4 * i..4 * i + 4]))
  }

  /** The offsets written for lengths ls by a reader that has already added up to `start`, eight bytes each. */
  function Offsets(start: nat, ls: seq<nat>): (b: seq<byte>)
    ensures |b| == 8 * |ls|
  {
    if ls == [] then []
    else Offsets(start, ls[..|ls| - 1]) + BigEndian(Wrap64(start + Sum(ls)), 8)
  }

  lemma {:induction false} OffsetsAt(start: nat, ls: seq<nat>, i: nat)
    requires i < |ls|
    ensures Value(Offsets(start, ls)[8 * i..8 * i + 8]) == Wrap64(start + Sum(ls[..i + 1]))
  {
    var m := |ls| - 1;
    if i == m {
      assert ls[..i + 1] == ls;
      assert Offsets(start, ls)[8 * i..8 * i + 8] == BigEndian(Wrap64(start + Sum(ls)), 8);
      Widths();
      ValueOfBigEndian(Wrap64(start + Sum(ls)), 8);
    } else {
      OffsetsAt(start, ls[..m], i);
      assert Offsets(start, ls)[8 * i..8 * i + 8] == Offsets(start, ls[..m])[8 * i..8 * i + 8];
      assert ls[..m][..i + 1] == ls[..i + 1];
    }
  }

  lemma LengthBound(b: seq<byte>)
    ensures forall i :: 0 <= i < |Lengths(b)| ==> Lengths(b)[i] < U32
  {
    forall i | 0 <= i < |Lengths(b)| ensures Lengths(b)[i] < U32 {
      BigEndianOfValue(b[4 * i..4 * i + 4]);
      Widths();
    }
  }

  /** How many bytes of lengths a read into a buffer of the given room takes: half of its whole 8-byte cells. */
  function Taken(unread: nat, room: nat): nat
  {
    if room / 8 * 4 <= unread then room / 8 * 4 else unread
  }

  /** The end of the whole 8-byte cells between lo and hi. */
  function CellsEnd(lo: nat, hi: nat): nat
    requires lo <= hi
  {
    hi - (hi - lo) % 8
  }

  function Middle(lo: nat, end: nat): nat
    requires lo <= end
  {
    lo + (end - lo) / 2
  }

  lemma Halves(unread: nat, lo: nat, mid: nat, end: nat, hi: nat)
    requires lo <= hi && end == CellsEnd(lo, hi) && lo <= end && mid == Middle(lo, end)
    ensures mid <= end <= hi && lo <= mid && end - mid == mid - lo
    ensures Taken(unread, hi - lo) == if end - mid <= unread then end - mid else unread
    ensures Taken(unread, hi - lo) <= unread && mid + Taken(unread, hi - lo) <= end
  {
  }

  lemma CellsFit(lo: nat, hi: nat)
    requires lo <= hi
    ensures lo <= CellsEnd(lo, hi) <= hi
  {
  }

  /** A reader over the bytes of buf from pos up to limit (Go's bytes.Reader over a sub-slice). */
  class ByteReader {
    const buf: array<byte>
    const limit: nat
    var pos: nat

    ghost predicate Valid()
      reads this
    {
      pos <= limit <= buf.Length
    }

    ghost function Unread(): seq<byte>
      requires Valid()
      reads this, buf
    {
      buf[pos..limit]
    }

    constructor (buf: array<byte>, start: nat, limit: nat)
      requires start <= limit <= buf.Length
      ensures Valid() && this.buf == buf && this.limit == limit && this.pos == start
    {
      this.buf := buf;
      this.limit := limit;
      this.pos := start;
    }

    /** Fills dst[lo..hi] as far as the unread bytes go; dst may be buf itself. */
    method Read(dst: array<byte>, lo: nat, hi: nat) returns (n: nat, eof: bool)
      requires Valid()
      requires lo <= hi <= dst.Length
      modifies this, dst
      ensures Valid()
      ensures eof <==> old(Unread()) == []
      ensures n == if hi - lo <= |old(Unread())| then hi - lo else |old(Unread())|
      ensures pos == old(pos) + n
      ensures dst[..] == Overwrite(old(dst[..]), lo, old(Unread())[..n])
    {
      if pos >= limit {
        assert Overwrite(dst[..], lo, []) == dst[..];
        return 0, true;
      }
      n, eof := if hi - lo <= limit - pos then hi - lo else limit - pos, false;
      Put(dst, lo, buf[pos..pos + n]);
      pos := pos + n;
    }
  }

  /** Turns a stream of lengths into a stream of offsets. */
  class OffsetsReader {
    const lengthsReader: ByteReader
    var offset: nat

    ghost predicate Valid()
      reads this, lengthsReader
    {
      lengthsReader.Valid() && offset < U64
    }

    constructor (lengthsReader: ByteReader)
      requires lengthsReader.Valid()
      ensures Valid() && this.lengthsReader == lengthsReader && offset == 0
    {
      this.lengthsReader := lengthsReader;
      this.offset := 0;
    }

    /**
     * Reads lengths into the second half of p[lo..hi] and then walks them from left to right, writing each running
     * offset at the front. The lengths are those unread at entry, even when p is the buffer they are read from.
     */
    method Read(p: array<byte>, lo: nat, hi: nat) returns (n: nat, err: ReadError)
      requires Valid()
      requires lo <= hi <= p.Length
      modifies this, lengthsReader, p
      ensures Valid()
      ensures
        var unread := old(lengthsReader.Unread());
        var got := Taken(|unread|, hi - lo);
        && lengthsReader.pos == old(lengthsReader.pos) + got
        && p[..lo] == old(p[..lo]) && p[hi..] == old(p[hi..])
        && err == (if unread == [] then EOF else if got % 4 != 0 then ErrNotEnoughBytes else NoError)
        && n == (if err == NoError then 2 * got else 0)
        && (err != NoError ==> offset == old(offset))
        && (err == NoError ==>
             && lo + n <= hi
             && p[lo..lo + n] == Offsets(old(offset), Lengths(unread[..got]))
             && offset == Wrap64(old(offset) + Sum(Lengths(unread[..got]))))
    {
      hide Value, BigEndian, Sum, Wrap64, Offsets, Lengths, Taken, Overwrite, CellsEnd, Middle;
      ghost var unread := lengthsReader.Unread();
      var end := CellsEnd(lo, hi);
      CellsFit(lo, hi);
      var mid := Middle(lo, end);
      Halves(|unread|, lo, mid, end, hi);
      var got, eof := lengthsReader.Read(p, mid, end);
      ghost var raw := unread[..Taken(|unread|, hi - lo)];
      assert got == Taken(|unread|, hi - lo) && raw == unread[..got];
      Around(old(p[..]), mid, raw);
      Outside(old(p[..]), mid, raw, lo, hi);
      if eof {
        return 0, EOF;
      }
      if got % 4 != 0 {
        return 0, ErrNotEnoughBytes;
      }
      ghost var read := p[..];
      assert p[mid..mid + got] == read[mid..mid + got];
      Rewrite(p, lo, mid, got, raw);
      assert p[hi..] == p[mid + got..][hi - mid - got..] == read[hi..];
      return 2 * got, NoError;
    }

    /** The walk over the lengths `raw` standing at p[mid..mid + got]. */
    method Rewrite(p: array<byte>, lo: nat, mid: nat, got: nat, ghost raw: seq<byte>)
      requires offset < U64
      requires got % 4 == 0 && lo + got <= mid && mid + got <= p.Length
      requires p[mid..mid + got] == raw
      modifies `offset, p
      ensures offset == Wrap64(old(offset) + Sum(Lengths(raw)))
      ensures p[lo..lo + 2 * got] == Offsets(old(offset), Lengths(raw))
      ensures p[..lo] == old(p[..lo]) && p[mid + got..] == old(p[mid + got..])
    {
      hide *;
      ghost var start, k := p[..], 0;
      WalkStart(start, offset, raw, lo, mid);
      var l, r := 0, 0;
      while r < got
        invariant l == 8 * k && r == 4 * k && r <= got
        invariant Walked(start, old(offset), raw, lo, mid, p[..], offset, k)
      {
        var length := Value(p[mid + r..mid + r + 4]);
        ghost var before := p[..];
        assert before[mid + r..mid + r + 4] == p[mid + r..mid + r + 4];
        WalkStep(start, old(offset), raw, lo, mid, before, offset, k);
        offset := Wrap64(offset + length);
        Put(p, lo + l, BigEndian(offset, 8));
        l, r, k := l + 8, r + 4, k + 1;
      }
      WalkEnd(start, old(offset), raw, lo, mid, p[..], offset, k);
      assert p[lo..lo + 2 * got] == p[..][lo..lo + 2 * got];
    }
  }

  /** After k lengths: k offsets stand at lo, and everything the walk has yet to read is still in place. */
  ghost predicate Walked(start: seq<byte>, first: nat, raw: seq<byte>, lo: nat, mid: nat, p: seq<byte>, offset: nat,
      k: nat)
  {
    && |raw| % 4 == 0 && 4 * k <= |raw| && lo + |raw| <= mid && mid + |raw| <= |start| == |p|
    && offset == Wrap64(first + Sum(Lengths(raw)[..k]))
    && p[..lo] == start[..lo]
    && p[lo..lo + 8 * k] == Offsets(first, Lengths(raw)[..k])
    && p[mid + 4 * k..mid + |raw|] == raw[4 * k..]
    && p[mid + |raw|..] == start[mid + |raw|..]
  }

  lemma WalkStart(start: seq<byte>, first: nat, raw: seq<byte>, lo: nat, mid: nat)
    requires first < U64
    requires |raw| % 4 == 0 && lo + |raw| <= mid && mid + |raw| <= |start| && start[mid..mid + |raw|] == raw
    ensures Walked(start, first, raw, lo, mid, start, first, 0)
  {
    assert Lengths(raw)[..0] == [];
  }

  lemma WalkStep(start: seq<byte>, first: nat, raw: seq<byte>, lo: nat, mid: nat, p: seq<byte>, offset: nat, k: nat)
    requires Walked(start, first, raw, lo, mid, p, offset, k)
    requires 4 * k < |raw|
    ensures
      var next := Wrap64(offset + Value(p[mid + 4 * k..mid + 4 * k + 4]));
      Walked(start, first, raw, lo, mid, Overwrite(p, lo + 8 * k, BigEndian(next, 8)), next, k + 1)
  {
    hide Value, BigEndian, Sum, Wrap64, Offsets;
    var ls := Lengths(raw);
    var length := Value(p[mid + 4 * k..mid + 4 * k + 4]);
    var next := Wrap64(offset + length);
    var q := Overwrite(p, lo + 8 * k, BigEndian(next, 8));
    assert length == ls[k] by {
      assert p[mid + 4 * k..mid + 4 * k + 4] == p[mid + 4 * k..mid + |raw|][..4] == raw[4 * k..4 * k + 4];
    }
    assert next == Wrap64(first + Sum(ls[..k + 1])) by {
      SumStep(ls, k);
      WrapAdd(first + Sum(ls[..k]), length);
    }
    OffsetsStep(first, ls, k);
    assert q[lo..lo + 8 * (k + 1)] == p[lo..lo + 8 * k] + BigEndian(next, 8);
    assert q[mid + 4 * (k + 1)..mid + |raw|] == p[mid + 4 * k..mid + |raw|][4..];
    assert q[..lo] == p[..lo] && q[mid + |raw|..] == p[mid + |raw|..];
  }

  lemma WalkEnd(start: seq<byte>, first: nat, raw: seq<byte>, lo: nat, mid: nat, p: seq<byte>, offset: nat, k: nat)
    requires Walked(start, first, raw, lo, mid, p, offset, k)
    requires 4 * k == |raw|
    ensures offset == Wrap64(first + Sum(Lengths(raw)))
    ensures |p| == |start| && p[lo..lo + 2 * |raw|] == Offsets(first, Lengths(raw))
    ensures p[..lo] == start[..lo] && p[mid + |raw|..] == start[mid + |raw|..]
  {
    assert Lengths(raw)[..k] == Lengths(raw);
  }

  lemma OffsetsStep(start: nat, ls: seq<nat>, k: nat)
    requires k < |ls|
    ensures Offsets(start, ls[..k + 1]) == Offsets(start, ls[..k]) + BigEndian(Wrap64(start + Sum(ls[..k + 1])), 8)
  {
    assert ls[..k + 1][..k] == ls[..k];
  }

  lemma Around(s: seq<byte>, pos: nat, b: seq<byte>)
    requires pos + |b| <= |s|
    ensures Overwrite(s, pos, b)[pos..pos + |b|] == b
  {
  }

  lemma Outside(s: seq<byte>, pos: nat, b: seq<byte>, lo: nat, hi: nat)
    requires lo <= pos && pos + |b| <= hi <= |s|
    ensures Overwrite(s, pos, b)[..lo] == s[..lo] && Overwrite(s, pos, b)[hi..] == s[hi..]
  {
  }
}
