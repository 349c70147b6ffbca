/** Big-endian integers in byte strings and in byte buffers. */
module Bytes {

  type byte = x: int | 0 <= x < 256

  const U32: nat := 0x1_0000_0000
  const U64: nat := 0x1_0000_0000_0000_0000

  function Pow256(k: nat): (r: nat)
    ensures r > 0
  {
    if k == 0 then 1 else 256 * Pow256(k - 1)
  }

  lemma Widths()
    ensures Pow256(4) == U32 && Pow256(8) == U64
  {
    assert Pow256(2) == 0x1_0000;
    assert Pow256(4) == 256 * (256 * Pow256(2));
    assert Pow256(6) == 256 * (256 * Pow256(4));
    assert Pow256(8) == 256 * (256 * Pow256(6));
  }

  /** Unsigned 64-bit wrap-around. */
  function Wrap64(x: nat): (r: nat)
    ensures r < U64
  {
    if x < U64 then x else Wrap64(x - U64)
  }

  lemma {:induction false} WrapAdd(a: nat, b: nat)
    ensures Wrap64(Wrap64(a) + b) == Wrap64(a + b)
  {
    if a >= U64 {
      WrapAdd(a - U64, b);
      assert a + b - U64 == (a - U64) + b;
    }
  }

  lemma {:induction false} WrapIsModulo(x: nat)
    ensures Wrap64(x) == x % U64
  {
    if x >= U64 {
      WrapIsModulo(x - U64);
    }
  }

  /** The low `width` bytes of n, most significant first. */
  function BigEndian(n: nat, width: nat): (b: seq<byte>)
    ensures |b| == width
  {
    if width == 0 then [] else BigEndian(n / 256, width - 1) + [n % 256]
  }

  function Value(b: seq<byte>): nat
  {
    if b == [] then 0 else 256 * Value(b[..|b| - 1]) + b[|b| - 1]
  }

  lemma {:induction false} ValueOfBigEndian(n: nat, width: nat)
    requires n < Pow256(width)
    ensures Value(BigEndian(n, width)) == n
  {
    if width > 0 {
      ValueOfBigEndian(n / 256, width - 1);
      var b := BigEndian(n, width);
      assert b[..width - 1] == BigEndian(n / 256, width - 1);
    }
  }

  lemma {:induction false} BigEndianOfValue(b: seq<byte>)
    ensures Value(b) < Pow256(|b|)
    ensures BigEndian(Value(b), |b|) == b
  {
    if b != [] {
      BigEndianOfValue(b[..|b| - 1]);
      assert Value(b) / 256 == Value(b[..|b| - 1]);
    }
  }

  /** s with the bytes from pos replaced by b. */
  function Overwrite(s: seq<byte>, pos: nat, b: seq<byte>): (r: seq<byte>)
    requires pos + |b| <= |s|
    ensures |r| == |s|
  {
    s[..pos] + b + s[pos + |b|..]
  }

  lemma Sub(s: seq<byte>, lo: nat, hi: nat, a: nat, b: nat)
    requires lo <= hi <= |s| && a <= b <= hi - lo
    ensures s[lo..hi][a..b] == s[lo + a..lo + b]
  {
    var l, r := s[lo..hi][a..b], s[lo + a..lo + b];
    assert |l| == |r| && forall i :: 0 <= i < |l| ==> l[i] == r[i];
  }

  /** Copies b into a at pos. Because b is a value, a source range of `a` itself is read before it is overwritten. */
  method Put(a: array<byte>, pos: nat, b: seq<byte>)
    requires pos + |b| <= a.Length
    modifies a
    ensures a[..] == Overwrite(old(a[..]), pos, b)
  {
    forall i | 0 <= i < |b| {
      a[pos + i] := b[i];
    }
  }

  function Sum(ls: seq<nat>): nat
  {
    if ls == [] then 0 else Sum(ls[..|ls| - 1]) + ls[|ls| - 1]
  }

  lemma {:induction false} SumAppend(a: seq<nat>, b: seq<nat>)
    ensures Sum(a + b) == Sum(a) + Sum(b)
  {
    if b == [] {
      assert a + b == a;
    } else {
      SumAppend(a, b[..|b| - 1]);
      assert (a + b)[..|a + b| - 1] == a + b[..|b| - 1];
    }
  }

  lemma {:induction false} SumBound(ls: seq<nat>, bound: nat)
    requires forall i :: 0 <= i < |ls| ==> ls[i] < bound
    ensures Sum(ls) <= |ls| * bound
  {
    if ls != [] {
      SumBound(ls[..|ls| - 1], bound);
    }
  }

  /** Prefix sums do not decrease. */
  lemma SumPrefix(ls: seq<nat>, i: nat, j: nat)
    requires i <= j <= |ls|
    ensures Sum(ls[..i]) <= Sum(ls[..j])
  {
    assert ls[..j] == ls[..i] + ls[i..j];
    SumAppend(ls[..i], ls[i..j]);
  }

  lemma SumStep(ls: seq<nat>, i: nat)
    requires i < |ls|
    ensures Sum(ls[..i + 1]) == Sum(ls[..i]) + ls[i]
  {
    assert ls[..i + 1][..i] == ls[..i];
  }
}
