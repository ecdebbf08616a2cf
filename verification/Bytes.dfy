/** Fixed-width integers, their little-endian memory image, and writing bytes
    into a region of a buffer. */
module Bytes {

  type byte = x: int | 0 <= x < 256

  const U16 := 0x1_0000
  const U32 := 0x1_0000_0000
  const U64 := 0x1_0000_0000_0000_0000

  type u16 = x: int | 0 <= x < U16
  type u32 = x: int | 0 <= x < U32
  type u64 = x: int | 0 <= x < U64
  type i64 = x: int | -0x8000_0000_0000_0000 <= x < 0x8000_0000_0000_0000

  /** The int that a conversion of an unsigned 32-bit value to a signed one yields. */
  function ToInt32(x: u32): (r: int)
    ensures r % U32 == x
    ensures -0x8000_0000 <= r < 0x8000_0000
  {
    if x < 0x8000_0000 then x else x - U32
  }

  /** Two's complement image of a signed 64-bit value. */
  function Unsigned(t: i64): (r: u64)
    ensures r % U64 == t % U64
  {
    if t < 0 then t + U64 else t
  }

  function Signed(v: u64): (r: i64)
    ensures Unsigned(r) == v
  {
    if v < 0x8000_0000_0000_0000 then v else v - U64
  }

  /** Increment of a uint32. */
  function Increment(x: u32): u32
  {
    if x == U32 - 1 then 0 else x + 1
  }

  /** A uint32 counter after n increments from zero. */
  function Counter(n: nat): u32
  {
    if n == 0 then 0 else Increment(Counter(n - 1))
  }

  lemma CounterStep(n: nat)
    ensures Counter(n + 1) == Increment(Counter(n))
  {
  }

  lemma {:induction false} CounterWraps(n: nat)
    ensures Counter(n) == n % U32
  {
    if n > 0 {
      CounterWraps(n - 1);
      var q, r := (n - 1) / U32, (n - 1) % U32;
      assert n == q * U32 + (r + 1);
      if r + 1 == U32 {
        assert n == (q + 1) * U32;
      }
    }
  }

  lemma CounterCounts(n: nat)
    requires n < U32
    ensures Counter(n) == n
  {
    CounterWraps(n);
  }

  /** Conversion to a uint16. */
  function Low16(n: nat): u16
  {
    if n < U16 then n else Low16(n - U16)
  }

  lemma {:induction false} Low16IsModulo(n: nat)
    ensures Low16(n) == n % U16
  {
    if n >= U16 {
      Low16IsModulo(n - U16);
    }
  }

  function Pow256(k: nat): (r: nat)
    ensures r > 0
  {
    if k == 0 then 1 else 256 * Pow256(k - 1)
  }

  lemma PowersOf256()
    ensures Pow256(0) == 1 && Pow256(1) == 0x100 && Pow256(2) == 0x1_0000 && Pow256(3) == 0x100_0000
    ensures Pow256(4) == 0x1_0000_0000 && Pow256(5) == 0x100_0000_0000
    ensures Pow256(6) == 0x1_0000_0000_0000 && Pow256(7) == 0x100_0000_0000_0000 && Pow256(8) == U64
  {
    assert Pow256(1) == 256 * Pow256(0);
    assert Pow256(2) == 256 * Pow256(1);
    assert Pow256(3) == 256 * Pow256(2);
    assert Pow256(4) == 256 * Pow256(3);
    assert Pow256(5) == 256 * Pow256(4);
    assert Pow256(6) == 256 * Pow256(5);
    assert Pow256(7) == 256 * Pow256(6);
    assert Pow256(8) == 256 * Pow256(7);
  }

  /** The k low bytes of v, least significant first. */
  function LittleEndian(v: nat, k: nat): (s: seq<byte>)
    ensures |s| == k
    decreases k, v
  {
    if k == 0 then [] else [v % 256] + LittleEndian(v / 256, k - 1)
  }

  /** Byte i of a number in memory is its i-th digit to the base 256, the least significant one first. */
  lemma {:induction false} ByteOf(v: nat, k: nat, i: nat)
    requires i < k
    ensures LittleEndian(v, k)[i] == v / Pow256(i) % 256
    decreases i
  {
    if i > 0 {
      ByteOf(v / 256, k - 1, i - 1);
      DivideTwice(v, Pow256(i - 1));
    }
  }

  lemma DivideTwice(v: nat, d: nat)
    requires d > 0
    ensures v / 256 / d == v / (256 * d)
  {
    var q, r := v / 256, v % 256;
    var a, b := q / d, q % d;
    assert v == 256 * q + r && q == d * a + b;
    assert v == (256 * d) * a + (256 * b + r) by {
      assert 256 * (d * a) == (256 * d) * a;
    }
    assert 0 <= 256 * b + r < 256 * d;
    QuotientIs(v, 256 * d, a, 256 * b + r);
  }

  lemma QuotientIs(v: nat, d: nat, a: nat, r: nat)
    requires d > 0 && r < d && v == d * a + r
    ensures v / d == a
  {
    var q, k: int := v / d, v / d - a;
    assert d * k + v % d == r by {
      assert d * k == d * q - d * a;
    }
    SmallMultiple(d, k);
  }

  lemma SmallMultiple(d: int, k: int)
    requires d > 0 && -d < d * k < d
    ensures k == 0
  {
    if k >= 1 {
      MultipleIsMonotone(d, 1, k);
    } else if k <= -1 {
      MultipleIsMonotone(d, k, -1);
    }
  }

  lemma MultipleIsMonotone(d: int, a: int, b: int)
    requires d > 0 && a <= b
    ensures d * a <= d * b
  {
  }

  function FromLittleEndian(s: seq<byte>): nat
  {
    if s == [] then 0 else s[0] + 256 * FromLittleEndian(s[1..])
  }

  lemma {:induction false} FromLittleEndianBound(s: seq<byte>)
    ensures FromLittleEndian(s) < Pow256(|s|)
  {
    if s != [] {
      FromLittleEndianBound(s[1..]);
    }
  }

  /** The widths in use: two, four and eight bytes. */
  lemma WidthBounds(s: seq<byte>)
    ensures |s| == 2 ==> FromLittleEndian(s) < U16
    ensures |s| == 4 ==> FromLittleEndian(s) < U32
    ensures |s| == 8 ==> FromLittleEndian(s) < U64
  {
    FromLittleEndianBound(s);
    PowersOf256();
  }

  lemma {:induction false} LittleEndianRoundTrip(v: nat, k: nat)
    requires v < Pow256(k)
    ensures FromLittleEndian(LittleEndian(v, k)) == v
    decreases k
  {
    if k > 0 {
      LittleEndianRoundTrip(v / 256, k - 1);
      assert LittleEndian(v, k)[1..] == LittleEndian(v / 256, k - 1);
    }
  }

  lemma {:induction false} FromLittleEndianRoundTrip(s: seq<byte>)
    ensures LittleEndian(FromLittleEndian(s), |s|) == s
  {
    if s != [] {
      FromLittleEndianRoundTrip(s[1..]);
      var v := FromLittleEndian(s);
      assert v % 256 == s[0] && v / 256 == FromLittleEndian(s[1..]);
    }
  }

  lemma SubSlice(s: seq<byte>, at: nat, size: nat, lo: nat, hi: nat)
    requires at + size <= |s| && lo <= hi <= size
    ensures s[at..at + size][lo..hi] == s[at + lo..at + hi]
  {
    var t := s[at..at + size];
    forall i | 0 <= i < hi - lo
      ensures t[lo..hi][i] == s[at + lo..at + hi][i]
    {
      assert t[lo + i] == s[at + lo + i];
    }
  }

  /** The parts of a concatenation, found again in any sequence it is a prefix of. */
  lemma PrefixParts(a: seq<byte>, b: seq<byte>, c: seq<byte>, d: seq<byte>, s: seq<byte>)
    requires a + b + c + d <= s
    ensures s[..|a|] == a
    ensures s[|a|..|a| + |b|] == b
    ensures s[|a| + |b|..|a| + |b| + |c|] == c
    ensures s[|a| + |b| + |c|..|a| + |b| + |c| + |d|] == d
  {
    var e := a + b + c + d;
    assert s[..|e|] == e;
    assert e[..|a|] == a && e[|a|..|a| + |b|] == b;
    assert e[|a| + |b|..|a| + |b| + |c|] == c && e[|a| + |b| + |c|..] == d;
  }

  /** `s` with `t` written over the bytes from `at` on. */
  function Splice(s: seq<byte>, at: nat, t: seq<byte>): (r: seq<byte>)
    requires at + |t| <= |s|
    ensures |r| == |s|
    ensures r[at..at + |t|] == t
    ensures forall i {:trigger r[i]} :: 0 <= i < |s| && !(at <= i < at + |t|) ==> r[i] == s[i]
  {
    s[..at] + t + s[at + |t|..]
  }

  /** Writing two adjacent pieces is writing their concatenation. */
  lemma SpliceTwice(s: seq<byte>, at: nat, t: seq<byte>, u: seq<byte>)
    requires at + |t| + |u| <= |s|
    ensures Splice(Splice(s, at, t), at + |t|, u) == Splice(s, at, t + u)
  {
    var r := Splice(s, at, t);
    assert r[..at + |t|] == s[..at] + t;
    assert r[at + |t| + |u|..] == s[at + |t + u|..];
  }

  /** Writing the tail first and the head in front of it afterwards. */
  lemma SpliceInFront(s: seq<byte>, t: seq<byte>, u: seq<byte>)
    requires |t| + |u| <= |s|
    ensures Splice(Splice(s, |t|, u), 0, t) == Splice(s, 0, t + u)
  {
    var r := Splice(s, |t|, u);
    assert r[|t|..] == u + s[|t| + |u|..];
  }

  /** memcpy of `t` into a buffer. */
  method CopyIn(buffer: array<byte>, at: nat, t: seq<byte>)
    requires at + |t| <= buffer.Length
    modifies buffer
    ensures buffer[..] == Splice(old(buffer[..]), at, t)
  {
    ghost var before := buffer[..];
    var i := 0;
    while i < |t|
      invariant 0 <= i <= |t|
      invariant buffer[..] == Splice(before, at, t[..i])
    {
      buffer[at + i] := t[i];
      SpliceTwice(before, at, t[..i], [t[i]]);
      assert t[..i] + [t[i]] == t[..i + 1];
      i := i + 1;
    }
    assert t[..|t|] == t;
  }

  /** memcpy of a k-byte unsigned integer into a buffer. */
  method PutInteger(buffer: array<byte>, at: nat, v: nat, k: nat)
    requires at + k <= buffer.Length
    modifies buffer
    ensures buffer[..] == Splice(old(buffer[..]), at, LittleEndian(v, k))
  {
    ghost var before := buffer[..];
    ghost var image := LittleEndian(v, k);
    var rest, i := v, 0;
    while i < k
      invariant 0 <= i <= k
      invariant rest >= 0
      invariant image[i..] == LittleEndian(rest, k - i)
      invariant buffer[..] == Splice(before, at, image[..i])
    {
      LittleEndianHead(image, i, rest, k);
      buffer[at + i] := rest % 256;
      SpliceTwice(before, at, image[..i], [image[i]]);
      rest := rest / 256;
      i := i + 1;
    }
    assert image[..k] == image;
  }

  lemma LittleEndianHead(image: seq<byte>, i: nat, rest: nat, k: nat)
    requires i < k == |image| && image[i..] == LittleEndian(rest, k - i)
    ensures image[i] == rest % 256
    ensures image[i + 1..] == LittleEndian(rest / 256, k - i - 1)
    ensures image[..i] + [image[i]] == image[..i + 1]
  {
    assert image[i] == image[i..][0];
    assert image[i + 1..] == image[i..][1..];
  }

  /** memcpy of k buffer bytes into an unsigned integer, most significant byte first. */
  method GetInteger(buffer: array<byte>, at: nat, k: nat) returns (v: nat)
    requires at + k <= buffer.Length
    ensures v == FromLittleEndian(buffer[at..at + k])
  {
    v := 0;
    var i := k;
    while i > 0
      invariant 0 <= i <= k
      invariant v == FromLittleEndian(buffer[at + i..at + k])
    {
      i := i - 1;
      assert buffer[at + i..at + k][1..] == buffer[at + i + 1..at + k];
      v := buffer[at + i] + 256 * v;
    }
  }
}
