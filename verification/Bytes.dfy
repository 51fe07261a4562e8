// Fixed-width unsigned integers as byte sequences: the two codecs every RTMP
// header field goes through, and the in-place loops that implement them.
module Bytes {

  type byte = x: int | 0 <= x < 0x100
  type uint32 = x: int | 0 <= x < 0x1_0000_0000

  // The value of unsigned 32-bit arithmetic on a mathematical result.
  function Wrap32(x: int): uint32 {
    x % 0x1_0000_0000
  }

  function Zeros(n: nat): (s: seq<byte>)
    ensures |s| == n
  {
    seq(n, _ => 0)
  }

  function Pow256(n: nat): (p: nat)
    ensures p > 0
  {
    if n == 0 then 1 else 256 * Pow256(n - 1)
  }

  // Big-endian: the most significant byte comes first.
  function ToBE(v: nat, n: nat): (s: seq<byte>)
    ensures |s| == n
  {
    if n == 0 then [] else ToBE(v / 256, n - 1) + [v % 256]
  }

  function FromBE(s: seq<byte>): nat {
    if s == [] then 0 else 256 * FromBE(s[..|s| - 1]) + s[|s| - 1]
  }

  // Little-endian: the least significant byte comes first.
  function ToLE(v: nat, n: nat): (s: seq<byte>)
    ensures |s| == n
  {
    if n == 0 then [] else [v % 256] + ToLE(v / 256, n - 1)
  }

  function FromLE(s: seq<byte>): nat {
    if s == [] then 0 else s[0] + 256 * FromLE(s[1..])
  }

  // Decoding what was encoded gives the value back, truncated to the width.
  lemma {:induction false} BERoundTrip(v: nat, n: nat)
    ensures FromBE(ToBE(v, n)) == v % Pow256(n)
  {
    if n != 0 {
      BERoundTrip(v / 256, n - 1);
      var s := ToBE(v, n);
      assert s[..n - 1] == ToBE(v / 256, n - 1);
      ModSplit(v, Pow256(n - 1));
    }
  }

  lemma {:induction false} LERoundTrip(v: nat, n: nat)
    ensures FromLE(ToLE(v, n)) == v % Pow256(n)
  {
    if n != 0 {
      LERoundTrip(v / 256, n - 1);
      var s := ToLE(v, n);
      assert s[1..] == ToLE(v / 256, n - 1);
      ModSplit(v, Pow256(n - 1));
    }
  }

  lemma ModSplit(v: nat, p: nat)
    requires p > 0
    ensures v % (256 * p) == 256 * (v / 256 % p) + v % 256
  {
    var q, r := v / 256 / p, v / 256 % p;
    var t := 256 * r + v % 256;
    assert v / 256 == q * p + r;
    assert v == 256 * (q * p + r) + v % 256 == q * (256 * p) + t;
    assert 0 <= t < 256 * p;
    DivModUnique(v, 256 * p, q, t);
  }

  lemma DivModUnique(v: int, d: int, q: int, r: int)
    requires d > 0 && 0 <= r < d && v == q * d + r
    ensures v / d == q && v % d == r
  {
    var q', r' := v / d, v % d;
    assert (q - q') * d == r' - r;
    if q > q' {
      MulAtLeast(q - q', d);
    } else if q < q' {
      MulAtLeast(q' - q, d);
    }
  }

  lemma MulAtLeast(x: int, d: int)
    requires x >= 1 && d > 0
    ensures x * d >= d
  {
  }

  // Encoding what was decoded gives the bytes back: the codecs are bijections
  // between n-byte sequences and values below 256^n.
  lemma {:induction false} BEInverse(s: seq<byte>)
    ensures FromBE(s) < Pow256(|s|)
    ensures ToBE(FromBE(s), |s|) == s
  {
    if s != [] {
      BEInverse(s[..|s| - 1]);
      assert FromBE(s) / 256 == FromBE(s[..|s| - 1]);
    }
  }

  lemma {:induction false} LEInverse(s: seq<byte>)
    ensures FromLE(s) < Pow256(|s|)
    ensures ToLE(FromLE(s), |s|) == s
  {
    if s != [] {
      LEInverse(s[1..]);
      assert FromLE(s) / 256 == FromLE(s[1..]);
    }
  }

  // The widths the chunk format uses.
  lemma Widths()
    ensures Pow256(1) == 0x100 && Pow256(2) == 0x1_0000
    ensures Pow256(3) == 0x100_0000 && Pow256(4) == 0x1_0000_0000
  {
    assert Pow256(1) == 256 * Pow256(0);
    assert Pow256(2) == 256 * Pow256(1);
    assert Pow256(3) == 256 * Pow256(2);
    assert Pow256(4) == 256 * Pow256(3);
  }

  lemma Fits(v: nat, n: nat)
    requires v < Pow256(n)
    ensures FromBE(ToBE(v, n)) == v && FromLE(ToLE(v, n)) == v
  {
    BERoundTrip(v, n);
    LERoundTrip(v, n);
    DivModUnique(v, Pow256(n), 0, v);
  }

  // val >> (8 * i)
  function Shifted(v: nat, i: nat): nat
    decreases i
  {
    if i == 0 then v else Shifted(v / 256, i - 1)
  }

  lemma {:induction false} ShiftedNext(v: nat, i: nat)
    ensures Shifted(v, i + 1) == Shifted(v, i) / 256
    decreases i
  {
    if i > 0 {
      ShiftedNext(v / 256, i - 1);
    }
  }

  function Encoded(v: nat, n: nat, bigEndian: bool): (s: seq<byte>)
    ensures |s| == n
  {
    if bigEndian then ToBE(v, n) else ToLE(v, n)
  }

  // Which byte of the value sits where.
  lemma {:induction false} Digit(v: nat, n: nat, i: nat)
    requires i < n
    ensures ToBE(v, n)[i] == Shifted(v, n - 1 - i) % 256
    ensures ToLE(v, n)[i] == Shifted(v, i) % 256
  {
    if i < n - 1 {
      Digit(v / 256, n - 1, i);
    }
    if i > 0 {
      Digit(v / 256, n - 1, i - 1);
    }
  }

  // Writes the n low bytes of val into b[lo..lo+n].
  method UintAsByteSlice(val: uint32, b: array<byte>, lo: nat, n: nat, bigEndian: bool)
    requires lo + n <= b.Length
    modifies b
    ensures b[..] == old(b[..lo]) + Encoded(val, n, bigEndian) + old(b[lo + n..])
  {
    ghost var want := Encoded(val, n, bigEndian);
    var i, v := 0, val as nat;
    while i < n
      invariant 0 <= i <= n
      invariant bigEndian || v == Shifted(val, i)
      invariant b[..lo] == old(b[..lo]) && b[lo + n..] == old(b[lo + n..])
      invariant forall k :: 0 <= k < i ==> b[lo + k] == want[k]
    {
      Digit(val, n, i);
      ShiftedNext(val, i);
      b[lo + i] := (if bigEndian then Shifted(val, n - i - 1) else v) % 256;
      if !bigEndian {
        v := v / 256;
      }
      i := i + 1;
    }
    assert b[lo..lo + n] == want;
    assert b[..] == b[..lo] + b[lo..lo + n] + b[lo + n..];
  }

  // The little-endian value grows by its next byte, shifted to its place.
  lemma {:induction false} LESnoc(s: seq<byte>, i: nat)
    requires i < |s|
    ensures FromLE(s[..i + 1]) == FromLE(s[..i]) + Pow256(i) * s[i]
  {
    if i > 0 {
      LESnoc(s[1..], i - 1);
      assert s[..i + 1][1..] == s[1..][..i];
      assert s[..i][1..] == s[1..][..i - 1];
      Shift(Pow256(i - 1), s[i]);
    } else {
      assert s[..1][1..] == [];
    }
  }

  lemma Shift(p: int, x: int)
    ensures 256 * (p * x) == (256 * p) * x
  {
  }

  lemma WrapAdd(x: int, y: int)
    ensures Wrap32(Wrap32(x) + y) == Wrap32(x + y)
  {
  }

  lemma WrapShift(x: int, y: int)
    ensures Wrap32(256 * Wrap32(x) + y) == Wrap32(256 * x + y)
  {
    var q := x / 0x1_0000_0000;
    assert 256 * x + y == 256 * Wrap32(x) + y + (256 * q) * 0x1_0000_0000;
  }

  // The decoded value on wrapping 32-bit arithmetic, and one turn of its loop.
  function Decoded(b: seq<byte>, bigEndian: bool): uint32 {
    Wrap32(if bigEndian then FromBE(b) else FromLE(b))
  }

  function Grow(ret: uint32, i: nat, x: byte, bigEndian: bool): uint32 {
    Wrap32(if bigEndian then 256 * ret + x else ret + Pow256(i) * x)
  }

  lemma GrowStep(b: seq<byte>, i: nat, bigEndian: bool)
    requires i < |b|
    ensures Decoded(b[..i + 1], bigEndian) == Grow(Decoded(b[..i], bigEndian), i, b[i], bigEndian)
  {
    if bigEndian {
      assert b[..i + 1][..i] == b[..i];
      WrapShift(FromBE(b[..i]), b[i]);
    } else {
      LESnoc(b, i);
      WrapAdd(FromLE(b[..i]), Pow256(i) * b[i]);
    }
  }

  lemma Narrow(b: seq<byte>)
    requires |b| <= 4
    ensures FromBE(b) < 0x1_0000_0000 && FromLE(b) < 0x1_0000_0000
    ensures Decoded(b, true) == FromBE(b) && Decoded(b, false) == FromLE(b)
  {
    BEInverse(b);
    LEInverse(b);
    PowMonotone(|b|, 4);
    Widths();
    Unwrapped(FromBE(b));
    Unwrapped(FromLE(b));
  }

  lemma {:induction false} PowMonotone(m: nat, n: nat)
    requires m <= n
    ensures Pow256(m) <= Pow256(n)
    decreases n
  {
    if m < n {
      PowMonotone(m, n - 1);
    }
  }

  lemma Unwrapped(x: uint32)
    ensures Wrap32(x) == x
  {
  }

  // Reads bytes as one unsigned 32-bit value; longer inputs wrap.
  method ByteSliceAsUint(b: seq<byte>, bigEndian: bool) returns (ret: uint32)
    ensures ret == Decoded(b, bigEndian)
  {
    ret := 0;
    var i := 0;
    while i < |b|
      invariant 0 <= i <= |b|
      invariant ret == Decoded(b[..i], bigEndian)
    {
      GrowStep(b, i, bigEndian);
      ret := Grow(ret, i, b[i], bigEndian);
      i := i + 1;
    }
    assert b[..|b|] == b;
  }

  // Four bytes, the most significant first.
  function Value(b: seq<byte>): nat
    requires |b| == 4
  {
    16777216 * b[0] as nat + 65536 * b[1] as nat + 256 * b[2] as nat + b[3] as nat
  }

  lemma ValueOf(b: seq<byte>)
    requires |b| == 4
    ensures FromBE(b) == Value(b)
  {
    hide FromBE;
    FromBENone();
    FromBESnoc([], b[0]);
    FromBESnoc([b[0]], b[1]);
    FromBESnoc([b[0], b[1]], b[2]);
    FromBESnoc([b[0], b[1], b[2]], b[3]);
    assert [] + [b[0]] == [b[0]] && [b[0]] + [b[1]] == [b[0], b[1]];
    assert [b[0], b[1]] + [b[2]] == [b[0], b[1], b[2]] && [b[0], b[1], b[2]] + [b[3]] == b;
  }

  lemma FromBENone()
    ensures FromBE([]) == 0
  {
  }

  lemma FromBESnoc(s: seq<byte>, x: byte)
    ensures FromBE(s + [x]) == 256 * FromBE(s) + x as nat
  {
    assert (s + [x])[..|s|] == s;
  }
}
