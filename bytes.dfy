/** Little-endian fixed-width integers over byte sequences. */
module Bytes {

  type byte = b: int | 0 <= b < 0x100
  type u16 = x: int | 0 <= x < 0x1_0000
  type u32 = x: int | 0 <= x < 0x1_0000_0000

  const TWO32: int := 0x1_0000_0000

  /** The unsigned 16-bit value stored little-endian at `b[i..i+2]`. */
  function U16At(b: seq<byte>, i: nat): (v: u16)
    requires i + 2 <= |b|
  {
    b[i] as int + 0x100 * (b[i + 1] as int)
  }

  /** The unsigned 32-bit value stored little-endian at `b[i..i+4]`. */
  function U32At(b: seq<byte>, i: nat): (v: u32)
    requires i + 4 <= |b|
  {
    b[i] as int + 0x100 * (b[i + 1] as int) + 0x1_0000 * (b[i + 2] as int) + 0x100_0000 * (b[i + 3] as int)
  }

  /** The signed (two's complement) 32-bit value stored at `b[i..i+4]`. */
  function I32At(b: seq<byte>, i: nat): (v: int)
    requires i + 4 <= |b|
    ensures -0x8000_0000 <= v < 0x8000_0000
    ensures v >= 0 <==> b[i + 3] < 0x80
  {
    var u := U32At(b, i);
    if u < 0x8000_0000 then u else u - TWO32
  }

  function U16Le(v: u16): (s: seq<byte>)
  {
    [v % 0x100, v / 0x100]
  }

  function U32Le(v: u32): (s: seq<byte>)
  {
    [v % 0x100, (v / 0x100) % 0x100, (v / 0x1_0000) % 0x100, v / 0x100_0000]
  }

  /** Reading back what U16Le wrote, wherever it sits in a buffer. */
  lemma U16RoundTrip(b: seq<byte>, i: nat, v: u16)
    requires i + 2 <= |b| && b[i..i + 2] == U16Le(v)
    ensures U16At(b, i) == v
  {
    assert b[i] == b[i..i + 2][0] && b[i + 1] == b[i..i + 2][1];
  }

  lemma U32RoundTrip(b: seq<byte>, i: nat, v: u32)
    requires i + 4 <= |b| && b[i..i + 4] == U32Le(v)
    ensures U32At(b, i) == v
  {
    var w := b[i..i + 4];
    assert b[i] == w[0] && b[i + 1] == w[1] && b[i + 2] == w[2] && b[i + 3] == w[3];
    var q1 := v / 0x100;
    var q2 := v / 0x1_0000;
    assert q2 == q1 / 0x100;
    assert v == v % 0x100 + 0x100 * q1;
    assert q1 == q1 % 0x100 + 0x100 * q2;
    assert q2 == q2 % 0x100 + 0x100 * (v / 0x100_0000);
  }

  /** Dividing `lo + 0x100 * hi` by 0x100 separates the low byte. */
  lemma DivMod100(lo: int, hi: int)
    requires 0 <= lo < 0x100
    ensures (lo + 0x100 * hi) / 0x100 == hi && (lo + 0x100 * hi) % 0x100 == lo
  {
  }

  lemma DivMod1_0000(lo: int, hi: int)
    requires 0 <= lo < 0x1_0000
    ensures (lo + 0x1_0000 * hi) / 0x1_0000 == hi
  {
  }

  lemma DivMod100_0000(lo: int, hi: int)
    requires 0 <= lo < 0x100_0000
    ensures (lo + 0x100_0000 * hi) / 0x100_0000 == hi
  {
  }

  /** The converse: the four bytes are exactly the encoding of the value read. */
  lemma U32Canonical(b: seq<byte>, i: nat)
    requires i + 4 <= |b|
    ensures b[i..i + 4] == U32Le(U32At(b, i))
  {
    var b0, b1, b2, b3 := b[i] as int, b[i + 1] as int, b[i + 2] as int, b[i + 3] as int;
    var v := U32At(b, i);
    var w2 := b2 + 0x100 * b3;
    var w1 := b1 + 0x100 * w2;
    assert v == b0 + 0x100 * w1;
    DivMod100(b0, w1);
    DivMod100(b1, w2);
    DivMod100(b2, b3);
    assert v == (b0 + 0x100 * b1) + 0x1_0000 * w2;
    DivMod1_0000(b0 + 0x100 * b1, w2);
    assert v == (b0 + 0x100 * b1 + 0x1_0000 * b2) + 0x100_0000 * b3;
    DivMod100_0000(b0 + 0x100 * b1 + 0x1_0000 * b2, b3);
    assert U32Le(v) == [b0, b1, b2, b3];
  }

  /** `n` consecutive little-endian u32 values starting at `b[i]`. */
  function U32sAt(b: seq<byte>, i: nat, n: nat): (r: seq<u32>)
    requires i + 4 * n <= |b|
    ensures |r| == n
    ensures forall k :: 0 <= k < n ==> r[k] == U32At(b, i + 4 * k)
  {
    seq(n, k requires 0 <= k < n => U32At(b, i + 4 * k))
  }

  /** The encoding of `vs` as consecutive little-endian u32 values. */
  function U32sLe(vs: seq<u32>): (s: seq<byte>)
    ensures |s| == 4 * |vs|
  {
    if vs == [] then [] else U32Le(vs[0]) + U32sLe(vs[1..])
  }

  /** The first four bytes of an encoding are its first value's, and the
      rest encode the remaining values. */
  lemma U32sLeSplit(vs: seq<u32>)
    requires vs != []
    ensures U32sLe(vs)[..4] == U32Le(vs[0]) && U32sLe(vs)[4..] == U32sLe(vs[1..])
  {
    assert U32sLe(vs) == U32Le(vs[0]) + U32sLe(vs[1..]);
  }

  /** Different values have different encodings. */
  lemma {:induction false} U32sLeInjective(xs: seq<u32>, ys: seq<u32>)
    requires |xs| == |ys| && U32sLe(xs) == U32sLe(ys)
    ensures xs == ys
    decreases |xs|
  {
    if xs != [] {
      U32sLeSplit(xs);
      U32sLeSplit(ys);
      U32RoundTrip(U32Le(xs[0]), 0, xs[0]);
      U32RoundTrip(U32Le(ys[0]), 0, ys[0]);
      U32sLeInjective(xs[1..], ys[1..]);
    }
  }

  /** An `${n}L` read of what U32sLe wrote, wherever it sits in a buffer,
      gives back the values written. */
  lemma U32sRoundTrip(b: seq<byte>, i: nat, vs: seq<u32>)
    requires i + 4 * |vs| <= |b| && b[i..i + 4 * |vs|] == U32sLe(vs)
    ensures U32sAt(b, i, |vs|) == vs
  {
    U32sCanonical(b, i, |vs|);
    U32sLeInjective(U32sAt(b, i, |vs|), vs);
  }

  /** Conversely, any 4n bytes are the encoding of the values read from them. */
  lemma {:induction false} U32sCanonical(b: seq<byte>, i: nat, n: nat)
    requires i + 4 * n <= |b|
    ensures b[i..i + 4 * n] == U32sLe(U32sAt(b, i, n))
    decreases n
  {
    if n > 0 {
      var vs := U32sAt(b, i, n);
      U32Canonical(b, i);
      U32sCanonical(b, i + 4, n - 1);
      assert vs[1..] == U32sAt(b, i + 4, n - 1);
      assert b[i..i + 4 * n] == b[i..i + 4] + b[i + 4..i + 4 * n];
    }
  }
}
