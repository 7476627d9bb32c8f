/** The 32-bit FNV-1 hash the bank decoder uses to turn event names into
    event IDs (multiply, then XOR), applied to lower-cased UTF-16 code units. */
module Fnv {
  import opened Bytes

  const OffsetBasis: bv32 := 0x811c9dc5
  const Prime: bv32 := 0x0100_0193

  /** `toLowerCase` on the characters A–Z; every other character is kept. */
  function ToLowerAscii(c: char): char
  {
    if 'A' <= c <= 'Z' then (c as int + 32) as char else c
  }

  function LowerAscii(s: string): (r: string)
    ensures |r| == |s|
    ensures forall i :: 0 <= i < |s| ==> r[i] == ToLowerAscii(s[i])
  {
    seq(|s|, i requires 0 <= i < |s| => ToLowerAscii(s[i]))
  }

  /** `charCodeAt(0)` of a one-code-point string: the code point itself in
      the Basic Multilingual Plane, its leading surrogate beyond it. */
  function CodeUnit(c: char): (u: u16)
    ensures c as int < 0x80 ==> u == c as int
  {
    if c as int < 0x1_0000 then c as int else 0xD800 + (c as int - 0x1_0000) / 0x400
  }

  /** The UTF-16 encoding of a character (section 3.9 of the Unicode
      Standard): one unit in the Basic Multilingual Plane, otherwise a
      leading surrogate carrying the top ten bits of `c - 0x10000` and a
      trailing one carrying the low ten. */
  function Utf16(c: char): (r: seq<u16>)
  {
    var v := c as int;
    if v < 0x1_0000 then [v]
    else [0xD800 + (v - 0x1_0000) / 0x400, 0xDC00 + (v - 0x1_0000) % 0x400]
  }

  /** The code point a one-character UTF-16 sequence stands for. */
  function FromUtf16(units: seq<u16>): int
  {
    if |units| == 1 then units[0] as int
    else if |units| == 2 then 0x1_0000 + (units[0] as int - 0xD800) * 0x400 + (units[1] as int - 0xDC00)
    else -1
  }

  /** `charCodeAt(0)` is the first unit of the character's UTF-16 encoding,
      which decodes back to the character; it is a leading surrogate
      exactly for the characters beyond the Basic Multilingual Plane, and
      the trailing unit of those is a trailing surrogate. */
  lemma CodeUnitLeads(c: char)
    ensures CodeUnit(c) == Utf16(c)[0]
    ensures FromUtf16(Utf16(c)) == c as int
    ensures 0xD800 <= CodeUnit(c) < 0xDC00 <==> c as int >= 0x1_0000
    ensures |Utf16(c)| == 2 ==> 0xDC00 <= Utf16(c)[1] < 0xE000
  {
  }

  /** One round: multiply modulo 2^32, then XOR in the code unit. The
      accumulator is a 32-bit word, so the multiplication wraps exactly as
      the source's `% 0x100000000n` does, and the second `% 2^32` of the
      source is a no-op: XOR with a 16-bit code unit stays below 2^32. */
  function Step(h: bv32, u: u16): bv32
  {
    (h * Prime) ^ (u as bv32)
  }

  function Fnv1From(h: bv32, s: string): bv32
    decreases s
  {
    if s == [] then h else Fnv1From(Step(h, CodeUnit(ToLowerAscii(s[0]))), s[1..])
  }

  /** The hash of a name, as a function of the whole name. */
  function Fnv1(s: string): bv32
  {
    Fnv1From(OffsetBasis, s)
  }

  /** The loop of the source: one Step per character of the name. */
  method Hash(name: string) returns (h: bv32)
    ensures h == Fnv1(name)
  {
    h := OffsetBasis;
    for i := 0 to |name|
      invariant Fnv1From(h, name[i..]) == Fnv1(name)
    {
      assert name[i..][1..] == name[i + 1..];
      h := Step(h, CodeUnit(ToLowerAscii(name[i])));
    }
    assert name[|name|..] == [];
  }

  /** Hashing is a left fold: the hash of `a + b` continues from the hash of `a`. */
  lemma {:induction false} Fnv1FromAppend(h: bv32, a: string, b: string)
    ensures Fnv1From(h, a + b) == Fnv1From(Fnv1From(h, a), b)
    decreases a
  {
    if a != [] {
      assert (a + b)[1..] == a[1..] + b;
      Fnv1FromAppend(Step(h, CodeUnit(ToLowerAscii(a[0]))), a[1..], b);
    } else {
      assert a + b == b;
    }
  }

  lemma {:induction false} Fnv1FromIgnoresCase(h: bv32, s: string)
    ensures Fnv1From(h, LowerAscii(s)) == Fnv1From(h, s)
    decreases s
  {
    if s != [] {
      assert LowerAscii(s)[1..] == LowerAscii(s[1..]);
      assert ToLowerAscii(ToLowerAscii(s[0])) == ToLowerAscii(s[0]);
      Fnv1FromIgnoresCase(Step(h, CodeUnit(ToLowerAscii(s[0]))), s[1..]);
    }
  }

  /** Names that differ only in the case of A–Z have the same hash. */
  lemma Fnv1IgnoresCase(s: string)
    ensures Fnv1(LowerAscii(s)) == Fnv1(s)
  {
    Fnv1FromIgnoresCase(OffsetBasis, s);
  }

  /** Two characters that `toLowerCase` restricted to A–Z cannot tell apart. */
  predicate CaseVariant(a: char, b: char)
  {
    a == b || ('A' <= a <= 'Z' && b as int == a as int + 32) || ('A' <= b <= 'Z' && a as int == b as int + 32)
  }

  /** Two names that differ at most in the case of A–Z. */
  predicate SameUpToCase(s: string, t: string)
  {
    |s| == |t| && forall i :: 0 <= i < |s| ==> CaseVariant(s[i], t[i])
  }

  /** Lower-casing identifies exactly the names that differ in the case of
      A–Z, and leaves no letter A–Z behind. */
  lemma LowerAsciiCases(s: string, t: string)
    ensures LowerAscii(s) == LowerAscii(t) <==> SameUpToCase(s, t)
    ensures forall i :: 0 <= i < |s| ==> !('A' <= LowerAscii(s)[i] <= 'Z')
    ensures LowerAscii(LowerAscii(s)) == LowerAscii(s)
  {
    if SameUpToCase(s, t) {
      assert forall i :: 0 <= i < |s| ==> LowerAscii(s)[i] == LowerAscii(t)[i];
    }
    if LowerAscii(s) == LowerAscii(t) {
      forall i | 0 <= i < |s| ensures CaseVariant(s[i], t[i]) {
        assert ToLowerAscii(s[i]) == LowerAscii(s)[i] == LowerAscii(t)[i] == ToLowerAscii(t[i]);
      }
    }
  }

  /** Names that differ only in the case of A–Z have the same event ID. */
  lemma Fnv1CaseVariants(s: string, t: string)
    requires SameUpToCase(s, t)
    ensures Fnv1(s) == Fnv1(t)
  {
    LowerAsciiCases(s, t);
    Fnv1IgnoresCase(s);
    Fnv1IgnoresCase(t);
  }

  /** The textbook byte-wise FNV-1 over a byte string, with no case folding. */
  function Fnv1Bytes(h: bv32, bs: seq<byte>): bv32
    decreases bs
  {
    if bs == [] then h else Fnv1Bytes(Step(h, bs[0]), bs[1..])
  }

  predicate IsAscii(s: string)
  {
    forall i :: 0 <= i < |s| ==> s[i] as int < 0x80
  }

  /** The UTF-8 encoding of an ASCII string: one byte per character. */
  function AsciiBytes(s: string): (bs: seq<byte>)
    requires IsAscii(s)
    ensures |bs| == |s|
  {
    seq(|s|, i requires 0 <= i < |s| => s[i] as int)
  }

  lemma {:induction false} Fnv1FromAscii(h: bv32, s: string)
    requires IsAscii(s)
    ensures IsAscii(LowerAscii(s))
    ensures Fnv1From(h, s) == Fnv1Bytes(h, AsciiBytes(LowerAscii(s)))
    decreases s
  {
    if s != [] {
      assert LowerAscii(s)[1..] == LowerAscii(s[1..]);
      assert AsciiBytes(LowerAscii(s))[1..] == AsciiBytes(LowerAscii(s[1..]));
      Fnv1FromAscii(Step(h, CodeUnit(ToLowerAscii(s[0]))), s[1..]);
    }
  }

  /** For ASCII names the hash is the byte-wise FNV-1 of the lower-cased
      name's UTF-8 bytes; beyond ASCII the two differ, because the source
      hashes UTF-16 code units. */
  lemma Fnv1OfAsciiIsByteWise(s: string)
    requires IsAscii(s)
    ensures IsAscii(LowerAscii(s))
    ensures Fnv1(s) == Fnv1Bytes(OffsetBasis, AsciiBytes(LowerAscii(s)))
  {
    Fnv1FromAscii(OffsetBasis, s);
  }

  /** A regression vector: FNV-1 of "Play_Test" (hashed as "play_test"). */
  lemma Fnv1PlayTest()
    ensures Fnv1("Play_Test") == 0xbdfd7fca
  {
    var s := "Play_Test";
    var h: seq<bv32> := [0x811c9dc5, 0x50c5d6f, 0x617715d1, 0x3f775862, 0x4ae0223f, 0x1dd5e972, 0x69be7e02, 0x78e05d43, 0x8c32d00a, 0xbdfd7fca];
    var u: seq<u16> := [112, 108, 97, 121, 95, 116, 101, 115, 116];
    assert forall i :: 0 <= i < |s| ==> CodeUnit(ToLowerAscii(s[i])) == u[i];
    PlayTestSteps(h, u);
    PlayTestFold(s, h, u, 0);
  }

  /** The nine rounds of the vector, one by one. */
  lemma PlayTestSteps(h: seq<bv32>, u: seq<u16>)
    requires h == [0x811c9dc5, 0x50c5d6f, 0x617715d1, 0x3f775862, 0x4ae0223f, 0x1dd5e972, 0x69be7e02, 0x78e05d43, 0x8c32d00a, 0xbdfd7fca]
    requires u == [112, 108, 97, 121, 95, 116, 101, 115, 116]
    ensures forall j :: 0 <= j < |u| ==> Step(h[j], u[j]) == h[j + 1]
  {
    assert Step(0x811c9dc5, 112) == 0x50c5d6f;
    assert Step(0x50c5d6f, 108) == 0x617715d1;
    assert Step(0x617715d1, 97) == 0x3f775862;
    assert Step(0x3f775862, 121) == 0x4ae0223f;
    assert Step(0x4ae0223f, 95) == 0x1dd5e972;
    assert Step(0x1dd5e972, 116) == 0x69be7e02;
    assert Step(0x69be7e02, 101) == 0x78e05d43;
    assert Step(0x78e05d43, 115) == 0x8c32d00a;
    assert Step(0x8c32d00a, 116) == 0xbdfd7fca;
  }

  /** Folding from the i-th state over the rest of the name ends in the last state. */
  lemma {:induction false} PlayTestFold(s: string, h: seq<bv32>, u: seq<u16>, i: nat)
    requires |h| == |s| + 1 && |u| == |s| && i <= |s|
    requires forall j :: 0 <= j < |s| ==> CodeUnit(ToLowerAscii(s[j])) == u[j]
    requires forall j :: 0 <= j < |u| ==> Step(h[j], u[j]) == h[j + 1]
    ensures Fnv1From(h[i], s[i..]) == h[|s|]
    decreases |s| - i
  {
    if i < |s| {
      assert s[i..][1..] == s[i + 1..];
      PlayTestFold(s, h, u, i + 1);
    }
  }
}
