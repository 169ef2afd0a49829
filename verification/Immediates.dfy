/** 32-byte big-endian immediates and their significant widths. */
module Immediates {
  import opened Isa
  import opened Powers

  type Immediate = b: seq<Byte> | |b| == 32 witness seq(32, i => 0)

  /** The number big-endian bytes denote. */
  function BigEndian(b: seq<Byte>): nat {
    if b == [] then 0 else BigEndian(b[..|b| - 1]) * 256 + b[|b| - 1]
  }

  /** The low `n` bytes of `v`, most significant first. */
  function Bytes(v: nat, n: nat): (b: seq<Byte>)
    ensures |b| == n
    decreases n
  {
    if n == 0 then [] else Bytes(v / 256, n - 1) + [v % 256]
  }

  /** Position of the first nonzero byte, or the length when there is none. */
  function FirstNonzero(b: seq<Byte>): (i: nat)
    ensures i <= |b|
    ensures i < |b| ==> b[i] != 0
    ensures forall k :: 0 <= k < i ==> b[k] == 0
  {
    if b == [] || b[0] != 0 then 0 else 1 + FirstNonzero(b[1..])
  }

  /** Significant bytes; zero for zero. */
  function Width(imm: Immediate): nat {
    32 - FirstNonzero(imm)
  }

  function LeadingZeros(b: Byte): nat {
    if b >= 128 then 0 else if b >= 64 then 1 else if b >= 32 then 2 else if b >= 16 then 3
    else if b >= 8 then 4 else if b >= 4 then 5 else if b >= 2 then 6 else if b == 1 then 7 else 8
  }

  /** Significant bits; zero for zero. */
  function BitWidth(imm: Immediate): nat {
    var first := FirstNonzero(imm);
    if first < 32 then (32 - first) * 8 - LeadingZeros(imm[first]) else 0
  }

  /** The significant bytes themselves. */
  function Significant(imm: Immediate): seq<Byte> {
    imm[32 - Width(imm)..]
  }

  function FromNat(v: nat): Immediate { Bytes(v, 32) }

  // ----- numbers and bytes -----

  lemma Pow2Byte(n: nat)
    ensures Pow2(8 * (n + 1)) == 256 * Pow2(8 * n)
  {
    Pow2Add(8, 8 * n);
    assert Pow2(8) == 256;
  }

  lemma {:induction false} BigEndianBound(b: seq<Byte>)
    ensures BigEndian(b) < Pow2(8 * |b|)
  {
    if b == [] {
    } else {
      BigEndianBound(b[..|b| - 1]);
      Pow2Byte(|b| - 1);
    }
  }

  /** Decoding the bytes of a number gives it back when it fits. */
  lemma {:induction false} BytesDenote(v: nat, n: nat)
    requires v < Pow2(8 * n)
    ensures BigEndian(Bytes(v, n)) == v
    decreases n
  {
    if n == 0 {
    } else {
      Pow2Byte(n - 1);
      BytesDenote(v / 256, n - 1);
      assert Bytes(v, n)[..n - 1] == Bytes(v / 256, n - 1);
    }
  }

  lemma {:induction false} DenoteBytes(b: seq<Byte>)
    ensures Bytes(BigEndian(b), |b|) == b
  {
    if b == [] {
    } else {
      var init := b[..|b| - 1];
      DenoteBytes(init);
      assert BigEndian(b) / 256 == BigEndian(init) && BigEndian(b) % 256 == b[|b| - 1];
    }
  }

  /** Leading zero bytes carry no value. */
  lemma {:induction false} DropLeadingZeros(b: seq<Byte>, i: nat)
    requires i <= |b| && forall k :: 0 <= k < i ==> b[k] == 0
    ensures BigEndian(b[i..]) == BigEndian(b)
    decreases |b|
  {
    if i < |b| {
      var init := b[..|b| - 1];
      DropLeadingZeros(init, i);
      assert b[i..][..|b| - i - 1] == init[i..];
    } else if b != [] {
      var init := b[..|b| - 1];
      DropLeadingZeros(init, i - 1);
      assert init[i - 1..] == [];
    }
  }

  lemma ScaleByByte(h: nat, p: nat, v: nat, last: Byte)
    requires h * p <= v < (h + 1) * p
    ensures h * (256 * p) <= v * 256 + last < (h + 1) * (256 * p)
  {
    assert h * (256 * p) == 256 * (h * p);
    assert (h + 1) * (256 * p) == 256 * ((h + 1) * p);
  }

  /** The leading byte fixes the magnitude. */
  lemma {:induction false} LeadingByte(b: seq<Byte>, h: nat)
    requires b != [] && b[0] == h
    ensures h * Pow2(8 * (|b| - 1)) <= BigEndian(b) < (h + 1) * Pow2(8 * (|b| - 1))
  {
    var n := |b| - 1;
    if n == 0 {
      assert b[..n] == [];
    } else {
      LeadingByte(b[..n], h);
      Pow2Byte(n - 1);
      ScaleByByte(h, Pow2(8 * (n - 1)), BigEndian(b[..n]), b[n]);
    }
  }

  lemma SignificantDenotes(imm: Immediate)
    ensures BigEndian(Significant(imm)) == BigEndian(imm)
    ensures |Significant(imm)| == Width(imm)
    ensures Width(imm) > 0 ==> Significant(imm)[0] != 0
  {
    DropLeadingZeros(imm, FirstNonzero(imm));
  }

  /** `width` is the least number of bytes that holds the value. */
  lemma WidthIsLeast(imm: Immediate, n: nat)
    ensures BigEndian(imm) < Pow2(8 * n) <==> Width(imm) <= n
  {
    var s := Significant(imm);
    SignificantDenotes(imm);
    if Width(imm) <= n {
      BigEndianBound(s);
      Pow2Split(8 * |s|, 8 * n);
    } else {
      LeadingByte(s, s[0]);
      MulMono(1, s[0], Pow2(8 * (|s| - 1)));
      Pow2Split(8 * n, 8 * (|s| - 1));
    }
  }

  lemma LeadingZerosExact(b: Byte)
    requires b > 0
    ensures LeadingZeros(b) <= 7
    ensures Pow2(7 - LeadingZeros(b)) <= b < Pow2(8 - LeadingZeros(b))
  {
    assert Pow2(1) == 2 && Pow2(2) == 4;
    assert Pow2(3) == 8 && Pow2(4) == 16;
    assert Pow2(5) == 32 && Pow2(6) == 64;
    assert Pow2(7) == 128 && Pow2(8) == 256;
  }

  lemma BitWidthBounds(imm: Immediate)
    requires Width(imm) > 0
    ensures BitWidth(imm) > 0
    ensures Pow2(BitWidth(imm) - 1) <= BigEndian(imm) < Pow2(BitWidth(imm))
  {
    var s := Significant(imm);
    SignificantDenotes(imm);
    var h: nat, z, k := s[0], LeadingZeros(s[0]), 8 * (|s| - 1);
    LeadingByte(s, h);
    LeadingZerosExact(s[0]);
    Pow2Add(7 - z, k);
    Pow2Add(8 - z, k);
    MulMono(Pow2(7 - z), h, Pow2(k));
    MulMono(h + 1, Pow2(8 - z), Pow2(k));
  }

  /** `bit_width` is the width of the narrowest unsigned type that holds the value. */
  lemma BitWidthIsLeast(imm: Immediate, n: nat)
    ensures BigEndian(imm) < Pow2(n) <==> BitWidth(imm) <= n
  {
    if Width(imm) == 0 {
      SignificantDenotes(imm);
    } else {
      BitWidthBounds(imm);
      if BitWidth(imm) <= n {
        Pow2Split(BitWidth(imm), n);
      } else {
        Pow2Split(n, BitWidth(imm) - 1);
      }
    }
  }
}
