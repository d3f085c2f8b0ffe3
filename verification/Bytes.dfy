/** Bytes, fixed-width byte strings, unsigned 64-bit integers and their little-endian form. */
module Bytes {

  type byte = b: int | 0 <= b < 0x100
  type Bytes = seq<byte>
  type Bytes32 = b: Bytes | |b| == 32 witness seq(32, _ => 0)
  type Bytes64 = b: Bytes | |b| == 64 witness seq(64, _ => 0)

  const TWO_TO_THE_64 := 0x1_0000_0000_0000_0000

  type u64 = n: int | 0 <= n < TWO_TO_THE_64

  /** 256 to the power `width`. */
  function Base256(width: nat): (p: nat)
    ensures p >= 1
  {
    if width == 0 then 1 else 0x100 * Base256(width - 1)
  }

  /** The low `width` bytes of `n`, least significant first (`to_le_bytes`). */
  function LittleEndian(n: nat, width: nat): (bs: Bytes)
    ensures |bs| == width
  {
    if width == 0 then [] else [n % 0x100] + LittleEndian(n / 0x100, width - 1)
  }

  function FromLittleEndian(bs: Bytes): nat {
    if |bs| == 0 then 0 else bs[0] + 0x100 * FromLittleEndian(bs[1..])
  }

  /** A number that fits the width is read back unchanged. */
  lemma {:induction false} LittleEndianRoundTrip(n: nat, width: nat)
    requires n < Base256(width)
    ensures FromLittleEndian(LittleEndian(n, width)) == n
  {
    if width > 0 {
      LittleEndianRoundTrip(n / 0x100, width - 1);
      assert LittleEndian(n, width)[1..] == LittleEndian(n / 0x100, width - 1);
    }
  }

  lemma {:induction false} FromLittleEndianBound(bs: Bytes)
    ensures FromLittleEndian(bs) < Base256(|bs|)
  {
    if |bs| > 0 {
      FromLittleEndianBound(bs[1..]);
    }
  }

  lemma U64RoundTrip(n: u64)
    ensures FromLittleEndian(LittleEndian(n, 8)) == n
  {
    assert Base256(4) == 0x1_0000_0000;
    assert Base256(8) == TWO_TO_THE_64;
    LittleEndianRoundTrip(n, 8);
  }

  /** The weight of each of the eight bytes: the least significant comes first. */
  lemma LittleEndianWeights(n: u64)
    ensures var bs: seq<int> := LittleEndian(n, 8);
      n == bs[0] + 0x100 * bs[1] + 0x1_0000 * bs[2] + 0x100_0000 * bs[3] + 0x1_0000_0000 * bs[4]
           + 0x100_0000_0000 * bs[5] + 0x1_0000_0000_0000 * bs[6] + 0x100_0000_0000_0000 * bs[7]
  {
    hide LittleEndian;
    var bs := LittleEndian(n, 8);
    U64RoundTrip(n);
    ReadPair(bs);
    ReadPair(bs[2..]);
    ReadPair(bs[4..]);
    ReadPair(bs[6..]);
    assert FromLittleEndian(bs[8..]) == 0;
    assert bs[2..][2..] == bs[4..] && bs[4..][2..] == bs[6..] && bs[6..][2..] == bs[8..];
  }

  lemma ReadPair(bs: Bytes)
    requires |bs| >= 2
    ensures FromLittleEndian(bs) == bs[0] + 0x100 * bs[1] + 0x1_0000 * FromLittleEndian(bs[2..])
  {
    assert bs[1..][0] == bs[1] && bs[1..][1..] == bs[2..];
  }

  /** Byte order on arrays: the first differing byte decides, and a proper prefix comes first. */
  predicate LexLess(a: Bytes, b: Bytes) {
    |b| > 0 && (|a| == 0 || a[0] < b[0] || (a[0] == b[0] && LexLess(a[1..], b[1..])))
  }

  /** On strings of one length: at the first byte that differs, the lesser string has the lesser byte. */
  lemma {:induction false} LexFirstDifference(a: Bytes, b: Bytes)
    requires |a| == |b|
    ensures LexLess(a, b) <==> exists i :: 0 <= i < |a| && a[..i] == b[..i] && a[i] < b[i]
  {
    if |a| > 0 {
      LexFirstDifference(a[1..], b[1..]);
      if a[0] < b[0] {
        assert a[..0] == b[..0];
      } else if i :| 0 <= i < |a[1..]| && a[1..][..i] == b[1..][..i] && a[1..][i] < b[1..][i] {
        if a[0] == b[0] {
          assert a[..i + 1] == [a[0]] + a[1..][..i] && b[..i + 1] == [b[0]] + b[1..][..i];
          assert a[i + 1] < b[i + 1];
        }
      }
      if i :| 0 < i < |a| && a[..i] == b[..i] && a[i] < b[i] {
        assert a[0] == a[..i][0] && b[0] == b[..i][0];
        assert a[1..][..i - 1] == a[..i][1..] && b[1..][..i - 1] == b[..i][1..];
        assert a[1..][i - 1] < b[1..][i - 1];
      }
    }
  }

  /** The bytes read as one big-endian number. */
  function BigEndian(bs: Bytes): nat {
    if |bs| == 0 then 0 else bs[0] * Base256(|bs| - 1) + BigEndian(bs[1..])
  }

  lemma {:induction false} BigEndianBound(bs: Bytes)
    ensures BigEndian(bs) < Base256(|bs|)
  {
    if |bs| > 0 {
      BigEndianBound(bs[1..]);
      ScaleMonotone(bs[0], 0xFF, Base256(|bs| - 1));
    }
  }

  lemma ScaleMonotone(x: nat, y: nat, p: nat)
    requires x <= y
    ensures x * p <= y * p
  {
  }

  lemma LeadingDigitDecides(x: nat, y: nat, p: nat, u: nat, v: nat)
    requires x < y && u < p
    ensures x * p + u < y * p + v
  {
    ScaleMonotone(x + 1, y, p);
    assert (x + 1) * p == x * p + p;
  }

  /** On strings of one length the byte order is the order of the big-endian values. */
  lemma {:induction false} LexIsNumeric(a: Bytes, b: Bytes)
    requires |a| == |b|
    ensures LexLess(a, b) <==> BigEndian(a) < BigEndian(b)
    ensures BigEndian(a) == BigEndian(b) ==> a == b
  {
    if |a| > 0 {
      var p := Base256(|a| - 1);
      BigEndianBound(a[1..]);
      BigEndianBound(b[1..]);
      LexIsNumeric(a[1..], b[1..]);
      if a[0] < b[0] {
        LeadingDigitDecides(a[0], b[0], p, BigEndian(a[1..]), BigEndian(b[1..]));
      } else if b[0] < a[0] {
        LeadingDigitDecides(b[0], a[0], p, BigEndian(b[1..]), BigEndian(a[1..]));
      } else if a[1..] == b[1..] {
        assert a == [a[0]] + a[1..];
        assert b == [b[0]] + b[1..];
      }
    }
  }
}
