/**
  Text as Rust holds it. A `String` is a sequence of Unicode scalar values, which is what
  Dafny's `string` is, so strings are compared and sliced character by character and turned
  into bytes (UTF-8) only where they are hashed.
 */
module Text {
  import opened Bytes
  import opened Wrappers

  // ---------- UTF-8 (section 3 of RFC 3629) ----------

  function Utf8Char(c: char): (bs: Bytes)
    ensures |bs| > 0
  {
    var n := c as int;
    var a := n / 0x40;
    var b := a / 0x40;
    if n < 0x80 then [n]
    else if n < 0x800 then [0xC0 + a, 0x80 + n % 0x40]
    else if n < 0x1_0000 then [0xE0 + b, 0x80 + a % 0x40, 0x80 + n % 0x40]
    else [0xF0 + b / 0x40, 0x80 + b % 0x40, 0x80 + a % 0x40, 0x80 + n % 0x40]
  }

  /** The code point that the bytes of one character spell. */
  function CodePoint(bs: Bytes): int
    requires 1 <= |bs| <= 4
  {
    var first: int := bs[0];
    if |bs| == 1 then first
    else if |bs| == 2 then 0x40 * (first - 0xC0) + bs[1] - 0x80
    else if |bs| == 3 then 0x40 * (0x40 * (first - 0xE0) + bs[1] - 0x80) + bs[2] - 0x80
    else 0x40 * (0x40 * (0x40 * (first - 0xF0) + bs[1] - 0x80) + bs[2] - 0x80) + bs[3] - 0x80
  }

  lemma CodePointOfChar(c: char)
    ensures |Utf8Char(c)| <= 4 && CodePoint(Utf8Char(c)) == c as int
  {
    var n := c as int;
    var a := n / 0x40;
    var b := a / 0x40;
    assert n == 0x40 * a + n % 0x40 && a == 0x40 * b + a % 0x40 && b == 0x40 * (b / 0x40) + b % 0x40;
  }

  /** How many bytes a character takes, and in which ranges they lie. */
  lemma Utf8CharForm(c: char)
    ensures |Utf8Char(c)| ==
      if c < '\U{80}' then 1 else if c < '\U{800}' then 2 else if c < '\U{10000}' then 3 else 4
    ensures var first := Utf8Char(c)[0];
      match |Utf8Char(c)|
      case 1 => first == c as int
      case 2 => 0xC2 <= first <= 0xDF
      case 3 => 0xE0 <= first <= 0xEF
      case _ => 0xF0 <= first <= 0xF4
    ensures forall i :: 1 <= i < |Utf8Char(c)| ==> 0x80 <= Utf8Char(c)[i] <= 0xBF
  {
  }

  function Utf8(s: string): Bytes {
    if |s| == 0 then [] else Utf8Char(s[0]) + Utf8(s[1..])
  }

  /** The first byte fixes the width, so one character's bytes are never a prefix of another's. */
  lemma Utf8CharPrefixFree(c: char, d: char, r: Bytes, q: Bytes)
    requires Utf8Char(c) + r == Utf8Char(d) + q
    ensures c == d && r == q
  {
    var x, y := Utf8Char(c) + r, Utf8Char(d) + q;
    assert x[0] == y[0] && x[0] == Utf8Char(c)[0] && y[0] == Utf8Char(d)[0];
    assert |Utf8Char(c)| == |Utf8Char(d)|;
    var w := |Utf8Char(c)|;
    assert x[..w] == Utf8Char(c) && y[..w] == Utf8Char(d);
    assert x[w..] == r && y[w..] == q;
    CodePointOfChar(c);
    CodePointOfChar(d);
  }

  lemma {:induction false} Utf8Injective(s: string, t: string)
    requires Utf8(s) == Utf8(t)
    ensures s == t
  {
    if |s| > 0 && |t| > 0 {
      Utf8CharPrefixFree(s[0], t[0], Utf8(s[1..]), Utf8(t[1..]));
      Utf8Injective(s[1..], t[1..]);
      assert s == [s[0]] + s[1..] && t == [t[0]] + t[1..];
    }
  }

  /** ASCII text in front is one byte a character, and does not touch the bytes of what follows. */
  lemma {:induction false} Utf8AfterAscii(ascii: string, rest: string)
    requires forall i :: 0 <= i < |ascii| ==> ascii[i] as int < 0x80
    ensures |Utf8(ascii + rest)| >= |ascii|
    ensures forall i :: 0 <= i < |ascii| ==> Utf8(ascii + rest)[i] == ascii[i] as int
    ensures Utf8(ascii + rest)[|ascii|..] == Utf8(rest)
  {
    if |ascii| == 0 {
      assert ascii + rest == rest;
    } else {
      Utf8AfterAscii(ascii[1..], rest);
      assert (ascii + rest)[0] == ascii[0] && (ascii + rest)[1..] == ascii[1..] + rest;
      var tail := Utf8(ascii[1..] + rest);
      assert Utf8(ascii + rest) == [ascii[0] as int] + tail;
      assert forall i :: 0 < i < |ascii| ==> ascii[i] == ascii[1..][i - 1];
      assert ([ascii[0] as int] + tail)[|ascii|..] == tail[|ascii| - 1..];
    }
  }

  // ---------- Hexadecimal (section 8 of RFC 4648) ----------

  function HexDigit(n: nat): char
    requires n < 16
  {
    if n < 10 then '0' + n as char else 'a' + (n - 10) as char
  }

  /** The value of a hex digit in either case. */
  function HexValue(c: char): (v: Option<int>)
    ensures v.Some? ==> 0 <= v.value < 16
  {
    if '0' <= c <= '9' then Some(c as int - '0' as int)
    else if 'a' <= c <= 'f' then Some(c as int - 'a' as int + 10)
    else if 'A' <= c <= 'F' then Some(c as int - 'A' as int + 10)
    else None
  }

  /** `hex::encode`: two lowercase digits a byte. */
  function HexEncode(bs: Bytes): (s: string)
    ensures |s| == 2 * |bs|
  {
    if |bs| == 0 then ""
    else [HexDigit(bs[0] / 16), HexDigit(bs[0] % 16)] + HexEncode(bs[1..])
  }

  /** `hex::decode`: either case; an odd length or a character that is no hex digit is an error. */
  function HexDecode(s: string): Option<Bytes> {
    if |s| == 0 then Some([])
    else if |s| == 1 then None
    else
      var hi :- HexValue(s[0]);
      var lo :- HexValue(s[1]);
      var rest :- HexDecode(s[2..]);
      Some([16 * hi + lo] + rest)
  }

  function AsciiLower(c: char): char {
    if 'A' <= c <= 'Z' then (c as int + 32) as char else c
  }

  /** `str::eq_ignore_ascii_case`. */
  predicate EqIgnoreAsciiCase(s: string, t: string) {
    |s| == |t| && forall i :: 0 <= i < |s| ==> AsciiLower(s[i]) == AsciiLower(t[i])
  }

  lemma HexDigitCases(n: nat, c: char)
    requires n < 16
    ensures HexValue(c) == Some(n) <==> AsciiLower(HexDigit(n)) == AsciiLower(c)
  {
  }

  /** Byte `i` stands at `2 * i`, high digit first, in these digits. */
  lemma {:induction false} HexEncodeAt(bs: Bytes, i: nat)
    requires i < |bs|
    ensures HexEncode(bs)[2 * i] == "0123456789abcdef"[bs[i] / 16]
    ensures HexEncode(bs)[2 * i + 1] == "0123456789abcdef"[bs[i] % 16]
  {
    if i == 0 {
      HexDigitIs(bs[0] / 16);
      HexDigitIs(bs[0] % 16);
    } else {
      HexEncodeAt(bs[1..], i - 1);
      assert HexEncode(bs)[2..] == HexEncode(bs[1..]);
    }
  }

  lemma HexDigitIs(n: nat)
    requires n < 16
    ensures HexDigit(n) == "0123456789abcdef"[n]
  {
  }

  /** Case is folded for the 26 ASCII letters and for nothing else. */
  lemma AsciiLowerIs(c: char)
    ensures forall i :: 0 <= i < 26 && c == "ABCDEFGHIJKLMNOPQRSTUVWXYZ"[i] ==>
              AsciiLower(c) == "abcdefghijklmnopqrstuvwxyz"[i]
    ensures c !in "ABCDEFGHIJKLMNOPQRSTUVWXYZ" ==> AsciiLower(c) == c
  {
    var upper, lower := "ABCDEFGHIJKLMNOPQRSTUVWXYZ", "abcdefghijklmnopqrstuvwxyz";
    assert forall i :: 0 <= i < 26 ==> upper[i] as int == 65 + i && lower[i] as int == 97 + i;
    if 'A' <= c <= 'Z' {
      assert upper[c as int - 65] == c;
    }
  }

  /** Printed hex holds digits and lowercase letters only: no `/`, no `.`. */
  lemma {:induction false} HexAlphabet(bs: Bytes, i: nat)
    requires i < |HexEncode(bs)|
    ensures '0' <= HexEncode(bs)[i] <= '9' || 'a' <= HexEncode(bs)[i] <= 'f'
  {
    if i >= 2 {
      assert HexEncode(bs)[i] == HexEncode(bs[1..])[i - 2];
      HexAlphabet(bs[1..], i - 2);
    }
  }

  /**
    The spellings that `hex::decode` reads as `bs` are exactly those equal to the printed form
    up to ASCII case. Comparing hex case-insensitively is therefore comparing bytes.
   */
  lemma HexSpellings(bs: Bytes, s: string)
    ensures HexDecode(s) == Some(bs) <==> EqIgnoreAsciiCase(HexEncode(bs), s)
  {
    if HexDecode(s) == Some(bs) {
      DecodedIsSpelling(bs, s);
    }
    if EqIgnoreAsciiCase(HexEncode(bs), s) {
      SpellingDecodes(bs, s);
    }
  }

  lemma {:induction false} DecodedIsSpelling(bs: Bytes, s: string)
    requires HexDecode(s) == Some(bs)
    ensures EqIgnoreAsciiCase(HexEncode(bs), s)
  {
    if |s| > 0 {
      var hi, lo := HexValue(s[0]).value, HexValue(s[1]).value;
      assert bs[0] / 16 == hi && bs[0] % 16 == lo && bs[1..] == HexDecode(s[2..]).value;
      DecodedIsSpelling(bs[1..], s[2..]);
      HexDigitCases(hi, s[0]);
      HexDigitCases(lo, s[1]);
      var e, t := HexEncode(bs), HexEncode(bs[1..]);
      assert forall i :: 2 <= i < |e| ==> e[i] == t[i - 2] && s[i] == s[2..][i - 2];
    }
  }

  lemma HexEncodeParts(bs: Bytes)
    requires |bs| > 0
    ensures HexEncode(bs)[0] == HexDigit(bs[0] / 16) && HexEncode(bs)[1] == HexDigit(bs[0] % 16)
    ensures HexEncode(bs)[2..] == HexEncode(bs[1..])
  {
  }

  lemma SpellingSplits(e: string, s: string)
    requires |e| >= 2 && EqIgnoreAsciiCase(e, s)
    ensures AsciiLower(e[0]) == AsciiLower(s[0]) && AsciiLower(e[1]) == AsciiLower(s[1])
    ensures EqIgnoreAsciiCase(e[2..], s[2..])
  {
  }

  lemma {:induction false} SpellingDecodes(bs: Bytes, s: string)
    requires EqIgnoreAsciiCase(HexEncode(bs), s)
    ensures HexDecode(s) == Some(bs)
  {
    if |bs| > 0 {
      HexEncodeParts(bs);
      SpellingSplits(HexEncode(bs), s);
      SpellingDecodes(bs[1..], s[2..]);
      HexDigitCases(bs[0] / 16, s[0]);
      HexDigitCases(bs[0] % 16, s[1]);
      assert [bs[0]] + bs[1..] == bs;
    }
  }

  lemma CaseTransitive(s: string, t: string, u: string)
    requires EqIgnoreAsciiCase(s, t) && EqIgnoreAsciiCase(t, u)
    ensures EqIgnoreAsciiCase(s, u)
  {
  }

  lemma HexInjective(a: Bytes, b: Bytes)
    requires EqIgnoreAsciiCase(HexEncode(a), HexEncode(b))
    ensures a == b
  {
    HexSpellings(a, HexEncode(b));
    HexSpellings(b, HexEncode(b));
  }

  // ---------- Decimal ----------

  /** `u64::to_string`. */
  function Decimal(n: nat): string {
    if n < 10 then [HexDigit(n)] else Decimal(n / 10) + [HexDigit(n % 10)]
  }

  /** Base ten, most significant digit first. */
  function DecimalValue(s: string): int {
    if |s| == 0 then 0 else 10 * DecimalValue(s[..|s| - 1]) + (s[|s| - 1] as int - '0' as int)
  }

  /** The printed number reads back as the number, and has no leading zero. */
  lemma {:induction false} DecimalReadsBack(n: nat)
    ensures DecimalValue(Decimal(n)) == n
    ensures n > 0 ==> Decimal(n)[0] != '0'
  {
    var s := Decimal(n);
    assert s[|s| - 1] as int - '0' as int == n % 10;
    if n < 10 {
      assert s[..|s| - 1] == "";
    } else {
      assert s[..|s| - 1] == Decimal(n / 10);
      DecimalReadsBack(n / 10);
    }
  }

  /** Two numbers print alike only if they are equal. */
  lemma DecimalInjective(m: nat, n: nat)
    requires Decimal(m) == Decimal(n)
    ensures m == n
  {
    DecimalReadsBack(m);
    DecimalReadsBack(n);
  }

  // ---------- Joining ----------

  /** `[String]::join`. */
  function Join(parts: seq<string>, separator: string): string {
    if |parts| == 0 then ""
    else if |parts| == 1 then parts[0]
    else parts[0] + separator + Join(parts[1..], separator)
  }

  /** Joining puts the separator between neighbours and nowhere else. */
  lemma {:induction false} JoinSplits(a: seq<string>, b: seq<string>, separator: string)
    ensures Join([], separator) == ""
    ensures forall x :: Join([x], separator) == x
    ensures |a| > 0 && |b| > 0 ==> Join(a + b, separator) == Join(a, separator) + (separator + Join(b, separator))
  {
    if |a| == 1 && |b| > 0 {
      assert (a + b)[1..] == b;
    } else if |a| > 1 && |b| > 0 {
      JoinSplits(a[1..], b, separator);
      assert (a + b)[0] == a[0] && (a + b)[1..] == a[1..] + b;
    }
  }
}
