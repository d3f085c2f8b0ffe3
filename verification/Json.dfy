/**
  Compact JSON text as serde_json writes it, and a parser for it.

  The printer puts no white space between tokens and escapes only what section 7 of RFC 8259
  requires. The parser also reads what a document from elsewhere may contain: white space,
  every escape, escaped surrogate pairs, and numbers, which no record of Liquet has a field for and
  which are kept as they are written.
 */
module Json {
  import opened Wrappers
  import opened Text

  datatype Json =
    | Null
    | Bool(b: bool)
    | Number(text: NumberText)
    | String(s: string)
    | Array(elements: seq<Json>)
    | Object(members: seq<Member>)

  // ---------- Numbers as text (section 6 of RFC 8259) ----------

  predicate AreDigits(s: string) {
    |s| > 0 && forall i :: 0 <= i < |s| ==> '0' <= s[i] <= '9'
  }

  /** An integer without a leading zero, perhaps after a minus. */
  predicate IsInteger(s: string) {
    var digits := if |s| > 0 && s[0] == '-' then s[1..] else s;
    AreDigits(digits) && (digits[0] == '0' ==> |digits| == 1)
  }

  predicate IsFraction(s: string) {
    s == "" || (s[0] == '.' && AreDigits(s[1..]))
  }

  predicate IsExponent(s: string) {
    s == "" ||
    ((s[0] == 'e' || s[0] == 'E') && AreDigits(if |s| > 1 && (s[1] == '+' || s[1] == '-') then s[2..] else s[1..]))
  }

  predicate IsNumber(s: string) {
    exists i, j :: 0 <= i <= j <= |s| && IsInteger(s[..i]) && IsFraction(s[i..j]) && IsExponent(s[j..])
  }

  lemma ZeroIsNumber()
    ensures IsNumber("0")
  {
    var s := "0";
    assert IsInteger(s[..1]) && IsFraction(s[1..1]) && IsExponent(s[1..]);
  }

  type NumberText = s: string | IsNumber(s) ghost witness (ZeroIsNumber(); "0")

  predicate InNumber(c: char) {
    '0' <= c <= '9' || c == '-' || c == '+' || c == '.' || c == 'e' || c == 'E'
  }

  /** How far the characters that occur in numbers go. */
  function NumberEnd(s: string): (n: nat)
    ensures n <= |s|
  {
    if |s| > 0 && InNumber(s[0]) then 1 + NumberEnd(s[1..]) else 0
  }

  datatype Member = Member(key: string, value: Json)

  // ---------- Printing ----------

  function EscapeChar(c: char): (e: string)
    ensures |e| > 0
  {
    if c == '\"' then "\\\""
    else if c == '\\' then "\\\\"
    else if c == '\U{08}' then "\\b"
    else if c == '\U{0C}' then "\\f"
    else if c == '\n' then "\\n"
    else if c == '\r' then "\\r"
    else if c == '\t' then "\\t"
    else if c < ' ' then "\\u00" + [HexDigit(c as int / 16), HexDigit(c as int % 16)]
    else [c]
  }

  function Escape(s: string): string {
    if |s| == 0 then "" else EscapeChar(s[0]) + Escape(s[1..])
  }

  function PrintString(s: string): string {
    "\"" + (Escape(s) + "\"")
  }

  function Print(j: Json): string
    decreases j, 1
  {
    match j
    case Null => "null"
    case Bool(b) => if b then "true" else "false"
    case Number(text) => text
    case String(s) => PrintString(s)
    case Array(es) => "[" + (PrintElements(es) + "]")
    case Object(ms) => "{" + (PrintMembers(ms) + "}")
  }

  function PrintElements(es: seq<Json>): string
    decreases es, 0
  {
    if |es| == 0 then ""
    else if |es| == 1 then Print(es[0])
    else Print(es[0]) + ("," + PrintElements(es[1..]))
  }

  function PrintMembers(ms: seq<Member>): string
    decreases ms, 0
  {
    if |ms| == 0 then ""
    else if |ms| == 1 then PrintMember(ms[0]) else PrintMember(ms[0]) + ("," + PrintMembers(ms[1..]))
  }

  function PrintMember(m: Member): string
    decreases m, 2
  {
    PrintString(m.key) + (":" + Print(m.value))
  }

  // ---------- Parsing: each parser returns what it read and the text after it ----------

  predicate IsSpace(c: char) {
    c == ' ' || c == '\t' || c == '\n' || c == '\r'
  }

  function SkipSpace(s: string): (r: string)
    ensures |r| <= |s|
  {
    if |s| > 0 && IsSpace(s[0]) then SkipSpace(s[1..]) else s
  }

  /** Reads `token` if the text starts with it. */
  function Expect(token: string, s: string): (r: Option<string>)
    ensures r.Some? ==> |r.value| == |s| - |token|
  {
    if token <= s then Some(s[|token|..]) else None
  }

  /** Four hex digits, in either case. */
  function ParseHex4(s: string): (r: Option<(int, string)>)
    ensures r.Some? ==> 0 <= r.value.0 < 0x1_0000 && |r.value.1| == |s| - 4
  {
    if |s| < 4 then None
    else
      var a :- HexValue(s[0]);
      var b :- HexValue(s[1]);
      var c :- HexValue(s[2]);
      var d :- HexValue(s[3]);
      Some((0x1000 * a + 0x100 * b + 0x10 * c + d, s[4..]))
  }

  /** The text after `\u`: one code unit, or two that form a surrogate pair. */
  function ParseUnicodeEscape(s: string): (r: Option<(char, string)>)
    ensures r.Some? ==> |r.value.1| < |s|
  {
    var (n, rest) :- ParseHex4(s);
    if n < 0xD800 || n > 0xDFFF then Some((n as char, rest))
    else if n > 0xDBFF then None
    else
      var afterU :- Expect("\\u", rest);
      var (low, rest2) :- ParseHex4(afterU);
      if low < 0xDC00 || low > 0xDFFF then None
      else Some(((0x1_0000 + 0x400 * (n - 0xD800) + (low - 0xDC00)) as char, rest2))
  }

  /** The text after a backslash. */
  function ParseEscape(s: string): (r: Option<(char, string)>)
    ensures r.Some? ==> |r.value.1| < |s|
  {
    if |s| == 0 then None
    else if s[0] == '\"' || s[0] == '\\' || s[0] == '/' then Some((s[0], s[1..]))
    else if s[0] == 'b' then Some(('\U{08}', s[1..]))
    else if s[0] == 'f' then Some(('\U{0C}', s[1..]))
    else if s[0] == 'n' then Some(('\n', s[1..]))
    else if s[0] == 'r' then Some(('\r', s[1..]))
    else if s[0] == 't' then Some(('\t', s[1..]))
    else if s[0] == 'u' then ParseUnicodeEscape(s[1..])
    else None
  }

  /** The rest of a string after its opening quote, through the closing one. */
  function ParseChars(s: string): (r: Option<(string, string)>)
    ensures r.Some? ==> |r.value.1| < |s|
    decreases |s|
  {
    if |s| == 0 then None
    else if s[0] == '\"' then Some(("", s[1..]))
    else
      var (c, rest) :- ParseChar(s);
      var (cs, rest2) :- ParseChars(rest);
      Some(([c] + cs, rest2))
  }

  function Parse(text: string): (r: Option<(Json, string)>)
    ensures r.Some? ==> |r.value.1| < |text|
    decreases |text|, 1
  {
    var s := SkipSpace(text);
    if |s| == 0 then None
    else if s[0] == 'n' then
      var rest :- Expect("null", s);
      Some((Null, rest))
    else if s[0] == 't' then
      var rest :- Expect("true", s);
      Some((Bool(true), rest))
    else if s[0] == 'f' then
      var rest :- Expect("false", s);
      Some((Bool(false), rest))
    else if s[0] == '\"' then
      var (cs, rest) :- ParseChars(s[1..]);
      Some((String(cs), rest))
    else if s[0] == '[' then
      var (es, rest) :- ParseElements(s[1..], true);
      Some((Array(es), rest))
    else if s[0] == '{' then
      var (ms, rest) :- ParseMembers(s[1..], true);
      Some((Object(ms), rest))
    else
      var n := NumberEnd(s);
      if IsNumber(s[..n]) then Some((Number(s[..n]), s[n..])) else None
  }

  /** The rest of an array; only directly after `[` may it close without an element. */
  function ParseElements(text: string, mayClose: bool): (r: Option<(seq<Json>, string)>)
    ensures r.Some? ==> |r.value.1| < |text|
    decreases |text|, 2
  {
    var s := SkipSpace(text);
    if |s| == 0 then None
    else if mayClose && s[0] == ']' then Some(([], s[1..]))
    else
      var (e, rest) :- Parse(s);
      var tail := SkipSpace(rest);
      if |tail| == 0 then None
      else if tail[0] == ']' then Some(([e], tail[1..]))
      else if tail[0] != ',' then None
      else
        var (es, rest2) :- ParseElements(tail[1..], false);
        Some(([e] + es, rest2))
  }

  /** The rest of an object; only directly after `{` may it close without a member. */
  function ParseMembers(text: string, mayClose: bool): (r: Option<(seq<Member>, string)>)
    ensures r.Some? ==> |r.value.1| < |text|
    decreases |text|, 2
  {
    var s := SkipSpace(text);
    if |s| == 0 then None
    else if mayClose && s[0] == '}' then Some(([], s[1..]))
    else if s[0] != '\"' then None
    else
      var (key, afterKey) :- ParseChars(s[1..]);
      var afterColon :- Expect(":", SkipSpace(afterKey));
      var (value, rest) :- Parse(afterColon);
      var tail := SkipSpace(rest);
      if |tail| == 0 then None
      else if tail[0] == '}' then Some(([Member(key, value)], tail[1..]))
      else if tail[0] != ',' then None
      else
        var (ms, rest2) :- ParseMembers(tail[1..], false);
        Some(([Member(key, value)] + ms, rest2))
  }

  /** A whole document: one value and nothing but white space after it. */
  function ParseDocument(text: string): Option<Json> {
    var (j, rest) :- Parse(text);
    if SkipSpace(rest) == "" then Some(j) else None
  }

  /** One character of a string, raw or escaped, and the text after it. */
  function ParseChar(s: string): (r: Option<(char, string)>)
    requires |s| > 0
    ensures r.Some? ==> |r.value.1| < |s|
  {
    if s[0] == '\\' then ParseEscape(s[1..])
    else if s[0] == '\"' || s[0] < ' ' then None
    else Some((s[0], s[1..]))
  }

  /** No text that reads as the character is shorter than its printed form. */
  lemma EscapeIsShortest(c: char, text: string)
    requires |text| > 0 && ParseChar(text).Some? && ParseChar(text).value.0 == c
    ensures |EscapeChar(c)| <= |text| - |ParseChar(text).value.1|
  {
    if text[0] == '\\' && text[1] == 'u' {
      assert |text[1..][1..]| == |text| - 2;
    }
  }
}
