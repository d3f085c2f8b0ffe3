/**
  Which text is JSON for which value, said without a parser: sections 2 to 7 of RFC 8259.
  The parser accepts exactly this, and the printer writes one spelling of it.
 */
module Grammar {
  import opened Bytes
  import opened Wrappers
  import opened Text
  import opened Json

  // ---------- The grammar ----------

  predicate Space(w: string) {
    forall i :: 0 <= i < |w| ==> w[i] == ' ' || w[i] == '\t' || w[i] == '\n' || w[i] == '\r'
  }

  /** Four hex digits, in either case, that spell a 16-bit code unit. */
  predicate SpellsUnit(h: string, n: int) {
    |h| == 4 && 0 <= n < 0x1_0000 && HexDecode(h) == Some([n / 0x100, n % 0x100])
  }

  /** A character as it stands, or after a backslash, or as one code unit, or as a surrogate pair. */
  predicate SpellsChar(t: string, c: char) {
    || (t == [c] && c >= ' ' && c != '\"' && c != '\\')
    || (|t| == 2 && t[0] == '\\' && (t[1], c) in
          {('\"', '\"'), ('\\', '\\'), ('/', '/'), ('b', '\U{08}'), ('f', '\U{0C}'),
           ('n', '\n'), ('r', '\r'), ('t', '\t')})
    || (|t| == 6 && t[..2] == "\\u" && SpellsUnit(t[2..], c as int))
    || (|t| == 12 && t[..2] == "\\u" && t[6..8] == "\\u" && c as int >= 0x1_0000
        && SpellsUnit(t[2..6], 0xD800 + (c as int - 0x1_0000) / 0x400)
        && SpellsUnit(t[8..], 0xDC00 + (c as int - 0x1_0000) % 0x400))
  }

  ghost predicate SpellsChars(t: string, s: string)
    decreases |s|
  {
    if |s| == 0 then t == ""
    else exists u, v :: t == u + v && SpellsChar(u, s[0]) && SpellsChars(v, s[1..])
  }

  ghost predicate SpellsString(t: string, s: string) {
    exists b :: t == "\"" + (b + "\"") && SpellsChars(b, s)
  }

  ghost predicate Spells(t: string, j: Json)
    decreases j, 1
  {
    match j
    case Null => t == "null"
    case Bool(b) => t == if b then "true" else "false"
    case Number(text) => t == text
    case String(s) => SpellsString(t, s)
    case Array(es) => exists b :: t == "[" + (b + "]") && SpellsElements(b, es)
    case Object(ms) => exists b :: t == "{" + (b + "}") && SpellsMembers(b, ms)
  }

  /** A value with white space around it. */
  ghost predicate Spaced(t: string, j: Json)
    decreases j, 2
  {
    exists w, v, w' :: t == w + (v + w') && Space(w) && Spells(v, j) && Space(w')
  }

  ghost predicate SpellsElements(t: string, es: seq<Json>)
    decreases es, 3
  {
    if |es| == 0 then Space(t)
    else if |es| == 1 then Spaced(t, es[0])
    else exists u, v :: t == u + ("," + v) && Spaced(u, es[0]) && SpellsElements(v, es[1..])
  }

  ghost predicate SpellsMembers(t: string, ms: seq<Member>)
    decreases ms, 3
  {
    if |ms| == 0 then Space(t)
    else if |ms| == 1 then SpellsMember(t, ms[0])
    else exists u, v :: t == u + ("," + v) && SpellsMember(u, ms[0]) && SpellsMembers(v, ms[1..])
  }

  ghost predicate SpellsMember(t: string, m: Member)
    decreases m, 3
  {
    exists w, k, w', v ::
      t == w + (k + (w' + (":" + v))) && Space(w) && SpellsString(k, m.key) && Space(w') && Spaced(v, m.value)
  }

  // ---------- White space ----------

  lemma {:induction false} SkipsSpace(w: string, s: string)
    requires Space(w)
    ensures SkipSpace(w + s) == SkipSpace(s)
  {
    if |w| == 0 {
      assert w + s == s;
    } else {
      SkipsSpace(w[1..], s);
      assert (w + s)[0] == w[0] && (w + s)[1..] == w[1..] + s;
    }
  }

  lemma NoSpaceIn(s: string)
    requires s != "" && !IsSpace(s[0])
    ensures SkipSpace(s) == s
  {
  }

  lemma {:induction false} SkippedIsSpace(s: string) returns (w: string)
    ensures s == w + SkipSpace(s) && Space(w)
    ensures SkipSpace(SkipSpace(s)) == SkipSpace(s)
    ensures SkipSpace(s) == "" || !IsSpace(SkipSpace(s)[0])
  {
    w := "";
    if |s| > 0 && IsSpace(s[0]) {
      w := SkippedIsSpace(s[1..]);
      w := [s[0]] + w;
    }
  }

  // ---------- Characters and strings ----------

  lemma HexPair(digits: string, rest: string)
    requires |digits| == 2
    ensures HexDecode(digits + rest) ==
      if HexValue(digits[0]).None? || HexValue(digits[1]).None? || HexDecode(rest).None? then None
      else Some([16 * HexValue(digits[0]).value + HexValue(digits[1]).value] + HexDecode(rest).value)
  {
    assert (digits + rest)[2..] == rest;
  }

  lemma UnitIsHex4(h: string, rest: string, n: int)
    requires |h| == 4
    ensures ParseHex4(h + rest) == Some((n, rest)) <==> SpellsUnit(h, n)
  {
    hide HexDecode; hide HexValue;
    assert (h + rest)[4..] == rest;
    assert forall i :: 0 <= i < 4 ==> (h + rest)[i] == h[i];
    HexFour(h);
    if HexDecode(h).Some? {
      var x, y := HexDecode(h).value[0], HexDecode(h).value[1];
      assert HexDecode(h).value == [x, y];
      assert SpellsUnit(h, n) ==> [n / 0x100, n % 0x100][0] == x && [n / 0x100, n % 0x100][1] == y;
    }
  }

  lemma HexFour(h: string)
    requires |h| == 4
    ensures var a, b, c, d := HexValue(h[0]), HexValue(h[1]), HexValue(h[2]), HexValue(h[3]);
      HexDecode(h) ==
        if a.None? || b.None? || c.None? || d.None? then None
        else Some([16 * a.value + b.value, 16 * c.value + d.value])
  {
    hide HexDecode; hide HexValue;
    HexPair(h[..2], h[2..]);
    HexPair(h[2..], "");
    HexNone();
    assert h == h[..2] + h[2..] && h[2..] == h[2..] + "";
    if HexDecode(h).Some? {
      var x, y := HexDecode(h).value[0], HexDecode(h[2..]).value[0];
      assert HexDecode(h[2..]).value == [y] && HexDecode(h).value == [x, y];
    }
  }

  lemma HexNone()
    ensures HexDecode("") == Some([])
  {
  }

  lemma ReadsChar(t: string, c: char, rest: string)
    requires SpellsChar(t, c)
    ensures |t| > 0 && t[0] != '\"' && ParseChar(t + rest) == Some((c, rest))
  {
    hide ParseHex4; hide HexDecode;
    var s := t + rest;
    assert forall i :: 0 <= i < |t| ==> s[i] == t[i];
    if |t| == 1 {
      assert s[1..] == rest;
    } else if |t| == 2 {
      assert s[1..][1..] == rest;
    } else if |t| == 6 {
      assert t[0] == t[..2][0] && t[1] == t[..2][1];
      assert s[1..][1..] == t[2..] + rest;
      UnitIsHex4(t[2..], rest, c as int);
    } else {
      assert t[0] == t[..2][0] && t[1] == t[..2][1];
      var n := c as int - 0x1_0000;
      var tail := "\\u" + (t[8..] + rest);
      assert s[1..][1..] == t[2..6] + (t[6..8] + (t[8..] + rest));
      assert tail[2..] == t[8..] + rest;
      UnitIsHex4(t[2..6], tail, 0xD800 + n / 0x400);
      UnitIsHex4(t[8..], rest, 0xDC00 + n % 0x400);
    }
  }

  lemma CharRead(s: string) returns (t: string)
    requires |s| > 0 && ParseChar(s).Some?
    ensures var (c, rest) := ParseChar(s).value;
      s == t + rest && SpellsChar(t, c)
  {
    hide SpellsUnit; hide HexValue;
    var (c, rest) := ParseChar(s).value;
    t := s[..|s| - |rest|];
    if s[0] == '\\' && s[1] == 'u' {
      var h, tail := s[2..6], s[6..];
      assert s[1..][1..] == h + tail;
      UnitIsHex4(h, tail, ParseHex4(h + tail).value.0);
      if tail != rest {
        var l := tail[2..6];
        assert tail[2..] == l + tail[6..];
        UnitIsHex4(l, tail[6..], ParseHex4(tail[2..]).value.0);
        assert t[2..6] == h && t[6..8] == tail[..2] && t[8..] == l;
      } else {
        assert t[2..] == h;
      }
    }
  }

  lemma {:induction false} ReadsChars(t: string, s: string, rest: string)
    requires SpellsChars(t, s)
    ensures ParseChars(t + ("\"" + rest)) == Some((s, rest))
    decreases |s|
  {
    hide SpellsChar; hide ParseChar;
    var all := t + ("\"" + rest);
    if |s| == 0 {
      assert all == "\"" + rest && all[1..] == rest;
    } else {
      var u, v :| t == u + v && SpellsChar(u, s[0]) && SpellsChars(v, s[1..]);
      assert all == u + (v + ("\"" + rest));
      ReadsChar(u, s[0], v + ("\"" + rest));
      ReadsChars(v, s[1..], rest);
      assert all[0] == u[0] && [s[0]] + s[1..] == s;
    }
  }

  lemma {:induction false} CharsRead(s: string) returns (t: string)
    requires ParseChars(s).Some?
    ensures s == t + ("\"" + ParseChars(s).value.1) && SpellsChars(t, ParseChars(s).value.0)
    decreases |s|
  {
    hide SpellsChar; hide ParseChar;
    t := "";
    if s[0] != '\"' {
      var u := CharRead(s);
      var (c, rest) := ParseChar(s).value;
      var v := CharsRead(rest);
      t := u + v;
      var cs := ParseChars(rest).value.0;
      assert ([c] + cs)[1..] == cs;
    } else {
      assert s == "\"" + s[1..];
    }
  }

  // ---------- Numbers ----------

  /** Nothing follows that a number could go on with. */
  predicate Ended(rest: string) {
    rest == "" || !InNumber(rest[0])
  }

  lemma NumberChars(t: string)
    requires IsNumber(t)
    ensures |t| > 0 && forall i :: 0 <= i < |t| ==> InNumber(t[i])
  {
    hide IsInteger; hide IsFraction; hide IsExponent; hide InNumber;
    var i, j :| 0 <= i <= j <= |t| && IsInteger(t[..i]) && IsFraction(t[i..j]) && IsExponent(t[j..]);
    IntegerChars(t[..i]);
    FractionChars(t[i..j]);
    ExponentChars(t[j..]);
    forall k | 0 <= k < |t| ensures InNumber(t[k]) {
      assert k < i ==> t[k] == t[..i][k];
      assert i <= k < j ==> t[k] == t[i..j][k - i];
      assert j <= k ==> t[k] == t[j..][k - j];
    }
  }

  lemma IntegerChars(s: string)
    requires IsInteger(s)
    ensures |s| > 0 && forall i :: 0 <= i < |s| ==> InNumber(s[i])
  {
    assert s[0] == '-' ==> forall i :: 0 < i < |s| ==> s[i] == s[1..][i - 1];
  }

  lemma FractionChars(s: string)
    requires IsFraction(s)
    ensures forall i :: 0 <= i < |s| ==> InNumber(s[i])
  {
    assert forall i :: 0 < i < |s| ==> s[i] == s[1..][i - 1];
  }

  lemma ExponentChars(s: string)
    requires IsExponent(s)
    ensures forall i :: 0 <= i < |s| ==> InNumber(s[i])
  {
    assert forall i :: 0 < i < |s| ==> s[i] == s[1..][i - 1];
    assert forall i :: 1 < i < |s| ==> s[i] == s[2..][i - 2];
  }

  lemma {:induction false} NumberEndsAt(t: string, rest: string)
    requires forall i :: 0 <= i < |t| ==> InNumber(t[i])
    requires Ended(rest)
    ensures NumberEnd(t + rest) == |t|
  {
    if |t| == 0 {
      assert t + rest == rest;
    } else {
      assert (t + rest)[0] == t[0] && (t + rest)[1..] == t[1..] + rest;
      NumberEndsAt(t[1..], rest);
    }
  }

  lemma ReadsNumber(t: string, j: Json, rest: string)
    requires j.Number? && Spells(t, j) && Ended(rest)
    ensures Parse(t + rest) == Some((j, rest))
  {
    var s := t + rest;
    NumberChars(t);
    NumberEndsAt(t, rest);
    assert s[0] == t[0];
    NoSpaceIn(s);
    assert s[..|t|] == t && s[|t|..] == rest;
  }

  // ---------- Every spelling is read ----------

  lemma SpellingStarts(t: string, j: Json)
    requires Spells(t, j)
    ensures |t| > 0 && !IsSpace(t[0]) && t[0] != ']'
  {
    if j.Number? {
      NumberChars(t);
    }
  }

  /** Parsing begins by skipping white space, so it may be skipped beforehand. */
  lemma ParseSkips(s: string)
    ensures Parse(SkipSpace(s)) == Parse(s)
  {
    var w := SkippedIsSpace(s);
  }

  /** What opens a string, an array or an object decides how it is read. */
  lemma ParseOpened(opening: string, body: string)
    requires opening == "\"" || opening == "[" || opening == "{"
    ensures Parse(opening + body) ==
      if opening == "\"" then
        var r := ParseChars(body);
        if r.None? then None else Some((String(r.value.0), r.value.1))
      else if opening == "[" then
        var r := ParseElements(body, true);
        if r.None? then None else Some((Array(r.value.0), r.value.1))
      else
        var r := ParseMembers(body, true);
        if r.None? then None else Some((Object(r.value.0), r.value.1))
  {
    var s := opening + body;
    assert s[0] == opening[0] && s[1..] == body && SkipSpace(s) == s;
  }

  lemma Regroup(opening: string, body: string, closing: string, rest: string)
    ensures (opening + (body + closing)) + rest == opening + (body + (closing + rest))
  {
  }

  lemma ReadsWord(t: string, j: Json, rest: string)
    requires j.Null? || j.Bool?
    requires Spells(t, j)
    ensures Parse(t + rest) == Some((j, rest))
  {
    var s := t + rest;
    assert s[0] == t[0] && SkipSpace(s) == s && s[|t|..] == rest;
  }

  /**
    Every spelling of a value is read as that value, whatever follows it, and reading stops there. Only a
    number does not show where it ends, so it must not be followed by a character of numbers.
   */
  lemma {:induction false} Reads(t: string, j: Json, rest: string)
    requires Spells(t, j)
    requires j.Number? ==> Ended(rest)
    ensures Parse(t + rest) == Some((j, rest))
    decreases j, 1
  {
    match j {
      case Null => ReadsWord(t, j, rest);
      case Bool(_) => ReadsWord(t, j, rest);
      case Number(_) => ReadsNumber(t, j, rest);
      case String(s) =>
        var b :| t == "\"" + (b + "\"") && SpellsChars(b, s);
        Regroup("\"", b, "\"", rest);
        ReadsChars(b, s, rest);
        ParseOpened("\"", b + ("\"" + rest));
      case Array(es) =>
        var b :| t == "[" + (b + "]") && SpellsElements(b, es);
        Regroup("[", b, "]", rest);
        ReadsElements(b, es, rest, true);
        ParseOpened("[", b + ("]" + rest));
      case Object(ms) =>
        var b :| t == "{" + (b + "}") && SpellsMembers(b, ms);
        Regroup("{", b, "}", rest);
        ReadsMembers(b, ms, rest, true);
        ParseOpened("{", b + ("}" + rest));
    }
  }

  lemma SpaceEnds(w: string, rest: string)
    requires Space(w) && Ended(rest)
    ensures Ended(w + rest)
  {
    assert w == "" ==> w + rest == rest;
  }

  /** The space around a value is skipped on either side of it. */
  lemma {:induction false} ReadsSpaced(t: string, j: Json, rest: string) returns (w: string)
    requires Spaced(t, j) && Ended(rest)
    ensures SkipSpace(t + rest) != "" && SkipSpace(t + rest)[0] != ']'
    ensures Parse(SkipSpace(t + rest)) == Some((j, w + rest)) && Parse(t + rest) == Some((j, w + rest))
    ensures SkipSpace(w + rest) == SkipSpace(rest)
    decreases j, 2
  {
    hide Spells; hide Parse; hide SkipSpace; hide Space;
    var w0, v, w' :| t == w0 + (v + w') && Space(w0) && Spells(v, j) && Space(w');
    w := w';
    var s := v + (w + rest);
    assert t + rest == w0 + s;
    SpellingStarts(v, j);
    assert s[0] == v[0];
    NoSpaceIn(s);
    SkipsSpace(w0, s);
    ParseSkips(t + rest);
    SpaceEnds(w, rest);
    Reads(v, j, w + rest);
    SkipsSpace(w, rest);
  }

  /** An array that may close at once either does, or goes on like one that may not. */
  lemma ElementsOpen(text: string, mayClose: bool)
    ensures var s := SkipSpace(text);
      ParseElements(text, mayClose) ==
        if mayClose && s != "" && s[0] == ']' then Some(([], s[1..])) else ParseElements(text, false)
  {
    hide Parse; hide SkipSpace;
  }

  /** Reading one element, given what its value is read as. */
  lemma ElementStep(text: string, e: Json, afterValue: string, tail: string, mayClose: bool)
    requires SkipSpace(text) != "" && SkipSpace(text)[0] != ']'
    requires Parse(SkipSpace(text)) == Some((e, afterValue)) && SkipSpace(afterValue) == tail
    requires tail != "" && (tail[0] == ',' || tail[0] == ']')
    ensures ParseElements(text, mayClose) ==
      if tail[0] == ']' then Some(([e], tail[1..]))
      else
        var r := ParseElements(tail[1..], false);
        if r.None? then None else Some(([e] + r.value.0, r.value.1))
  {
    hide Parse; hide SkipSpace;
  }

  /** An element is read up to what follows the space after it. */
  lemma {:induction false} ReadsElement(t: string, e: Json, rest: string, mayClose: bool)
    requires Spaced(t, e) && Ended(rest)
    requires SkipSpace(rest) == rest && rest != "" && (rest[0] == ',' || rest[0] == ']')
    ensures ParseElements(t + rest, mayClose) ==
      if rest[0] == ']' then Some(([e], rest[1..]))
      else
        var r := ParseElements(rest[1..], false);
        if r.None? then None else Some(([e] + r.value.0, r.value.1))
    decreases e, 3
  {
    hide Parse; hide Spaced; hide SkipSpace; hide ParseElements; hide Ended;
    var w := ReadsSpaced(t, e, rest);
    ElementStep(t + rest, e, w + rest, rest, mayClose);
  }

  lemma {:induction false} ReadsElements(t: string, es: seq<Json>, rest: string, mayClose: bool)
    requires SpellsElements(t, es) && (|es| > 0 || mayClose)
    ensures ParseElements(t + ("]" + rest), mayClose) == Some((es, rest))
    decreases es, 3
  {
    hide Parse; hide Spaced; hide SkipSpace; hide ParseElements;
    var closing := "]" + rest;
    NoSpaceIn(closing);
    assert closing[0] == ']' && closing[1..] == rest;
    if |es| == 0 {
      SkipsSpace(t, closing);
      ElementsOpen(t + closing, mayClose);
    } else if |es| == 1 {
      ReadsElement(t, es[0], closing, mayClose);
      assert [es[0]] == es;
    } else {
      var u, v :| t == u + ("," + v) && Spaced(u, es[0]) && SpellsElements(v, es[1..]);
      var more := "," + (v + closing);
      assert t + closing == u + more;
      NoSpaceIn(more);
      assert more[0] == ',' && more[1..] == v + closing;
      ReadsElements(v, es[1..], rest, false);
      ReadsElement(u, es[0], more, mayClose);
      assert [es[0]] + es[1..] == es;
    }
  }

  lemma MembersOpen(text: string, mayClose: bool)
    ensures var s := SkipSpace(text);
      ParseMembers(text, mayClose) ==
        if mayClose && s != "" && s[0] == '}' then Some(([], s[1..])) else ParseMembers(text, false)
  {
    hide Parse; hide ParseChars; hide SkipSpace;
  }

  /** Reading one member, given what its key and its value are read as. */
  lemma MemberStep(
    text: string, body: string, m: Member, afterKey: string, colon: string, afterValue: string, tail: string,
    mayClose: bool)
    requires SkipSpace(text) == "\"" + body && ParseChars(body) == Some((m.key, afterKey))
    requires SkipSpace(afterKey) == ":" + colon && Parse(colon) == Some((m.value, afterValue))
    requires SkipSpace(afterValue) == tail && tail != "" && (tail[0] == ',' || tail[0] == '}')
    ensures ParseMembers(text, mayClose) ==
      if tail[0] == '}' then Some(([m], tail[1..]))
      else
        var r := ParseMembers(tail[1..], false);
        if r.None? then None else Some(([m] + r.value.0, r.value.1))
  {
    hide Parse; hide ParseChars; hide SkipSpace;
    var s := "\"" + body;
    assert s[0] == '\"' && s[1..] == body && (":" + colon)[1..] == colon;
  }

  /** A member is read up to what follows its value. */
  lemma {:induction false} ReadsMember(t: string, m: Member, rest: string, tail: string, mayClose: bool)
    requires SpellsMember(t, m) && Ended(rest)
    requires SkipSpace(rest) == tail && tail != "" && (tail[0] == ',' || tail[0] == '}')
    ensures ParseMembers(t + rest, mayClose) ==
      if tail[0] == '}' then Some(([m], tail[1..]))
      else
        var r := ParseMembers(tail[1..], false);
        if r.None? then None else Some(([m] + r.value.0, r.value.1))
    decreases m, 3
  {
    hide Parse; hide ParseChars; hide ParseMembers; hide Spaced; hide SpellsChars;
    var w0, k, w', v :|
      t == w0 + (k + (w' + (":" + v))) && Space(w0) && SpellsString(k, m.key) && Space(w') && Spaced(v, m.value);
    var b :| k == "\"" + (b + "\"") && SpellsChars(b, m.key);
    var colon := v + rest;
    var afterKey := w' + (":" + colon);
    var body := b + ("\"" + afterKey);
    MemberRegroup(w0, b, w', v, rest);
    SkipsSpace(w0, "\"" + body);
    ReadsChars(b, m.key, afterKey);
    SkipsSpace(w', ":" + colon);
    var w := ReadsSpaced(v, m.value, rest);
    MemberStep(t + rest, body, m, afterKey, colon, w + rest, tail, mayClose);
  }

  lemma MemberRegroup(w: string, b: string, w': string, v: string, rest: string)
    ensures (w + (("\"" + (b + "\"")) + (w' + (":" + v)))) + rest
         == w + ("\"" + (b + ("\"" + (w' + (":" + (v + rest))))))
  {
    Regroup("\"", b, "\"", w' + (":" + (v + rest)));
    assert (w' + (":" + v)) + rest == w' + (":" + (v + rest));
  }

  lemma {:induction false} ReadsMembers(t: string, ms: seq<Member>, rest: string, mayClose: bool)
    requires SpellsMembers(t, ms) && (|ms| > 0 || mayClose)
    ensures ParseMembers(t + ("}" + rest), mayClose) == Some((ms, rest))
    decreases ms, 3
  {
    hide Parse; hide ParseChars; hide SpellsMember; hide SkipSpace; hide ParseMembers;
    var closing := "}" + rest;
    NoSpaceIn(closing);
    assert closing[0] == '}' && closing[1..] == rest;
    if |ms| == 0 {
      SkipsSpace(t, closing);
      MembersOpen(t + closing, mayClose);
    } else if |ms| == 1 {
      ReadsMember(t, ms[0], closing, closing, mayClose);
      assert [ms[0]] == ms;
    } else {
      var u, v :| t == u + ("," + v) && SpellsMember(u, ms[0]) && SpellsMembers(v, ms[1..]);
      var more := "," + (v + closing);
      assert t + closing == u + more;
      NoSpaceIn(more);
      assert more[0] == ',' && more[1..] == v + closing;
      ReadsMembers(v, ms[1..], rest, false);
      ReadsMember(u, ms[0], more, more, mayClose);
      assert [ms[0]] + ms[1..] == ms;
    }
  }

  // ---------- Only spellings are read ----------

  /** A text that is read without white space in front is a word or a number, or opens one of the three others. */
  lemma WordSpelled(s: string) returns (t: string)
    requires SkipSpace(s) == s && Parse(s).Some?
    requires s[0] != '\"' && s[0] != '[' && s[0] != '{'
    ensures s == t + Parse(s).value.1 && Spells(t, Parse(s).value.0)
  {
    t := if s[0] == 'n' then "null" else if s[0] == 't' then "true" else if s[0] == 'f' then "false"
         else s[..NumberEnd(s)];
    assert s == t + s[|t|..];
  }

  lemma NotEmpty(s: string)
    requires SkipSpace(s) == s && Parse(s).Some?
    ensures s != ""
  {
  }

  /** What was read stood there: white space, a spelling of the value, and the rest. */
  lemma {:induction false} WasSpelled(text: string) returns (w: string, t: string)
    requires Parse(text).Some?
    ensures text == w + (t + Parse(text).value.1) && Space(w) && Spells(t, Parse(text).value.0)
    decreases |text|, 1
  {
    hide Parse; hide ParseChars; hide ParseElements; hide ParseMembers; hide Space; hide SkipSpace;
    hide SpellsChars; hide SpellsElements; hide SpellsMembers;
    w := SkippedIsSpace(text);
    var s := SkipSpace(text);
    ParseSkips(text);
    NotEmpty(s);
    var body, rest := s[1..], Parse(text).value.1;
    if s[0] == '\"' {
      assert s == "\"" + body;
      ParseOpened("\"", body);
      var b := CharsRead(body);
      t := "\"" + (b + "\"");
      Regroup("\"", b, "\"", rest);
    } else if s[0] == '[' {
      assert s == "[" + body;
      ParseOpened("[", body);
      var b := ElementsSpelled(body, true);
      t := "[" + (b + "]");
      Regroup("[", b, "]", rest);
    } else if s[0] == '{' {
      assert s == "{" + body;
      ParseOpened("{", body);
      var b := MembersSpelled(body, true);
      t := "{" + (b + "}");
      Regroup("{", b, "}", rest);
    } else {
      t := WordSpelled(s);
    }
  }

  /** The text of the element that was read first, through the space after it. */
  lemma {:induction false} ElementSpelled(text: string) returns (u: string, e: Json, tail: string)
    requires ParseElements(text, false).Some?
    ensures text == u + tail && tail != "" && Spaced(u, e) && |tail| < |text|
    ensures ParseElements(text, false) ==
      if tail[0] == ']' then Some(([e], tail[1..]))
      else if tail[0] != ',' then None
      else
        var r := ParseElements(tail[1..], false);
        if r.None? then None else Some(([e] + r.value.0, r.value.1))
    decreases |text|, 2
  {
    hide Parse; hide Spells; hide Space; hide Spaced; hide SkipSpace;
    var w0 := SkippedIsSpace(text);
    var s := SkipSpace(text);
    var w, t := WasSpelled(s);
    var (value, afterValue) := Parse(s).value;
    var w' := SkippedIsSpace(afterValue);
    e, tail := value, SkipSpace(afterValue);
    u := Surround(w0, w, t, w', e);
  }

  lemma {:induction false} ElementsSpelled(text: string, mayClose: bool) returns (b: string)
    requires ParseElements(text, mayClose).Some?
    ensures var (es, rest) := ParseElements(text, mayClose).value;
      text == b + ("]" + rest) && SpellsElements(b, es) && (|es| > 0 || mayClose)
    decreases |text|, 3
  {
    hide ParseElements; hide Spaced; hide SpellsElements; hide SkipSpace; hide Space;
    var s := SkipSpace(text);
    ElementsOpen(text, mayClose);
    if mayClose && s != "" && s[0] == ']' {
      b := SkippedIsSpace(text);
      NoElements(b);
      assert s == "]" + s[1..];
    } else {
      var u, e, tail := ElementSpelled(text);
      assert tail == [tail[0]] + tail[1..];
      if tail[0] == ']' {
        b := u;
        MoreElements(u, "", e, []);
      } else {
        var v := ElementsSpelled(tail[1..], false);
        var (more, rest) := ParseElements(tail[1..], false).value;
        b := u + ("," + v);
        MoreElements(u, v, e, more);
        assert tail == "," + (v + ("]" + rest));
      }
    }
  }

  lemma MoreElements(u: string, v: string, e: Json, es: seq<Json>)
    requires Spaced(u, e)
    ensures SpellsElements(u, [e])
    ensures SpellsElements(v, es) && |es| > 0 ==> SpellsElements(u + ("," + v), [e] + es)
  {
    assert ([e] + es)[1..] == es && ([e] + es)[0] == e;
  }

  lemma NoElements(w: string)
    requires Space(w)
    ensures SpellsElements(w, []) && SpellsMembers(w, [])
  {
  }

  lemma Surround(w0: string, w: string, t: string, w': string, e: Json) returns (u: string)
    requires Space(w0) && Space(w) && Space(w') && Spells(t, e)
    ensures u == w0 + (w + (t + w')) && Spaced(u, e)
  {
    u := (w0 + w) + (t + w');
  }

  /** A member's text, put together from its parts. */
  lemma MemberTogether(
    w0: string, c: string, w1: string, w: string, t: string, w': string, m: Member, tail: string)
    returns (u: string)
    requires Space(w0) && Space(w1) && Space(w) && Space(w')
    requires SpellsChars(c, m.key) && Spells(t, m.value)
    ensures SpellsMember(u, m)
    ensures u + tail == w0 + ("\"" + (c + ("\"" + (w1 + (":" + ((w + (t + w')) + tail))))))
  {
    hide Spells; hide SpellsChars; hide Spaced; hide Space;
    NoSpace();
    var v := Surround("", w, t, w', m.value);
    var k := "\"" + (c + "\"");
    u := w0 + (k + (w1 + (":" + v)));
    assert SpellsString(k, m.key);
    assert v == w + (t + w');
    MemberRegroup(w0, c, w1, v, tail);
  }

  /** The text of the member that was read first, through the space after its value. */
  lemma {:induction false} MemberSpelled(text: string) returns (u: string, m: Member, tail: string)
    requires ParseMembers(text, false).Some?
    ensures text == u + tail && tail != "" && SpellsMember(u, m) && |tail| < |text|
    ensures ParseMembers(text, false) ==
      if tail[0] == '}' then Some(([m], tail[1..]))
      else if tail[0] != ',' then None
      else
        var r := ParseMembers(tail[1..], false);
        if r.None? then None else Some(([m] + r.value.0, r.value.1))
    decreases |text|, 2
  {
    hide Parse; hide ParseChars; hide Spells; hide SpellsChars; hide SkipSpace; hide Space; hide SpellsMember;
    var w0 := SkippedIsSpace(text);
    var s := SkipSpace(text);
    var c := CharsRead(s[1..]);
    var (key, afterKey) := ParseChars(s[1..]).value;
    var w1 := SkippedIsSpace(afterKey);
    var afterSpace := SkipSpace(afterKey);
    var w, t := WasSpelled(afterSpace[1..]);
    var (value, afterValue) := Parse(afterSpace[1..]).value;
    var w' := SkippedIsSpace(afterValue);
    m, tail := Member(key, value), SkipSpace(afterValue);
    u := MemberTogether(w0, c, w1, w, t, w', m, tail);
    assert s == "\"" + s[1..] && afterSpace == ":" + afterSpace[1..];
    assert afterSpace[1..] == (w + (t + w')) + tail;
  }

  lemma NoSpace()
    ensures Space("")
  {
  }

  lemma {:induction false} MembersSpelled(text: string, mayClose: bool) returns (b: string)
    requires ParseMembers(text, mayClose).Some?
    ensures var (ms, rest) := ParseMembers(text, mayClose).value;
      text == b + ("}" + rest) && SpellsMembers(b, ms) && (|ms| > 0 || mayClose)
    decreases |text|, 3
  {
    hide ParseMembers; hide Parse; hide ParseChars; hide SpellsMember; hide SpellsMembers; hide SkipSpace; hide Space;
    var s := SkipSpace(text);
    MembersOpen(text, mayClose);
    if mayClose && s != "" && s[0] == '}' {
      b := SkippedIsSpace(text);
      NoElements(b);
      assert s == "}" + s[1..];
    } else {
      var u, m, tail := MemberSpelled(text);
      assert tail == [tail[0]] + tail[1..];
      if tail[0] == '}' {
        b := u;
        MoreMembers(u, "", m, []);
      } else {
        var v := MembersSpelled(tail[1..], false);
        var (more, rest) := ParseMembers(tail[1..], false).value;
        b := u + ("," + v);
        MoreMembers(u, v, m, more);
        assert tail == "," + (v + ("}" + rest));
      }
    }
  }

  lemma MoreMembers(u: string, v: string, m: Member, ms: seq<Member>)
    requires SpellsMember(u, m)
    ensures SpellsMembers(u, [m])
    ensures SpellsMembers(v, ms) && |ms| > 0 ==> SpellsMembers(u + ("," + v), [m] + ms)
  {
    assert ([m] + ms)[1..] == ms && ([m] + ms)[0] == m;
  }

  /** A document is read as a value exactly if it is a spelling of it with white space around. */
  lemma DocumentExact(text: string, j: Json)
    ensures ParseDocument(text) == Some(j) <==> Spaced(text, j)
  {
    if Spaced(text, j) {
      var w := ReadsSpaced(text, j, "");
      assert text + "" == text;
    }
    if ParseDocument(text) == Some(j) {
      var w, t := WasSpelled(text);
      var w' := SkippedIsSpace(Parse(text).value.1);
      assert w' + "" == w';
    }
  }

  // ---------- Printed text is a spelling ----------

  lemma ControlSpells(n: nat)
    requires n < 0x20
    ensures SpellsUnit("00" + [HexDigit(n / 16), HexDigit(n % 16)], n)
  {
    var digits := [HexDigit(n / 16), HexDigit(n % 16)];
    HexDigitCases(n / 16, digits[0]);
    HexDigitCases(n % 16, digits[1]);
    HexPair("00", digits);
    HexPair(digits, "");
    assert digits + "" == digits && HexDecode("") == Some([]);
    assert 16 * (n / 16) + n % 16 == n;
    assert HexDecode(digits).value == [n];
    assert HexValue("00"[0]) == Some(0) && HexValue("00"[1]) == Some(0);
    assert HexDecode("00" + digits).value == [0, n];
  }

  lemma EscapeSpells(c: char)
    ensures SpellsChar(EscapeChar(c), c)
  {
    var e, n := EscapeChar(c), c as int;
    if |e| == 6 {
      var digits := [HexDigit(n / 16), HexDigit(n % 16)];
      assert e == "\\u00" + digits;
      ControlSpells(n);
      assert e[..2] == "\\u" && e[2..] == "00" + digits;
    }
  }

  /**
    Which spelling is written: a shortest one, with hex digits in lower case, which leaves one choice.
   */
  lemma EscapeIsTheShortest(c: char, t: string)
    requires SpellsChar(t, c)
    ensures |EscapeChar(c)| <= |t|
    ensures |EscapeChar(c)| == |t| && (|t| > 1 ==> LowerCase(t)) ==> t == EscapeChar(c)
  {
    if |t| == 2 {
      assert t == [t[0], t[1]];
    }
    if |t| == 6 && |EscapeChar(c)| == 6 && LowerCase(t) {
      UnitWritten(c, t);
    }
  }

  lemma UnitWritten(c: char, t: string)
    requires SpellsChar(t, c) && |t| == 6 && |EscapeChar(c)| == 6 && LowerCase(t)
    ensures t == EscapeChar(c)
  {
    hide HexDecode;
    var n, e := c as int, EscapeChar(c);
    var digits := [HexDigit(n / 16), HexDigit(n % 16)];
    ControlSpells(n);
    assert e[..2] == "\\u" && e[2..] == "00" + digits;
    SpelledAlike(n, t[2..], e[2..]);
    assert t == t[..2] + t[2..] && e == e[..2] + e[2..];
  }

  lemma SpelledAlike(n: nat, h: string, l: string)
    requires SpellsUnit(h, n) && SpellsUnit(l, n) && LowerCase(h) && LowerCase(l)
    ensures h == l
  {
    hide HexDecode; hide HexEncode;
    HexSpellings([n / 0x100, n % 0x100], h);
    HexSpellings([n / 0x100, n % 0x100], l);
    forall i | 0 <= i < 4 ensures h[i] == l[i] {
      assert AsciiLower(h[i]) == AsciiLower(l[i]);
    }
  }

  predicate LowerCase(t: string) {
    forall i :: 0 <= i < |t| ==> !('A' <= t[i] <= 'Z')
  }

  lemma {:induction false} EscapeSpellsAll(s: string)
    ensures SpellsChars(Escape(s), s)
    decreases |s|
  {
    if |s| > 0 {
      EscapeSpells(s[0]);
      EscapeSpellsAll(s[1..]);
    }
  }

  lemma StringPrinted(s: string)
    ensures SpellsString(PrintString(s), s)
  {
    EscapeSpellsAll(s);
  }

  lemma {:induction false} PrintSpells(j: Json)
    ensures Spells(Print(j), j)
    decreases j, 1
  {
    match j
    case String(s) => StringPrinted(s);
    case Array(es) => ElementsPrinted(es);
    case Object(ms) => MembersPrinted(ms);
    case _ =>
  }

  lemma {:induction false} PrintSpaced(j: Json)
    ensures Spaced(Print(j), j)
    decreases j, 2
  {
    PrintSpells(j);
    assert Print(j) == "" + (Print(j) + "") && Space("");
  }

  lemma {:induction false} ElementsPrinted(es: seq<Json>)
    ensures SpellsElements(PrintElements(es), es)
    decreases es, 3
  {
    if |es| > 0 {
      PrintSpaced(es[0]);
    }
    if |es| > 1 {
      ElementsPrinted(es[1..]);
    }
  }

  lemma {:induction false} MemberPrinted(m: Member)
    ensures SpellsMember(PrintMember(m), m)
    decreases m, 3
  {
    hide PrintString; hide SpellsString; hide Print; hide Spaced;
    StringPrinted(m.key);
    PrintSpaced(m.value);
    assert PrintMember(m) == "" + (PrintString(m.key) + ("" + (":" + Print(m.value)))) && Space("");
  }

  lemma {:induction false} MembersPrinted(ms: seq<Member>)
    ensures SpellsMembers(PrintMembers(ms), ms)
    decreases ms, 3
  {
    if |ms| > 0 {
      MemberPrinted(ms[0]);
    }
    if |ms| > 1 {
      MembersPrinted(ms[1..]);
    }
  }

  /** For every value, whatever text follows it, the parser reads back the value and stops there. */
  lemma PrintParse(j: Json, rest: string)
    requires j.Number? ==> Ended(rest)
    ensures Parse(Print(j) + rest) == Some((j, rest))
  {
    PrintSpells(j);
    Reads(Print(j), j, rest);
  }

  /** A printed document parses, whole, to the value that was printed. */
  lemma DocumentRoundTrip(j: Json)
    ensures ParseDocument(Print(j)) == Some(j)
  {
    PrintSpaced(j);
    DocumentExact(Print(j), j);
  }
}
