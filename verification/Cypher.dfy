/** String literals of the Cypher export, and a reader for them following openCypher 9's `EscapedChar`. */
module Cypher {
  import opened Sequences
  import opened GraphModels

  const BACKSLASH: char := '\\'
  const QUOTE: char := '\"'

  /** `s.replace(needle, to)`: a left-to-right scan over non-overlapping matches. */
  function Replace(s: string, needle: string, to: string): string
    requires |needle| > 0
  {
    if |s| == 0 then ""
    else if needle <= s then to + Replace(s[|needle|..], needle, to)
    else [s[0]] + Replace(s[1..], needle, to)
  }

  function HexDigit(d: nat): char
    requires d < 16
  {
    if d < 10 then ('0' as int + d) as char else ('a' as int + d - 10) as char
  }

  /** `f"{n:04x}"` below 65536. */
  function Hex4(n: nat): string
    requires n < 0x10000
  {
    [HexDigit(n / 4096), HexDigit(n / 256 % 16), HexDigit(n / 16 % 16), HexDigit(n % 16)]
  }

  function HideControl(c: char): string {
    if c as int >= 0x20 then [c] else [BACKSLASH, 'u'] + Hex4(c as int)
  }

  /** The text with every character replaced by its image. */
  function Expand(s: string, image: char -> string): string {
    if |s| == 0 then "" else image(s[0]) + Expand(s[1..], image)
  }

  /** The six rewriting passes, in the order the exporter applies them. */
  function Escaped(s: string): string {
    var slashes := Replace(s, [BACKSLASH], [BACKSLASH, BACKSLASH]);
    var quotes := Replace(slashes, [QUOTE], [BACKSLASH, QUOTE]);
    var newlines := Replace(quotes, ['\n'], [BACKSLASH, 'n']);
    var carriages := Replace(newlines, ['\r'], [BACKSLASH, 'r']);
    var tabs := Replace(carriages, ['\t'], [BACKSLASH, 't']);
    Expand(tabs, HideControl)
  }

  function Literal(s: string): string {
    [QUOTE] + Escaped(s) + [QUOTE]
  }

  /** `repr` of a number and `str` of a list or dict come from Python, as parameters. */
  function CypherValue(v: Value, repr: Value -> string, text: Value -> string): string {
    match v
    case Null => "null"
    case Bool(b) => if b then "true" else "false"
    case Int(_) => repr(v)
    case Float(_) => repr(v)
    case Str(s) => Literal(s)
    case _ => Literal(text(v))
  }

  /** Null and booleans are written as words, numbers as Python shows them, and everything else as a quoted literal. */
  lemma ScalarsWritten(v: Value, repr: Value -> string, text: Value -> string)
    ensures v == Null ==> CypherValue(v, repr, text) == "null"
    ensures v == Bool(true) ==> CypherValue(v, repr, text) == "true"
    ensures v == Bool(false) ==> CypherValue(v, repr, text) == "false"
    ensures NumberOf(v).Some? && !v.Bool? ==> CypherValue(v, repr, text) == repr(v)
    ensures forall s :: v == Str(s) ==> CypherValue(v, repr, text) == Literal(s)
    ensures v.List? || v.Dict? ==> CypherValue(v, repr, text) == Literal(text(v))
  {
    hide Literal;
  }

  /** The one-pass specification: what each character turns into. */
  function EscapeChar(c: char): string {
    if c == BACKSLASH then [BACKSLASH, BACKSLASH]
    else if c == QUOTE then [BACKSLASH, QUOTE]
    else if c == '\n' then [BACKSLASH, 'n']
    else if c == '\r' then [BACKSLASH, 'r']
    else if c == '\t' then [BACKSLASH, 't']
    else HideControl(c)
  }

  function Sub(from: char, to: string): char -> string {
    c => if c == from then to else [c]
  }

  lemma {:induction false} ReplaceIsExpand(s: string, from: char, to: string)
    ensures Replace(s, [from], to) == Expand(s, Sub(from, to))
  {
    if |s| > 0 {
      ReplaceIsExpand(s[1..], from, to);
      assert [from] <= s <==> s[0] == from;
    }
  }

  lemma {:induction false} ExpandAppend(s: string, t: string, image: char -> string)
    ensures Expand(s + t, image) == Expand(s, image) + Expand(t, image)
  {
    if |s| == 0 {
      assert s + t == t;
    } else {
      assert (s + t)[1..] == s[1..] + t;
      ExpandAppend(s[1..], t, image);
    }
  }

  lemma ReplaceAppend(s: string, t: string, from: char, to: string)
    ensures Replace(s + t, [from], to) == Replace(s, [from], to) + Replace(t, [from], to)
  {
    ReplaceIsExpand(s + t, from, to);
    ReplaceIsExpand(s, from, to);
    ReplaceIsExpand(t, from, to);
    ExpandAppend(s, t, Sub(from, to));
  }

  lemma EscapedAppend(s: string, t: string)
    ensures Escaped(s + t) == Escaped(s) + Escaped(t)
  {
    hide Replace, Expand;
    var a := [BACKSLASH, BACKSLASH];
    ReplaceAppend(s, t, BACKSLASH, a);
    var s1, t1 := Replace(s, [BACKSLASH], a), Replace(t, [BACKSLASH], a);
    ReplaceAppend(s1, t1, QUOTE, [BACKSLASH, QUOTE]);
    var s2, t2 := Replace(s1, [QUOTE], [BACKSLASH, QUOTE]), Replace(t1, [QUOTE], [BACKSLASH, QUOTE]);
    ReplaceAppend(s2, t2, '\n', [BACKSLASH, 'n']);
    var s3, t3 := Replace(s2, ['\n'], [BACKSLASH, 'n']), Replace(t2, ['\n'], [BACKSLASH, 'n']);
    ReplaceAppend(s3, t3, '\r', [BACKSLASH, 'r']);
    var s4, t4 := Replace(s3, ['\r'], [BACKSLASH, 'r']), Replace(t3, ['\r'], [BACKSLASH, 'r']);
    ReplaceAppend(s4, t4, '\t', [BACKSLASH, 't']);
    ExpandAppend(Replace(s4, ['\t'], [BACKSLASH, 't']), Replace(t4, ['\t'], [BACKSLASH, 't']), HideControl);
  }

  /** What a pass does to a text of one or two characters. */
  lemma ExpandShort(s: string, image: char -> string)
    requires 1 <= |s| <= 2
    ensures Expand(s, image) == if |s| == 1 then image(s[0]) else image(s[0]) + image(s[1])
  {
    assert s[1..] == if |s| == 1 then "" else [s[1]];
    assert |s| == 2 ==> s[1..][1..] == "";
  }

  lemma ReplaceShort(s: string, from: char, to: string)
    requires 1 <= |s| <= 2
    ensures s == [from] ==> Replace(s, [from], to) == to
    ensures from !in s ==> Replace(s, [from], to) == s
  {
    ReplaceIsExpand(s, from, to);
    ExpandShort(s, Sub(from, to));
  }

  lemma EscapedOne(c: char)
    ensures Escaped([c]) == EscapeChar(c)
  {
    hide Replace, Expand;
    var s := [c];
    ReplaceShort(s, BACKSLASH, [BACKSLASH, BACKSLASH]);
    var s1 := Replace(s, [BACKSLASH], [BACKSLASH, BACKSLASH]);
    ReplaceShort(s1, QUOTE, [BACKSLASH, QUOTE]);
    var s2 := Replace(s1, [QUOTE], [BACKSLASH, QUOTE]);
    ReplaceShort(s2, '\n', [BACKSLASH, 'n']);
    var s3 := Replace(s2, ['\n'], [BACKSLASH, 'n']);
    ReplaceShort(s3, '\r', [BACKSLASH, 'r']);
    var s4 := Replace(s3, ['\r'], [BACKSLASH, 'r']);
    ReplaceShort(s4, '\t', [BACKSLASH, 't']);
    ExpandShort(Replace(s4, ['\t'], [BACKSLASH, 't']), HideControl);
  }

  /** No pass rewrites what an earlier one produced: the six passes are one per-character map. */
  lemma {:induction false} PassesAreOneMap(s: string)
    ensures Escaped(s) == Expand(s, EscapeChar)
  {
    if |s| == 0 {
    } else {
      assert s == [s[0]] + s[1..];
      EscapedAppend([s[0]], s[1..]);
      EscapedOne(s[0]);
      PassesAreOneMap(s[1..]);
    }
  }

  function HexValue(c: char): Option<nat> {
    if '0' <= c <= '9' then Some(c as int - '0' as int)
    else if 'a' <= c <= 'f' then Some(c as int - 'a' as int + 10)
    else if 'A' <= c <= 'F' then Some(c as int - 'A' as int + 10)
    else None
  }

  function ReadHex(s: string): Option<nat> {
    if |s| == 0 then Some(0)
    else
      var front, last := ReadHex(s[..|s| - 1]), HexValue(s[|s| - 1]);
      if front.Some? && last.Some? then Some(16 * front.value + last.value) else None
  }

  datatype Unescaped = Unescaped(c: char, width: nat)

  /** Code points outside Unicode's scalar values have no character. */
  function CharOf(code: Option<nat>, width: nat): Option<Unescaped> {
    if code.Some? && (code.value < 0xD800 || 0xE000 <= code.value < 0x11_0000)
    then Some(Unescaped(code.value as char, width))
    else None
  }

  /** openCypher 9, `EscapedChar`; `u` introduces four hexadecimal digits and `U` eight. */
  function ReadEscape(s: string): Option<Unescaped>
    requires |s| > 0
  {
    if |s| < 2 then None
    else
      match s[1]
      case '\\' => Some(Unescaped(BACKSLASH, 2))
      case '\'' => Some(Unescaped('\'', 2))
      case '\"' => Some(Unescaped(QUOTE, 2))
      case 'b' => Some(Unescaped(8 as char, 2))
      case 'B' => Some(Unescaped(8 as char, 2))
      case 'f' => Some(Unescaped(12 as char, 2))
      case 'F' => Some(Unescaped(12 as char, 2))
      case 'n' => Some(Unescaped('\n', 2))
      case 'N' => Some(Unescaped('\n', 2))
      case 'r' => Some(Unescaped('\r', 2))
      case 'R' => Some(Unescaped('\r', 2))
      case 't' => Some(Unescaped('\t', 2))
      case 'T' => Some(Unescaped('\t', 2))
      case 'u' => if |s| < 6 then None else CharOf(ReadHex(s[2..6]), 6)
      case 'U' => if |s| < 10 then None else CharOf(ReadHex(s[2..10]), 10)
      case _ => None
  }

  datatype Parsed = Parsed(text: string, rest: string)

  function Prepend(c: char, p: Option<Parsed>): Option<Parsed> {
    if p.Some? then Some(Parsed([c] + p.value.text, p.value.rest)) else None
  }

  /** Reads up to the first unescaped quote. */
  function ReadBody(s: string): Option<Parsed>
    decreases |s|
  {
    if |s| == 0 then None
    else if s[0] == QUOTE then Some(Parsed("", s[1..]))
    else if s[0] == BACKSLASH then
      var e := ReadEscape(s);
      if e.Some? && 0 < e.value.width <= |s| then Prepend(e.value.c, ReadBody(s[e.value.width..])) else None
    else Prepend(s[0], ReadBody(s[1..]))
  }

  function ReadLiteral(s: string): Option<Parsed> {
    if |s| > 0 && s[0] == QUOTE then ReadBody(s[1..]) else None
  }

  lemma ReadHexStep(front: string, d: nat)
    requires d < 16 && ReadHex(front).Some?
    ensures ReadHex(front + [HexDigit(d)]) == Some(16 * ReadHex(front).value + d)
    ensures HexDigit(d) as int >= 0x20 && HexDigit(d) != QUOTE
  {
    HexDigits(d);
    assert (front + [HexDigit(d)])[..|front|] == front;
  }

  lemma FourDigits(a: nat, b: nat, c: nat, d: nat)
    requires a < 16 && b < 16 && c < 16 && d < 16
    ensures ReadHex([HexDigit(a), HexDigit(b), HexDigit(c), HexDigit(d)]) == Some(16 * (16 * (16 * a + b) + c) + d)
    ensures forall x :: x in [HexDigit(a), HexDigit(b), HexDigit(c), HexDigit(d)] ==> x as int >= 0x20 && x != QUOTE
  {
    var empty: string := [];
    assert ReadHex(empty) == Some(0);
    hide ReadHex, HexDigit;
    ReadHexStep(empty, a);
    ReadHexStep(empty + [HexDigit(a)], b);
    ReadHexStep(empty + [HexDigit(a)] + [HexDigit(b)], c);
    ReadHexStep(empty + [HexDigit(a)] + [HexDigit(b)] + [HexDigit(c)], d);
    assert empty + [HexDigit(a)] + [HexDigit(b)] + [HexDigit(c)] + [HexDigit(d)]
        == [HexDigit(a), HexDigit(b), HexDigit(c), HexDigit(d)];
  }

  lemma HexPlaces(n: nat)
    requires n < 0x10000
    ensures 16 * (16 * (16 * (n / 4096) + n / 256 % 16) + n / 16 % 16) + n % 16 == n
  {
    var high, middle := n / 256, n / 16;
    assert high / 16 == n / 4096 && middle / 16 == high;
    assert high == 16 * (high / 16) + high % 16;
    assert middle == 16 * (middle / 16) + middle % 16;
  }

  lemma HexRoundTrip(n: nat)
    requires n < 0x10000
    ensures ReadHex(Hex4(n)) == Some(n)
    ensures forall c :: c in Hex4(n) ==> c as int >= 0x20 && c != QUOTE
  {
    hide ReadHex, HexDigit;
    FourDigits(n / 4096, n / 256 % 16, n / 16 % 16, n % 16);
    HexPlaces(n);
  }

  lemma HexDigits(d: nat)
    requires d < 16
    ensures HexValue(HexDigit(d)) == Some(d)
  {
  }

  /** One escaped character is read back as that character, whatever follows it. */
  lemma ReadBackChar(c: char, t: string)
    ensures ReadBody(EscapeChar(c) + t) == Prepend(c, ReadBody(t))
  {
    hide ReadHex, Hex4;
    var e := EscapeChar(c);
    var s := e + t;
    assert s[|e|..] == t;
    assert s[0] == e[0] && (|e| > 1 ==> s[1] == e[1]) by { HexLength(c as int % 0x10000); }
    if c as int < 0x20 && c !in "\n\r\t" {
      HexRoundTrip(c as int);
      assert |Hex4(c as int)| == 4 by { HexLength(c as int); }
      assert s[2..6] == Hex4(c as int);
    }
  }

  lemma HexLength(n: nat)
    requires n < 0x10000
    ensures |Hex4(n)| == 4
  {
  }

  lemma {:induction false} ReadBackBody(s: string, rest: string)
    ensures ReadBody(Expand(s, EscapeChar) + [QUOTE] + rest) == Some(Parsed(s, rest))
  {
    if |s| == 0 {
      assert Expand(s, EscapeChar) + [QUOTE] + rest == [QUOTE] + rest;
    } else {
      var tail := Expand(s[1..], EscapeChar) + [QUOTE] + rest;
      assert Expand(s, EscapeChar) + [QUOTE] + rest == EscapeChar(s[0]) + tail;
      ReadBackChar(s[0], tail);
      ReadBackBody(s[1..], rest);
      assert s == [s[0]] + s[1..];
    }
  }

  /** Reading the literal gives the text back and stops exactly at its closing quote, whatever follows. */
  lemma RoundTrip(s: string, rest: string)
    ensures ReadLiteral(Literal(s) + rest) == Some(Parsed(s, rest))
  {
    hide Expand, Escaped, ReadBody;
    PassesAreOneMap(s);
    ReadBackBody(s, rest);
    assert (Literal(s) + rest)[1..] == Expand(s, EscapeChar) + [QUOTE] + rest;
  }

  lemma {:induction false} ExpandClean(s: string)
    ensures forall c :: c in Expand(s, EscapeChar) ==> c as int >= 0x20
  {
    if |s| > 0 {
      ExpandClean(s[1..]);
      if s[0] as int < 0x20 {
        HexRoundTrip(s[0] as int);
      }
    }
  }

  lemma NoRawControls(s: string)
    ensures forall c :: c in Literal(s) ==> c as int >= 0x20
  {
    PassesAreOneMap(s);
    ExpandClean(s);
  }

  /** An edge's `MATCH` on `_nid` finds exactly the nodes with the endpoint's id. */
  lemma LiteralsInjective(s: string, t: string, repr: Value -> string, text: Value -> string)
    ensures CypherValue(Str(s), repr, text) == CypherValue(Str(t), repr, text) <==> s == t
  {
    if Literal(s) == Literal(t) {
      RoundTrip(s, "");
      RoundTrip(t, "");
    }
  }
}
