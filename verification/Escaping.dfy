/**
 `esc` and `jsStr` (docs/shared.js) over UTF-16 code units, against an HTML
 character-reference decoder and the string grammar of section 7 of RFC 8259.
 */
module Escaping {
  import opened Wrappers

  type Unit = n: int | 0 <= n < 0x1_0000
  type Text = seq<Unit>

  const AMP: Unit := 38
  const LT: Unit := 60
  const GT: Unit := 62
  const DQUOTE: Unit := 34
  const SQUOTE: Unit := 39
  const BACKSLASH: Unit := 92

  const AMP_REF: Text := [38, 97, 109, 112, 59]          // &amp;
  const LT_REF: Text := [38, 108, 116, 59]               // &lt;
  const GT_REF: Text := [38, 103, 116, 59]               // &gt;
  const DQUOTE_REF: Text := [38, 113, 117, 111, 116, 59] // &quot;
  const SQUOTE_REF: Text := [38, 35, 51, 57, 59]         // &#39;

  // ---- the program --------------------------------------------------------------

  /** `s.replace(/c/g, by)` for a one-character pattern. */
  function ReplaceAll(s: Text, c: Unit, replacement: Text): Text {
    if s == [] then [] else (if s[0] == c then replacement else [s[0]]) + ReplaceAll(s[1..], c, replacement)
  }

  function EscapeMarkup(s: Text): Text {
    ReplaceAll(ReplaceAll(ReplaceAll(ReplaceAll(s, AMP, AMP_REF), LT, LT_REF), GT, GT_REF), DQUOTE, DQUOTE_REF)
  }

  function Esc(s: Text): Text {
    ReplaceAll(EscapeMarkup(s), SQUOTE, SQUOTE_REF)
  }

  function HexDigit(n: int): Unit
    requires 0 <= n < 16
  {
    if n < 10 then 48 + n else 87 + n
  }

  function UnicodeEscape(c: Unit): Text {
    [BACKSLASH, 117, HexDigit(c / 4096), HexDigit(c / 256 % 16), HexDigit(c / 16 % 16), HexDigit(c % 16)]
  }

  predicate HighSurrogate(c: Unit) { 0xD800 <= c < 0xDC00 }
  predicate LowSurrogate(c: Unit) { 0xDC00 <= c < 0xE000 }

  /** The short escape letter of JSON.stringify, if the unit has one. */
  function ShortEscape(c: Unit): Option<Unit> {
    if c == DQUOTE then Some(DQUOTE)
    else if c == BACKSLASH then Some(BACKSLASH)
    else if c == 8 then Some(98)
    else if c == 12 then Some(102)
    else if c == 10 then Some(110)
    else if c == 13 then Some(114)
    else if c == 9 then Some(116)
    else None
  }

  /** What JSON.stringify writes for the first unit, when it is not the start of a surrogate pair. */
  function QuoteOf(c: Unit): Text {
    if ShortEscape(c).Some? then [BACKSLASH, ShortEscape(c).value]
    else if c < 32 || HighSurrogate(c) || LowSurrogate(c) then UnicodeEscape(c)
    else [c]
  }

  /** Well-formed JSON.stringify: surrogate pairs stay, lone surrogates are escaped. */
  function QuoteBody(s: Text): Text {
    if s == [] then []
    else if |s| >= 2 && HighSurrogate(s[0]) && LowSurrogate(s[1]) then s[..2] + QuoteBody(s[2..])
    else QuoteOf(s[0]) + QuoteBody(s[1..])
  }

  function Stringify(s: Text): Text {
    [DQUOTE] + QuoteBody(s) + [DQUOTE]
  }

  function JsStr(s: Text): Text {
    EscapeMarkup(Stringify(s))
  }

  // ---- the readers ----------------------------------------------------------------

  /** The named character references of the signs that mean something in markup. */
  function NamedReference(name: Text): Option<Unit> {
    if name == ['a' as int, 'm' as int, 'p' as int] then Some('&' as int)
    else if name == ['l' as int, 't' as int] then Some('<' as int)
    else if name == ['g' as int, 't' as int] then Some('>' as int)
    else if name == ['q' as int, 'u' as int, 'o' as int, 't' as int] then Some('"' as int)
    else if name == ['a' as int, 'p' as int, 'o' as int, 's' as int] then Some('\'' as int)
    else None
  }

  function DecimalValue(digits: Text): Option<nat> {
    if digits == [] then Some(0)
    else
      var last := digits[|digits| - 1] - '0' as int;
      match DecimalValue(digits[..|digits| - 1])
      case None => None
      case Some(n) => if 0 <= last <= 9 then Some(10 * n + last) else None
  }

  /** What stands between '&' and ';': a decimal number of a printable ASCII character, or a name. */
  function Reference(inner: Text): Option<Unit> {
    if |inner| >= 2 && inner[0] == '#' as int then
      match DecimalValue(inner[1..])
      case None => None
      case Some(n) => if 32 <= n < 127 then Some(n) else None
    else NamedReference(inner)
  }

  function Semicolon(s: Text): (i: nat)
    ensures i <= |s| && (i < |s| ==> s[i] == ';' as int) && ';' as int !in s[..i]
  {
    if s == [] || s[0] == ';' as int then 0 else
      assert s[..1 + Semicolon(s[1..])] == [s[0]] + s[1..][..Semicolon(s[1..])];
      1 + Semicolon(s[1..])
  }

  /** The reference a text starts with, if any, and how long it is. */
  function ReferenceAt(s: Text): (found: Option<(Unit, nat)>)
    ensures found.Some? ==> 0 < found.value.1 <= |s|
  {
    if s == [] || s[0] != '&' as int || Semicolon(s) == |s| then None
    else
      match Reference(s[1..Semicolon(s)])
      case None => None
      case Some(c) => Some((c, Semicolon(s) + 1))
  }

  /** Character references are replaced once, from the left; any other '&' is itself. */
  function HtmlDecode(s: Text): Text
    decreases |s|
  {
    if s == [] then []
    else
      match ReferenceAt(s)
      case None => [s[0]] + HtmlDecode(s[1..])
      case Some((c, n)) => [c] + HtmlDecode(s[n..])
  }

  function HexValue(c: Unit): Option<int> {
    if 48 <= c <= 57 then Some(c - 48)
    else if 97 <= c <= 102 then Some(c - 87)
    else if 65 <= c <= 70 then Some(c - 55)
    else None
  }

  function Unescaped(c: Unit): Option<Unit> {
    if c == DQUOTE || c == BACKSLASH || c == 47 then Some(c)
    else if c == 98 then Some(8)
    else if c == 102 then Some(12)
    else if c == 110 then Some(10)
    else if c == 114 then Some(13)
    else if c == 116 then Some(9)
    else None
  }

  /** The characters up to the closing quotation mark, which must be the last unit. */
  function ParseChars(s: Text): Option<Text>
    decreases |s|
  {
    if s == [] then None
    else if s[0] == DQUOTE then (if |s| == 1 then Some([]) else None)
    else if s[0] < 32 then None
    else if s[0] != BACKSLASH then Prepend(s[0], ParseChars(s[1..]))
    else if |s| >= 2 && s[1] != 117 then
      (match Unescaped(s[1])
       case None => None
       case Some(c) => Prepend(c, ParseChars(s[2..])))
    else if |s| >= 6 then
      (match (HexValue(s[2]), HexValue(s[3]), HexValue(s[4]), HexValue(s[5]))
       case (Some(a), Some(b), Some(c), Some(d)) => Prepend(a * 4096 + b * 256 + c * 16 + d, ParseChars(s[6..]))
       case _ => None)
    else None
  }

  function Prepend(c: int, rest: Option<Text>): Option<Text> {
    if rest.None? || !(0 <= c < 0x1_0000) then None else Some([c] + rest.value)
  }

  function ParseJsonString(s: Text): Option<Text> {
    if s == [] || s[0] != DQUOTE then None else ParseChars(s[1..])
  }

  // ---- the chain of replacements is one pass ------------------------------------------

  function MarkupOf(c: Unit): Text {
    if c == AMP then AMP_REF
    else if c == LT then LT_REF
    else if c == GT then GT_REF
    else if c == DQUOTE then DQUOTE_REF
    else [c]
  }

  function EscOf(c: Unit): Text {
    if c == SQUOTE then SQUOTE_REF else MarkupOf(c)
  }

  function MapEach(s: Text, f: Unit -> Text): Text {
    if s == [] then [] else f(s[0]) + MapEach(s[1..], f)
  }

  lemma {:induction false} ReplaceAppend(s: Text, t: Text, c: Unit, replacement: Text)
    ensures ReplaceAll(s + t, c, replacement) == ReplaceAll(s, c, replacement) + ReplaceAll(t, c, replacement)
  {
    if s == [] {
      assert s + t == t;
    } else {
      assert (s + t)[0] == s[0] && (s + t)[1..] == s[1..] + t;
      ReplaceAppend(s[1..], t, c, replacement);
    }
  }

  /** A replacement leaves a text alone that does not hold its pattern. */
  lemma {:induction false} ReplaceAbsent(s: Text, c: Unit, replacement: Text)
    requires c !in s
    ensures ReplaceAll(s, c, replacement) == s
  {
    if s != [] { ReplaceAbsent(s[1..], c, replacement); }
  }

  lemma ReplaceOne(c: Unit, d: Unit, replacement: Text)
    ensures ReplaceAll([c], d, replacement) == if c == d then replacement else [c]
  {
    assert ReplaceAll([c][1..], d, replacement) == [];
  }

  /** One replacement of the chain on what one character has become so far. */
  lemma ReplaceStage(s: Text, c: Unit, d: Unit, replacement: Text)
    requires s == [c] || d !in s
    ensures ReplaceAll(s, d, replacement) == if s == [d] then replacement else s
  {
    if d in s { ReplaceOne(c, d, replacement); } else { ReplaceAbsent(s, d, replacement); }
  }

  /** Four replacements in a row on one character, when no later pattern occurs in an earlier replacement. */
  lemma ChainOfOne(c: Unit, d1: Unit, r1: Text, d2: Unit, r2: Text, d3: Unit, r3: Text, d4: Unit, r4: Text)
    requires d2 !in r1 && d3 !in r1 && d4 !in r1 && d3 !in r2 && d4 !in r2 && d4 !in r3
    ensures ReplaceAll(ReplaceAll(ReplaceAll(ReplaceAll([c], d1, r1), d2, r2), d3, r3), d4, r4) ==
            if c == d1 then r1 else if c == d2 then r2 else if c == d3 then r3 else if c == d4 then r4 else [c]
  {
    ReplaceStage([c], c, d1, r1);
    var s1 := ReplaceAll([c], d1, r1);
    ReplaceStage(s1, c, d2, r2);
    var s2 := ReplaceAll(s1, d2, r2);
    ReplaceStage(s2, c, d3, r3);
    ReplaceStage(ReplaceAll(s2, d3, r3), c, d4, r4);
  }

  lemma MarkupOfOne(c: Unit)
    ensures EscapeMarkup([c]) == MarkupOf(c)
  {
    ChainOfOne(c, AMP, AMP_REF, LT, LT_REF, GT, GT_REF, DQUOTE, DQUOTE_REF);
  }

  lemma MarkupAppend(s: Text, t: Text)
    ensures EscapeMarkup(s + t) == EscapeMarkup(s) + EscapeMarkup(t)
  {
    ReplaceAppend(s, t, AMP, AMP_REF);
    var s1, t1 := ReplaceAll(s, AMP, AMP_REF), ReplaceAll(t, AMP, AMP_REF);
    ReplaceAppend(s1, t1, LT, LT_REF);
    var s2, t2 := ReplaceAll(s1, LT, LT_REF), ReplaceAll(t1, LT, LT_REF);
    ReplaceAppend(s2, t2, GT, GT_REF);
    ReplaceAppend(ReplaceAll(s2, GT, GT_REF), ReplaceAll(t2, GT, GT_REF), DQUOTE, DQUOTE_REF);
  }

  /** The four chained replacements are one character-by-character map. */
  lemma {:induction false} MarkupIsOnePass(s: Text)
    ensures EscapeMarkup(s) == MapEach(s, MarkupOf)
  {
    if s != [] {
      assert s == [s[0]] + s[1..];
      MarkupAppend([s[0]], s[1..]);
      MarkupOfOne(s[0]);
      MarkupIsOnePass(s[1..]);
    }
  }

  lemma EscOfOne(c: Unit)
    ensures Esc([c]) == EscOf(c)
  {
    MarkupOfOne(c);
    ReplaceStage(MarkupOf(c), c, SQUOTE, SQUOTE_REF);
  }

  lemma EscAppend(s: Text, t: Text)
    ensures Esc(s + t) == Esc(s) + Esc(t)
  {
    MarkupAppend(s, t);
    ReplaceAppend(EscapeMarkup(s), EscapeMarkup(t), SQUOTE, SQUOTE_REF);
  }

  /** And so are the five of `esc`. */
  lemma {:induction false} EscIsOnePass(s: Text)
    ensures Esc(s) == MapEach(s, EscOf)
  {
    if s != [] {
      assert s == [s[0]] + s[1..];
      EscAppend([s[0]], s[1..]);
      EscOfOne(s[0]);
      EscIsOnePass(s[1..]);
    }
  }

  // ---- decoding undoes it -----------------------------------------------------------

  lemma NumberByUnits()
    ensures Reference([35, 51, 57]) == Some(39)
  {
    var d: Text := [51, 57];
    assert [35, 51, 57][1..] == d && d[..1] == [51] && d[..1][..0] == [];
    assert DecimalValue([]) == Some(0) && DecimalValue(d[..1]) == Some(3) && DecimalValue(d) == Some(39);
  }

  lemma SemicolonAfter(name: Text, rest: Text)
    requires 59 !in name
    ensures Semicolon(name + [59] + rest) == |name|
  {
    var s := name + [59] + rest;
    var i := Semicolon(s);
    assert s[|name|] == 59;
    forall j | 0 <= j < i ensures s[j] != 59 { assert s[j] == s[..i][j]; }
    assert forall j :: 0 <= j < |name| ==> s[j] == name[j] && name[j] in name;
  }

  /** A reference is read as a whole, whatever follows it. */
  lemma DecodeReference(name: Text, c: Unit, rest: Text)
    requires 59 !in name && Reference(name) == Some(c)
    ensures var s := [38] + name + [59] + rest; ReferenceAt(s) == Some((c, |name| + 2))
    ensures HtmlDecode([38] + name + [59] + rest) == [c] + HtmlDecode(rest)
  {
    var s := [38] + name + [59] + rest;
    SemicolonAfter([38] + name, rest);
    assert s[1..|name| + 1] == name && s[|name| + 2..] == rest;
  }

  /** What each escaped character is written as. */
  lemma MarkupNames(c: Unit)
    ensures match c
      case 38 => MarkupOf(c) == [38] + [97, 109, 112] + [59]
      case 60 => MarkupOf(c) == [38] + [108, 116] + [59]
      case 62 => MarkupOf(c) == [38] + [103, 116] + [59]
      case 34 => MarkupOf(c) == [38] + [113, 117, 111, 116] + [59]
      case _ => MarkupOf(c) == [c]
  {
  }

  lemma DecodeMarkup(c: Unit, rest: Text)
    ensures HtmlDecode(MarkupOf(c) + rest) == [c] + HtmlDecode(rest)
    ensures MarkupOf(c)[0] == 38 ==> ReferenceAt(MarkupOf(c) + rest).Some?
  {
    MarkupNames(c);
    match c
    case 38 => DecodeReference([97, 109, 112], c, rest);
    case 60 => DecodeReference([108, 116], c, rest);
    case 62 => DecodeReference([103, 116], c, rest);
    case 34 => DecodeReference([113, 117, 111, 116], c, rest);
    case _ => assert ([c] + rest)[1..] == rest;
  }

  lemma DecodeStep(c: Unit, rest: Text)
    ensures HtmlDecode(EscOf(c) + rest) == [c] + HtmlDecode(rest)
    ensures EscOf(c)[0] == 38 ==> ReferenceAt(EscOf(c) + rest).Some?
  {
    if c == 39 {
      NumberByUnits();
      assert EscOf(c) == [38] + [35, 51, 57] + [59];
      DecodeReference([35, 51, 57], c, rest);
    } else {
      DecodeMarkup(c, rest);
    }
  }

  lemma {:induction false} DecodeMapEach(s: Text, f: Unit -> Text)
    requires forall c, rest :: HtmlDecode(f(c) + rest) == [c] + HtmlDecode(rest)
    ensures HtmlDecode(MapEach(s, f)) == s
  {
    if s != [] { DecodeMapEach(s[1..], f); }
  }

  /** Entity decoding gives back the argument of `esc`, for every text. */
  lemma EscRoundTrip(s: Text)
    ensures HtmlDecode(Esc(s)) == s
  {
    EscIsOnePass(s);
    forall c, rest ensures HtmlDecode(EscOf(c) + rest) == [c] + HtmlDecode(rest) { DecodeStep(c, rest); }
    DecodeMapEach(s, EscOf);
  }

  lemma MarkupRoundTrip(s: Text)
    ensures HtmlDecode(EscapeMarkup(s)) == s
  {
    MarkupIsOnePass(s);
    forall c, rest ensures HtmlDecode(MarkupOf(c) + rest) == [c] + HtmlDecode(rest) { DecodeMarkup(c, rest); }
    DecodeMapEach(s, MarkupOf);
  }

  lemma HexDigitRoundTrip(n: int)
    requires 0 <= n < 16
    ensures HexValue(HexDigit(n)) == Some(n)
  {
  }

  lemma HexDigitsSum(c: int)
    requires 0 <= c < 0x1_0000
    ensures 0 <= c / 4096 < 16
    ensures c / 4096 * 4096 + c / 256 % 16 * 256 + c / 16 % 16 * 16 + c % 16 == c
  {
    var q := c / 16;
    var r := q / 16;
    assert c / 256 == r && c / 4096 == r / 16;
  }

  lemma HexRoundTrip(c: Unit)
    ensures var h := UnicodeEscape(c);
      && HexValue(h[2]) == Some(c / 4096) && HexValue(h[3]) == Some(c / 256 % 16)
      && HexValue(h[4]) == Some(c / 16 % 16) && HexValue(h[5]) == Some(c % 16)
  {
    HexDigitsSum(c);
    HexDigitRoundTrip(c / 4096);
    HexDigitRoundTrip(c / 256 % 16);
    HexDigitRoundTrip(c / 16 % 16);
    HexDigitRoundTrip(c % 16);
  }

  lemma ParseShort(c: Unit, rest: Text)
    requires ShortEscape(c).Some?
    ensures ParseChars([BACKSLASH, ShortEscape(c).value] + rest) == Prepend(c, ParseChars(rest))
  {
    var out := [BACKSLASH, ShortEscape(c).value];
    assert (out + rest)[2..] == rest && (out + rest)[0] == BACKSLASH && (out + rest)[1] == ShortEscape(c).value;
    assert Unescaped(ShortEscape(c).value) == Some(c);
  }

  lemma ParseUnicode(c: Unit, rest: Text)
    ensures ParseChars(UnicodeEscape(c) + rest) == Prepend(c, ParseChars(rest))
  {
    var out := UnicodeEscape(c);
    var s := out + rest;
    assert s[6..] == rest && s[0] == BACKSLASH && s[1] == 117;
    assert s[2] == out[2] && s[3] == out[3] && s[4] == out[4] && s[5] == out[5];
    HexRoundTrip(c);
    HexDigitsSum(c);
  }

  lemma ParseOne(c: Unit, rest: Text)
    ensures ParseChars(QuoteOf(c) + rest) == Prepend(c, ParseChars(rest))
  {
    if ShortEscape(c).Some? {
      ParseShort(c, rest);
    } else if c < 32 || HighSurrogate(c) || LowSurrogate(c) {
      ParseUnicode(c, rest);
    } else {
      ParsePlain(c, rest);
    }
  }

  lemma ParsePlain(c: Unit, rest: Text)
    requires c >= 32 && c != DQUOTE && c != BACKSLASH
    ensures ParseChars([c] + rest) == Prepend(c, ParseChars(rest))
  {
    assert ([c] + rest)[1..] == rest;
  }

  lemma ParsePair(h: Unit, l: Unit, body: Text, rest: Text)
    requires HighSurrogate(h) && LowSurrogate(l) && ParseChars(body + [DQUOTE]) == Some(rest)
    ensures ParseChars([h, l] + body + [DQUOTE]) == Some([h, l] + rest)
  {
    ParsePlain(l, body + [DQUOTE]);
    ParsePlain(h, [l] + (body + [DQUOTE]));
    assert [h, l] + body + [DQUOTE] == [h] + ([l] + (body + [DQUOTE]));
    assert [h] + ([l] + rest) == [h, l] + rest;
  }

  lemma ParseSingle(c: Unit, body: Text, rest: Text)
    requires ParseChars(body + [DQUOTE]) == Some(rest)
    ensures ParseChars(QuoteOf(c) + body + [DQUOTE]) == Some([c] + rest)
  {
    ParseOne(c, body + [DQUOTE]);
    assert QuoteOf(c) + body + [DQUOTE] == QuoteOf(c) + (body + [DQUOTE]);
  }

  lemma {:induction false} ParseQuoteBody(s: Text)
    ensures ParseChars(QuoteBody(s) + [DQUOTE]) == Some(s)
    decreases |s|
  {
    if s == [] {
    } else if |s| >= 2 && HighSurrogate(s[0]) && LowSurrogate(s[1]) {
      ParseQuoteBody(s[2..]);
      ParsePair(s[0], s[1], QuoteBody(s[2..]), s[2..]);
      assert s[..2] == [s[0], s[1]] && [s[0], s[1]] + s[2..] == s;
    } else {
      ParseQuoteBody(s[1..]);
      ParseSingle(s[0], QuoteBody(s[1..]), s[1..]);
      assert QuoteBody(s) == QuoteOf(s[0]) + QuoteBody(s[1..]);
      assert [s[0]] + s[1..] == s;
    }
  }

  /**
   The written form is the shortest one JSON has: two units for the seven characters
   with a short escape, six with lower-case digits for other control characters and
   lone surrogates, and the unit itself for everything else.
   */
  lemma QuoteIsShortest(c: Unit)
    ensures |QuoteOf(c)| == if c in {8, 9, 10, 12, 13, 34, 92} then 2
                            else if c < 32 || 0xD800 <= c < 0xE000 then 6
                            else 1
    ensures |QuoteOf(c)| == 6 ==> forall u :: u in QuoteOf(c) ==> u < 65 || 70 < u
  {
    if |QuoteOf(c)| == 6 { HexDigitsSum(c); }
  }

  /** Units that need no escape, surrogates in pairs only. */
  predicate Plain(s: Text)
    decreases |s|
  {
    || s == []
    || (|s| >= 2 && 0xD800 <= s[0] < 0xDC00 <= s[1] < 0xE000 && Plain(s[2..]))
    || (s[0] >= 32 && s[0] !in {34, 92} && !(0xD800 <= s[0] < 0xE000) && Plain(s[1..]))
  }

  lemma {:induction false} PlainIsVerbatim(s: Text)
    requires Plain(s)
    ensures QuoteBody(s) == s
    decreases |s|
  {
    if s == [] {
    } else if s[0] >= 0xD800 && s[0] < 0xE000 {
      PlainIsVerbatim(s[2..]);
      assert s[..2] + s[2..] == s;
    } else {
      PlainIsVerbatim(s[1..]);
      assert QuoteOf(s[0]) == [s[0]] && [s[0]] + s[1..] == s;
    }
  }

  /** Attribute decoding, then the JSON string parser, gives back the argument of `jsStr`. */
  lemma JsStrRoundTrip(s: Text)
    ensures ParseJsonString(HtmlDecode(JsStr(s))) == Some(s)
  {
    MarkupRoundTrip(Stringify(s));
    ParseQuoteBody(s);
    assert Stringify(s)[1..] == QuoteBody(s) + [DQUOTE];
  }

  // ---- and the output is inert where it is placed -----------------------------------

  lemma {:induction false} MapEachAvoids(s: Text, f: Unit -> Text, c: Unit)
    requires forall x :: c !in f(x)
    ensures c !in MapEach(s, f)
  {
    if s != [] { MapEachAvoids(s[1..], f, c); }
  }

  lemma ReferencesAreInert(x: Unit, c: Unit)
    requires c == LT || c == GT || c == DQUOTE || c == SQUOTE
    ensures c !in EscOf(x) && (c != SQUOTE ==> c !in MarkupOf(x))
  {
  }

  lemma AvoidsEach(s: Text, c: Unit)
    requires c == LT || c == GT || c == DQUOTE || c == SQUOTE
    ensures c !in MapEach(s, EscOf) && (c != SQUOTE ==> c !in MapEach(s, MarkupOf))
  {
    forall x ensures c !in EscOf(x) && (c != SQUOTE ==> c !in MarkupOf(x)) { ReferencesAreInert(x, c); }
    MapEachAvoids(s, EscOf, c);
    if c != SQUOTE { MapEachAvoids(s, MarkupOf, c); }
  }

  /** No raw angle bracket or quotation mark leaves either function; `esc` also removes the apostrophe. */
  lemma OutputIsInert(s: Text)
    ensures LT !in Esc(s) && GT !in Esc(s) && DQUOTE !in Esc(s) && SQUOTE !in Esc(s)
    ensures LT !in JsStr(s) && GT !in JsStr(s) && DQUOTE !in JsStr(s)
  {
    EscIsOnePass(s);
    MarkupIsOnePass(Stringify(s));
    AvoidsEach(s, LT);
    AvoidsEach(s, GT);
    AvoidsEach(s, DQUOTE);
    AvoidsEach(s, SQUOTE);
    AvoidsEach(Stringify(s), LT);
    AvoidsEach(Stringify(s), GT);
    AvoidsEach(Stringify(s), DQUOTE);
  }

  lemma OneAmpersand(c: Unit, i: nat)
    ensures 0 < i < |MarkupOf(c)| ==> MarkupOf(c)[i] != 38
    ensures 0 < i < |EscOf(c)| ==> EscOf(c)[i] != 38
  {
    MarkupNames(c);
  }

  lemma FirstAmpersand(c: Unit, f: Unit -> Text, rest: Text, i: nat)
    requires f == EscOf || f == MarkupOf
    requires i < |f(c)| && f(c)[i] == 38
    ensures i == 0 && ReferenceAt(f(c) + rest).Some?
  {
    OneAmpersand(c, i);
    var out := f(c);
    if f == EscOf {
      assert out == EscOf(c);
      DecodeStep(c, rest);
    } else {
      assert out == MarkupOf(c);
      DecodeMarkup(c, rest);
    }
  }

  /** Every ampersand that is written begins a reference the decoder knows. */
  lemma {:induction false} AmpersandsAreReferences(s: Text, f: Unit -> Text, i: nat)
    requires f == EscOf || f == MarkupOf
    requires i < |MapEach(s, f)| && MapEach(s, f)[i] == '&' as int
    ensures ReferenceAt(MapEach(s, f)[i..]).Some?
  {
    var head, rest := f(s[0]), MapEach(s[1..], f);
    if i < |head| {
      FirstAmpersand(s[0], f, rest, i);
      assert (head + rest)[0..] == head + rest;
    } else {
      AmpersandsAreReferences(s[1..], f, i - |head|);
      assert (head + rest)[i..] == rest[i - |head|..];
    }
  }
}
