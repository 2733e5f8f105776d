/**
 * `get_flag_emoji` of web/utils.py: an ISO 3166-1 alpha-2 country code becomes
 * the two Unicode regional-indicator symbols that render as that country's flag;
 * anything that is not such a code becomes the white flag.
 *
 * Python strings are sequences of code points, so a string is a `seq<CodePoint>`
 * here (code points rather than Dafny `char`s, because a Python string may hold
 * lone surrogates).
 */
module Flags {
  import opened Wrappers

  /** A Unicode code point, as `ord` returns it. */
  type CodePoint = c: int | 0 <= c < 0x110000

  /** The argument as the function sees it: a string, or any object that is not one. */
  datatype Arg = PyStr(chars: seq<CodePoint>) | NotStr

  /** What a call does: return a string, or raise `TypeError` (from `ord`). */
  datatype Outcome = Returns(text: seq<CodePoint>) | RaisesTypeError

  /** REGIONAL INDICATOR SYMBOL LETTER A. */
  const RegionalBase: int := 0x1F1E6
  const CapitalA: int := 0x41
  const CapitalZ: int := 0x5A

  /** "🏳️": WAVING WHITE FLAG followed by VARIATION SELECTOR-16. */
  const WhiteFlag: seq<CodePoint> := [0x1F3F3, 0xFE0F]

  /**
   * The code points whose upper-case form has more than one character
   * (Unicode 15.0 SpecialCasing: ß, ŉ, ǰ, the Greek iota-subscript forms, the
   * Latin and Armenian ligatures, ...). `ord` of such an upper-case form raises.
   */
  predicate ExpandsOnUpper(c: int) {
    || c == 0xDF || c == 0x149 || c == 0x1F0 || c == 0x390 || c == 0x3B0 || c == 0x587
    || 0x1E96 <= c <= 0x1E9A || c == 0x1F50 || c == 0x1F52 || c == 0x1F54 || c == 0x1F56
    || 0x1F80 <= c <= 0x1FAF || 0x1FB2 <= c <= 0x1FB4 || 0x1FB6 <= c <= 0x1FB7 || c == 0x1FBC
    || 0x1FC2 <= c <= 0x1FC4 || 0x1FC6 <= c <= 0x1FC7 || c == 0x1FCC || 0x1FD2 <= c <= 0x1FD3
    || 0x1FD6 <= c <= 0x1FD7 || 0x1FE2 <= c <= 0x1FE4 || 0x1FE6 <= c <= 0x1FE7
    || 0x1FF2 <= c <= 0x1FF4 || 0x1FF6 <= c <= 0x1FF7 || c == 0x1FFC
    || 0xFB00 <= c <= 0xFB06 || 0xFB13 <= c <= 0xFB17
  }

  predicate IsCapital(c: int) {
    CapitalA <= c <= CapitalZ
  }

  predicate IsRegional(c: int) {
    RegionalBase <= c <= RegionalBase + (CapitalZ - CapitalA)
  }

  /**
   * Python's `c.upper()` on one character, as far as `ord` and the 'A'..'Z'
   * test can observe it: `None` when the upper-case form has several
   * characters; otherwise `Some(u)`, where `u` is an ASCII capital exactly when
   * `c.upper()` is that capital. Only a..z, U+0131 (dotless i) and U+017F
   * (long s) upper-case to an ASCII capital; every other character stands for
   * itself, since its upper-case form lies outside 'A'..'Z' just as it does.
   */
  function UpperOne(c: CodePoint): (u: Option<CodePoint>)
    ensures u.None? <==> ExpandsOnUpper(c)
    ensures u.Some? && IsCapital(u.value) <==> IsCapital(c) || 0x61 <= c <= 0x7A || c == 0x131 || c == 0x17F
    ensures IsCapital(c) ==> u == Some(c)
    ensures 0x61 <= c <= 0x7A ==> u == Some(c - 0x20)
    ensures c == 0x131 ==> u == Some(0x49)
    ensures c == 0x17F ==> u == Some(0x53)
  {
    if 0x61 <= c <= 0x7A then Some(c - 0x20)
    else if c == 0x131 then Some(0x49)
    else if c == 0x17F then Some(0x53)
    else if ExpandsOnUpper(c) then None
    else Some(c)
  }

  /** The regional indicator for an ASCII capital: 'A' is U+1F1E6, 'Z' is U+1F1FF. */
  function Indicator(u: CodePoint): (r: CodePoint)
    requires IsCapital(u)
    ensures IsRegional(r)
  {
    RegionalBase + u - CapitalA
  }

  /** The call `get_flag_emoji(arg)` exactly as written, including the `TypeError` that `ord` raises. */
  function FlagEmojiAsWritten(arg: Arg): (r: Outcome)
    ensures r.RaisesTypeError? ==> arg.PyStr? && |arg.chars| == 2
    ensures r.Returns? ==> |r.text| == 2 && (r.text == WhiteFlag || (IsRegional(r.text[0]) && IsRegional(r.text[1])))
  {
    if arg.NotStr? || |arg.chars| != 2 then Returns(WhiteFlag)
    else
      var first := UpperOne(arg.chars[0]);
      var second := UpperOne(arg.chars[1]);
      if first.None? || second.None? then RaisesTypeError
      else if !(IsCapital(first.value) && IsCapital(second.value)) then Returns(WhiteFlag)
      else Returns([Indicator(first.value), Indicator(second.value)])
  }

  /**
   * `get_flag_emoji` as its fallback evidently intends it: a character whose
   * upper-case form is not a single letter makes the code invalid, like any
   * other non-letter, and yields the white flag instead of an exception.
   */
  function FlagEmoji(arg: Arg): (r: seq<CodePoint>)
    ensures |r| == 2
    ensures r == WhiteFlag || (IsRegional(r[0]) && IsRegional(r[1]))
  {
    if arg.NotStr? || |arg.chars| != 2 then WhiteFlag
    else
      var first := UpperOne(arg.chars[0]);
      var second := UpperOne(arg.chars[1]);
      if first.Some? && second.Some? && IsCapital(first.value) && IsCapital(second.value)
      then [Indicator(first.value), Indicator(second.value)]
      else WhiteFlag
  }

  /** The argument is a two-character string each of whose characters upper-cases to a letter A..Z. */
  predicate IsCountryCode(arg: Arg) {
    && arg.PyStr?
    && |arg.chars| == 2
    && UpperOne(arg.chars[0]).Some? && IsCapital(UpperOne(arg.chars[0]).value)
    && UpperOne(arg.chars[1]).Some? && IsCapital(UpperOne(arg.chars[1]).value)
  }

  /** The upper-cased code of a valid argument. */
  function UpperCased(arg: Arg): (code: seq<CodePoint>)
    requires IsCountryCode(arg)
    ensures |code| == 2 && IsCapital(code[0]) && IsCapital(code[1])
  {
    [UpperOne(arg.chars[0]).value, UpperOne(arg.chars[1]).value]
  }

  /** Reading a flag back: a pair of regional indicators gives the two capitals they stand for. */
  function DecodeFlag(flag: seq<CodePoint>): (code: Option<seq<CodePoint>>)
    ensures code.Some? <==> |flag| == 2 && IsRegional(flag[0]) && IsRegional(flag[1])
    ensures code.Some? ==> |code.value| == 2 && IsCapital(code.value[0]) && IsCapital(code.value[1])
  {
    if |flag| == 2 && IsRegional(flag[0]) && IsRegional(flag[1])
    then Some([flag[0] - RegionalBase + CapitalA, flag[1] - RegionalBase + CapitalA])
    else None
  }

  /** The white flag comes out exactly when the argument is not a country code. */
  lemma FallbackIsWhiteFlag(arg: Arg)
    ensures FlagEmoji(arg) == WhiteFlag <==> !IsCountryCode(arg)
  {
  }

  /** Decoding a flag recovers the upper-cased code, and nothing decodes from the fallback. */
  lemma FlagRoundTrip(arg: Arg)
    ensures DecodeFlag(FlagEmoji(arg)) == if IsCountryCode(arg) then Some(UpperCased(arg)) else None
  {
  }

  /** Every pair of regional indicators is the flag of the code it decodes to. */
  lemma FlagOfDecoded(flag: seq<CodePoint>)
    requires DecodeFlag(flag).Some?
    ensures IsCountryCode(PyStr(DecodeFlag(flag).value))
    ensures FlagEmoji(PyStr(DecodeFlag(flag).value)) == flag
  {
  }

  /** Two country codes get the same flag only when they agree after upper-casing. */
  lemma FlagInjective(a: Arg, b: Arg)
    requires IsCountryCode(a) && IsCountryCode(b)
    requires FlagEmoji(a) == FlagEmoji(b)
    ensures UpperCased(a) == UpperCased(b)
  {
  }

  /** The character a code point upper-cases to, where that is a single character. */
  function UpperOrSelf(c: CodePoint): (u: CodePoint)
    ensures IsCapital(u) <==> UpperOne(c).Some? && IsCapital(UpperOne(c).value)
  {
    match UpperOne(c)
    case Some(v) => v
    case None => c
  }

  /** Upper-casing the argument first changes nothing: lower- and upper-case codes share a flag. */
  lemma FlagIgnoresCase(x: CodePoint, y: CodePoint)
    ensures FlagEmoji(PyStr([x, y])) == FlagEmoji(PyStr([UpperOrSelf(x), UpperOrSelf(y)]))
  {
  }

  /** A lower-case ASCII code has the flag of its upper-case form. */
  lemma LowerCaseSharesFlag(x: CodePoint, y: CodePoint)
    requires 0x61 <= x <= 0x7A && 0x61 <= y <= 0x7A
    ensures FlagEmoji(PyStr([x, y])) == FlagEmoji(PyStr([x - 0x20, y - 0x20]))
    ensures IsCountryCode(PyStr([x, y]))
  {
  }

  /** The worked example: "US" and "us" both give U+1F1FA U+1F1F8. */
  lemma UnitedStatesFlag()
    ensures FlagEmoji(PyStr([0x55, 0x53])) == [0x1F1FA, 0x1F1F8]
    ensures FlagEmoji(PyStr([0x75, 0x73])) == [0x1F1FA, 0x1F1F8]
  {
  }

  /** As written, a character such as 'ß' (upper-case "SS") makes `ord` raise instead of giving the white flag. */
  lemma AsWrittenRaisesOnSharpS()
    ensures FlagEmojiAsWritten(PyStr([0xDF, 0x41])) == RaisesTypeError
    ensures FlagEmoji(PyStr([0xDF, 0x41])) == WhiteFlag
  {
  }

  /** The code as written and the corrected function differ only where `ord` raises. */
  lemma AsWrittenAgreesOtherwise(arg: Arg)
    ensures FlagEmojiAsWritten(arg) ==
      if arg.PyStr? && |arg.chars| == 2 && (ExpandsOnUpper(arg.chars[0]) || ExpandsOnUpper(arg.chars[1]))
      then RaisesTypeError
      else Returns(FlagEmoji(arg))
  {
  }
}
