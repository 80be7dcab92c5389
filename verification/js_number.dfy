/** JavaScript's two string-to-number conversions, restricted to decimal
    integers: `Number(s)` accepts a whole trimmed string, `parseInt(s)`
    reads the longest digit prefix after leading white space. A result of
    `None` is NaN. */
module JsNumber {
  import opened Wrappers
  import opened Decimal
  import opened JsValue

  /** The white space and line terminators `Number` trims and `parseInt`
      skips: the ASCII ones, no-break space, the byte order mark, the line
      and paragraph separators, and the Unicode space separators. */
  predicate IsSpace(c: char) {
    || c == ' ' || c == '\t' || c == '\n' || c == '\r' || c == '\U{B}' || c == '\U{C}'
    || c == '\U{A0}' || c == '\U{FEFF}' || c == '\U{2028}' || c == '\U{2029}'
    || c == '\U{1680}' || '\U{2000}' <= c <= '\U{200A}'
    || c == '\U{202F}' || c == '\U{205F}' || c == '\U{3000}'
  }

  function TrimStart(s: string): (t: string)
    ensures |t| <= |s| && t == s[|s| - |t|..]
    ensures |t| > 0 ==> !IsSpace(t[0])
    ensures forall i :: 0 <= i < |s| - |t| ==> IsSpace(s[i])
  {
    if |s| > 0 && IsSpace(s[0]) then TrimStart(s[1..]) else s
  }

  function TrimEnd(s: string): (t: string)
    ensures |t| <= |s| && t == s[..|t|]
    ensures |t| > 0 ==> !IsSpace(t[|t| - 1])
    ensures forall i :: |t| <= i < |s| ==> IsSpace(s[i])
  {
    if |s| > 0 && IsSpace(s[|s| - 1]) then TrimEnd(s[..|s| - 1]) else s
  }

  /** `s.trim()` */
  function Trim(s: string): string {
    TrimEnd(TrimStart(s))
  }

  /** An optional leading sign, as a factor, and the text after it. */
  function SignSplit(t: string): (int, string) {
    if |t| > 0 && t[0] == '-' then (-1, t[1..])
    else if |t| > 0 && t[0] == '+' then (1, t[1..])
    else (1, t)
  }

  /** A magnitude with the sign factor `SignSplit` found applied. */
  function Signed(sign: int, magnitude: nat): int {
    if sign < 0 then -(magnitude as int) else magnitude
  }

  /** The longest prefix of decimal digits. */
  function DigitPrefix(s: string): (d: string)
    ensures AllDigits(d) && |d| <= |s| && d == s[..|d|]
    ensures |d| < |s| ==> !IsDigit(s[|d|])
  {
    if |s| > 0 && IsDigit(s[0]) then [s[0]] + DigitPrefix(s[1..]) else ""
  }

  /** `parseInt(s)` with radix 10. */
  function ParseInt(s: string): Option<int> {
    var (sign, rest) := SignSplit(TrimStart(s));
    var digits := DigitPrefix(rest);
    if digits == "" then None else Some(Signed(sign, DigitsValue(digits)))
  }

  /** `Number(s)` for a string: blank is 0, a signed digit string is its
      value, anything else is NaN. */
  function ToNumber(s: string): Option<int> {
    var t := Trim(s);
    if t == "" then Some(0)
    else
      var (sign, rest) := SignSplit(t);
      if rest != "" && AllDigits(rest) then Some(Signed(sign, DigitsValue(rest))) else None
  }

  /** `Number(v)` for any value; arrays and objects go through `String(v)`. */
  function NumberOf(v: Value): Option<int> {
    match v
    case Undefined => None
    case Null => Some(0)
    case Bool(b) => Some(if b then 1 else 0)
    case Num(n) => Some(n)
    case NaN => None
    case Str(s) => ToNumber(s)
    case Arr(_) => ToNumber(Display(v))
    case Obj(_) => ToNumber(Display(v))
  }

  /** `parseInt(v)` for any value: it reads `String(v)`. */
  function ParseIntOf(v: Value): Option<int> {
    ParseInt(Display(v))
  }

  lemma {:induction false} DigitPrefixOfDigits(d: string, w: string)
    requires AllDigits(d)
    requires |w| > 0 ==> !IsDigit(w[0])
    ensures DigitPrefix(d + w) == d
  {
    if |d| > 0 {
      assert (d + w)[1..] == d[1..] + w;
      DigitPrefixOfDigits(d[1..], w);
    }
  }

  /** A non-empty digit string is a number for `Number`, with its decimal value. */
  lemma DigitsAreNumber(s: string)
    requires s != "" && AllDigits(s)
    ensures ToNumber(s) == Some(DigitsValue(s))
  {
    assert IsDigit(s[0]) && IsDigit(s[|s| - 1]);
    TrimmedAlready(s);
    assert SignSplit(s) == (1, s);
  }

  lemma SignSplitAppend(t: string, w: string)
    requires t != ""
    ensures SignSplit(t + w) == (SignSplit(t).0, SignSplit(t).1 + w)
  {
    assert (t + w)[0] == t[0];
    assert (t + w)[1..] == t[1..] + w;
  }

  lemma BlankIsZeroAndNaN(s: string)
    requires Trim(s) == ""
    ensures ToNumber(s) == Some(0) && ParseInt(s) == None
  {
    assert |TrimStart(s)| == 0;
    assert SignSplit(TrimStart(s)) == (1, "");
  }

  lemma NonBlankNumberIsParsed(s: string)
    requires ToNumber(s).Some? && Trim(s) != ""
    ensures ParseInt(s) == ToNumber(s)
  {
    var t := Trim(s);
    NumberOfTrimmed(s);
    TrailingBlanks(TrimStart(s));
    ParseIntOfSignedDigits(s, t, TrimStart(s)[|t|..]);
  }

  /** What `Number` read from a non-blank string. */
  lemma NumberOfTrimmed(s: string)
    requires ToNumber(s).Some? && Trim(s) != ""
    ensures SignSplit(Trim(s)).1 != "" && AllDigits(SignSplit(Trim(s)).1)
    ensures ToNumber(s) == Some(Signed(SignSplit(Trim(s)).0, DigitsValue(SignSplit(Trim(s)).1)))
  {
  }

  /** Trimming the end of `u` drops white space only. */
  lemma TrailingBlanks(u: string)
    ensures u == TrimEnd(u) + u[|TrimEnd(u)|..]
    ensures |u| > |TrimEnd(u)| ==> !IsDigit(u[|TrimEnd(u)|])
  {
  }

  /** `parseInt` of text that starts, after white space, with a signed
      digit string followed by something other than a digit. */
  lemma ParseIntOfSignedDigits(s: string, t: string, w: string)
    requires t != "" && TrimStart(s) == t + w && (|w| > 0 ==> !IsDigit(w[0]))
    requires SignSplit(t).1 != "" && AllDigits(SignSplit(t).1)
    ensures ParseInt(s) == Some(Signed(SignSplit(t).0, DigitsValue(SignSplit(t).1)))
  {
    SignSplitAppend(t, w);
    DigitPrefixOfDigits(SignSplit(t).1, w);
  }

  /** Whenever `Number` reads a non-blank string as an integer, `parseInt`
      reads the same integer from it; a blank string is 0 for `Number`
      but NaN for `parseInt`. */
  lemma NumberAgreesWithParseInt(s: string)
    ensures ToNumber(s).Some? && Trim(s) != "" ==> ParseInt(s) == ToNumber(s)
    ensures Trim(s) == "" ==> ToNumber(s) == Some(0) && ParseInt(s) == None
  {
    if Trim(s) == "" {
      BlankIsZeroAndNaN(s);
    } else if ToNumber(s).Some? {
      NonBlankNumberIsParsed(s);
    }
  }

  lemma TrimmedAlready(s: string)
    requires |s| > 0 && !IsSpace(s[0]) && !IsSpace(s[|s| - 1])
    ensures TrimStart(s) == s && Trim(s) == s
  {
  }

  /** The spelling of an integer splits into its sign and its digits. */
  lemma IntStringParts(n: int)
    ensures Trim(IntToString(n)) == IntToString(n)
    ensures TrimStart(IntToString(n)) == IntToString(n)
    ensures SignSplit(IntToString(n)) == (if n < 0 then -1 else 1, NatToDigits(if n < 0 then -n else n))
  {
    TrimmedAlready(IntToString(n));
    if n < 0 {
      assert IntToString(n)[1..] == NatToDigits(-n);
    }
  }

  /** `parseInt(String(n))` and `Number(String(n))` give back the integer `n`. */
  lemma IntStringRoundTrip(n: int)
    ensures ParseInt(IntToString(n)) == Some(n)
    ensures ToNumber(IntToString(n)) == Some(n)
  {
    var k: nat := if n < 0 then -n else n;
    var d := NatToDigits(k);
    IntStringParts(n);
    DigitsRoundTrip(k);
    DigitPrefixOfDigits(d, "");
    assert d + "" == d;
  }

  lemma NaNIsNotParsed()
    ensures ParseInt("NaN") == None
  {
    TrimmedAlready("NaN");
    assert SignSplit("NaN") == (1, "NaN");
    assert DigitPrefix("NaN") == "";
  }

  /** `parseInt` leaves every number unchanged: integers round-trip through
      their decimal spelling and NaN stays NaN. */
  lemma ParseIntKeepsNumbers(v: Value)
    requires IsNumber(v)
    ensures FromNumber(ParseIntOf(v)) == v
  {
    match v
    case Num(n) => IntStringRoundTrip(n);
    case NaN => NaNIsNotParsed();
  }
}
