/** The literal helpers of the translator: wildcard classification and
    stripping, and the type-guessing coercion of a raw RSQL value. */
module Utils {
  import opened Wrappers
  import opened JsonValue

  /** The ways a translation can throw. */
  datatype Error =
    | UnknownNodeType(nodeType: string)   // a node that is neither COMPARISON nor LOGIC
    | UnknownOperator(operator: string)   // a comparison token missing from the operator map
    | MalformedJson(text: string)         // `JSON.parse` rejected a bracketed value

  /** The foreign code the helpers call, as parameters: `getScalarValue`
      (not part of this model), whether `Date.parse` yields a timestamp
      rather than NaN, and `JSON.parse` (`None` when it throws). */
  datatype Host = Host(
    scalarValue: string -> Json,
    dateParses: string -> bool,
    parseJson: string -> Option<Json>)

  /** What `JSON.parse` can return for a text bracketed by `[]` or `{}`
      (the only texts `coerceValue` hands it): an array or an object. */
  ghost predicate ParsesToContainers(host: Host) {
    forall s | IsBracketed(s) :: host.parseJson(s).Some? ==> host.parseJson(s).value.JArr? || host.parseJson(s).value.JObj?
  }

  const RsqlWildcard: char := '*'
  const OrmWildcard: string := ""

  // ---------------------------------------------------------------------
  // Wildcards

  predicate StartsWithWildcard(value: string) {
    |value| > 0 && value[0] == RsqlWildcard
  }

  predicate EndsWithWildcard(value: string) {
    |value| > 0 && value[|value| - 1] == RsqlWildcard
  }

  predicate IsLike(value: string) {
    StartsWithWildcard(value) && EndsWithWildcard(value)
  }

  predicate IsStartsWith(value: string) {
    !StartsWithWildcard(value) && EndsWithWildcard(value)
  }

  predicate IsEndsWith(value: string) {
    StartsWithWildcard(value) && !EndsWithWildcard(value)
  }

  /** The three classes are pairwise exclusive, and a value with a `*` at
      either end falls in exactly one of them; a value with none falls in
      none. */
  lemma WildcardClassesExclusive(value: string)
    ensures !(IsLike(value) && IsStartsWith(value))
    ensures !(IsLike(value) && IsEndsWith(value))
    ensures !(IsStartsWith(value) && IsEndsWith(value))
    ensures IsLike(value) || IsStartsWith(value) || IsEndsWith(value)
      <==> StartsWithWildcard(value) || EndsWithWildcard(value)
  {
  }

  /** `convertWildcards`: drops one leading `*`, then one trailing `*` of
      what is left.  A value with no `*` at either end comes back unchanged;
      otherwise the result is a contiguous piece of the value at most two
      characters shorter. */
  function ConvertWildcards(value: string): (r: string)
    ensures !StartsWithWildcard(value) && !EndsWithWildcard(value) ==> r == value
    ensures |value| - 2 <= |r| <= |value|
    ensures var lead := if StartsWithWildcard(value) then 1 else 0;
      lead + |r| <= |value| && r == value[lead..lead + |r|]
  {
    var converted := if StartsWithWildcard(value) then OrmWildcard + value[1..] else value;
    if EndsWithWildcard(converted) then converted[..|converted| - 1] + OrmWildcard else converted
  }

  /** Stripping undoes wrapping a literal in wildcards. */
  lemma ConvertWildcardsRoundTrip(x: string)
    ensures ConvertWildcards([RsqlWildcard] + x + [RsqlWildcard]) == x
    ensures !EndsWithWildcard(x) ==> ConvertWildcards([RsqlWildcard] + x) == x
    ensures !StartsWithWildcard(x) ==> ConvertWildcards(x + [RsqlWildcard]) == x
  {
    var both := [RsqlWildcard] + x + [RsqlWildcard];
    assert both[1..] == x + [RsqlWildcard];
    assert (x + [RsqlWildcard])[..|x|] == x;
    assert ([RsqlWildcard] + x)[1..] == x;
  }

  // ---------------------------------------------------------------------
  // String.prototype.trim

  /** ECMAScript WhiteSpace and LineTerminator code points, the characters
      `trim` removes. */
  predicate IsJsWhitespace(c: char) {
    c in JsWhitespace
  }

  const JsWhitespace: set<char> := {
    '\t', '\n', '\U{000B}', '\U{000C}', '\r', ' ', '\U{00A0}', '\U{1680}',
    '\U{2000}', '\U{2001}', '\U{2002}', '\U{2003}', '\U{2004}', '\U{2005}',
    '\U{2006}', '\U{2007}', '\U{2008}', '\U{2009}', '\U{200A}',
    '\U{2028}', '\U{2029}', '\U{202F}', '\U{205F}', '\U{3000}', '\U{FEFF}'}

  /** The number of white-space characters `s` starts with. */
  function LeadingSpace(s: string): (n: nat)
    ensures n <= |s|
    ensures forall i | 0 <= i < n :: IsJsWhitespace(s[i])
    ensures n < |s| ==> !IsJsWhitespace(s[n])
    decreases |s|
  {
    if s != [] && IsJsWhitespace(s[0]) then
      var n := LeadingSpace(s[1..]);
      assert forall i | 1 <= i < n + 1 :: s[i] == s[1..][i - 1];
      n + 1
    else 0
  }

  /** The number of white-space characters `s` ends with. */
  function TrailingSpace(s: string): (n: nat)
    ensures n <= |s|
    ensures forall i | |s| - n <= i < |s| :: IsJsWhitespace(s[i])
    ensures n < |s| ==> !IsJsWhitespace(s[|s| - n - 1])
    decreases |s|
  {
    if s != [] && IsJsWhitespace(s[|s| - 1]) then
      var n := TrailingSpace(s[..|s| - 1]);
      assert forall i | |s| - n - 1 <= i < |s| - 1 :: s[i] == s[..|s| - 1][i];
      n + 1
    else 0
  }

  /** `value.trim()`: the value without its leading and trailing white
      space.  The result is the slice of `s` between the two, it neither
      starts nor ends with white space, and everything cut off is white
      space (a value made of white space only trims to ""). */
  function Trim(s: string): (r: string)
    ensures var a := LeadingSpace(s);
      a + |r| <= |s| && r == s[a..a + |r|] &&
      (forall i | a + |r| <= i < |s| :: IsJsWhitespace(s[i]))
    ensures r != [] ==> !IsJsWhitespace(r[0]) && !IsJsWhitespace(r[|r| - 1])
  {
    var a := LeadingSpace(s);
    var b := TrailingSpace(s[a..]);
    SpaceAround(s, a, b);
    s[a..][..|s| - a - b]
  }

  /** Cutting `a` leading and `b` trailing white-space characters off `s`
      leaves the slice between them, which starts and ends with no white
      space when the counts are maximal. */
  lemma SpaceAround(s: string, a: nat, b: nat)
    requires a + b <= |s|
    requires a < |s| ==> !IsJsWhitespace(s[a])
    requires forall i | |s| - a - b <= i < |s| - a :: IsJsWhitespace(s[a..][i])
    requires b < |s| - a ==> !IsJsWhitespace(s[a..][|s| - a - b - 1])
    ensures var r := s[a..][..|s| - a - b];
      r == s[a..a + |r|] && (forall i | a + |r| <= i < |s| :: IsJsWhitespace(s[i])) &&
      (r != [] ==> !IsJsWhitespace(r[0]) && !IsJsWhitespace(r[|r| - 1]))
  {
    var t := s[a..];
    forall i | |s| - b <= i < |s| ensures IsJsWhitespace(s[i]) {
      assert s[i] == t[i - a];
    }
  }

  /** A value that neither starts nor ends with white space is its own
      trim. */
  lemma TrimUnpadded(s: string)
    requires s != [] && !IsJsWhitespace(s[0]) && !IsJsWhitespace(s[|s| - 1])
    ensures Trim(s) == s
  {
    assert LeadingSpace(s) == 0 && s[0..] == s;
    assert TrailingSpace(s) == 0;
  }

  /** Trimming twice is trimming once. */
  lemma TrimIdempotent(s: string)
    ensures Trim(Trim(s)) == Trim(s)
  {
    var r := Trim(s);
    if r != [] {
      TrimUnpadded(r);
    } else {
      assert LeadingSpace(r) == 0;
    }
  }

  /** A value whose first character is not white space keeps that first
      character when trimmed. */
  lemma TrimKeepsFirst(s: string)
    requires s != [] && !IsJsWhitespace(s[0])
    ensures Trim(s) != [] && Trim(s)[0] == s[0]
  {
    assert LeadingSpace(s) == 0;
  }

  // ---------------------------------------------------------------------
  // The literals `Number(...)`, `toLocaleLowerCase` and the date regex accept

  function LowerAscii(c: char): char {
    if 'A' <= c <= 'Z' then (c as int + 32) as char else c
  }

  /** `t.toLocaleLowerCase() === word` for an all-lower-case ASCII `word`
      (no other character lower-cases to one of its letters). */
  predicate EqualsIgnoringCase(t: string, word: string) {
    |t| == |word| && forall i | 0 <= i < |t| :: LowerAscii(t[i]) == word[i]
  }

  predicate IsBooleanWord(t: string) {
    EqualsIgnoringCase(t, "true") || EqualsIgnoringCase(t, "false")
  }

  predicate IsDigit(c: char) {
    '0' <= c <= '9'
  }

  predicate AllSatisfy(s: string, p: char -> bool) {
    forall i | 0 <= i < |s| :: p(s[i])
  }

  /** The number of decimal digits `s` starts with. */
  function LeadingDigits(s: string): (n: nat)
    ensures n <= |s|
    ensures forall i | 0 <= i < n :: IsDigit(s[i])
    ensures n < |s| ==> !IsDigit(s[n])
  {
    if s != [] && IsDigit(s[0]) then 1 + LeadingDigits(s[1..]) else 0
  }

  /** SignedInteger of an exponent: an optional sign, then digits. */
  predicate IsSignedInteger(s: string) {
    var digits := if |s| > 0 && (s[0] == '+' || s[0] == '-') then s[1..] else s;
    |digits| > 0 && AllSatisfy(digits, IsDigit)
  }

  /** An optional ExponentPart: nothing, or `e`/`E` and a signed integer. */
  predicate IsOptionalExponent(s: string) {
    s == [] || ((s[0] == 'e' || s[0] == 'E') && IsSignedInteger(s[1..]))
  }

  /** StrUnsignedDecimalLiteral: `Infinity`, `12`, `12.`, `12.5`, `.5`, each
      with an optional exponent. */
  predicate IsUnsignedDecimal(u: string) {
    if u == "Infinity" then true
    else
      var a := LeadingDigits(u);
      var rest := u[a..];
      if rest != [] && rest[0] == '.' then
        var b := LeadingDigits(rest[1..]);
        (a > 0 || b > 0) && IsOptionalExponent(rest[1..][b..])
      else
        a > 0 && IsOptionalExponent(rest)
  }

  predicate IsHexDigit(c: char) {
    IsDigit(c) || 'a' <= c <= 'f' || 'A' <= c <= 'F'
  }

  predicate IsOctalDigit(c: char) {
    '0' <= c <= '7'
  }

  predicate IsBinaryDigit(c: char) {
    c == '0' || c == '1'
  }

  /** NonDecimalIntegerLiteral: `0x1F`, `0o17`, `0b101` (no sign). */
  predicate IsNonDecimalInteger(s: string) {
    |s| > 2 && s[0] == '0' &&
    ((s[1] in {'x', 'X'} && AllSatisfy(s[2..], IsHexDigit)) ||
     (s[1] in {'o', 'O'} && AllSatisfy(s[2..], IsOctalDigit)) ||
     (s[1] in {'b', 'B'} && AllSatisfy(s[2..], IsBinaryDigit)))
  }

  /** `!isNaN(+t)` for a non-empty string without surrounding white space:
      `t` is a StringNumericLiteral of ECMAScript. */
  predicate IsNumericLiteral(t: string) {
    IsNonDecimalInteger(t) ||
    (if |t| > 0 && (t[0] == '+' || t[0] == '-') then IsUnsignedDecimal(t[1..]) else IsUnsignedDecimal(t))
  }

  /** `/^\d{4}-\d{2}-\d{2}(T[\d:.+-Z+])?$/`: a calendar date, optionally
      followed by `T` and exactly one character of the class, which is the
      range `+`..`Z` (it contains the digits, `:` and `.`). */
  predicate IsIsoDateShape(t: string) {
    (|t| == 10 || (|t| == 12 && t[10] == 'T' && '+' <= t[11] <= 'Z')) &&
    IsDigit(t[0]) && IsDigit(t[1]) && IsDigit(t[2]) && IsDigit(t[3]) && t[4] == '-' &&
    IsDigit(t[5]) && IsDigit(t[6]) && t[7] == '-' && IsDigit(t[8]) && IsDigit(t[9])
  }

  predicate IsBracketed(value: string) {
    |value| > 0 &&
    ((value[0] == '[' && value[|value| - 1] == ']') ||
     (value[0] == '{' && value[|value| - 1] == '}'))
  }

  predicate HasLeadingZero(t: string) {
    |t| > 1 && t[0] == '0'
  }

  /** `coerceValue`: guesses the type of a raw value.  On the trimmed value,
      in this order: a boolean word in any letter case, a number literal
      without a leading zero, a date of the ISO shape that `Date.parse`
      accepts; on the untrimmed value, a bracketed JSON literal; otherwise
      the untrimmed value itself. */
  function CoerceValue(value: string, host: Host): Result<Json, Error> {
    var trimmed := Trim(value);
    if EqualsIgnoringCase(trimmed, "true") then Ok(JBool(true))
    else if EqualsIgnoringCase(trimmed, "false") then Ok(JBool(false))
    else if trimmed != "" && IsNumericLiteral(trimmed) && !HasLeadingZero(trimmed) then Ok(JNum(trimmed))
    else if IsIsoDateShape(trimmed) && host.dateParses(trimmed) then Ok(JDate(trimmed))
    else if IsBracketed(value) then
      match host.parseJson(value)
      case Some(parsed) => Ok(parsed)
      case None => Err(MalformedJson(value))
    else Ok(JStr(value))
  }

  // ---------------------------------------------------------------------
  // What coerceValue promises

  lemma BooleanWordIsNotNumeric(t: string)
    requires IsBooleanWord(t)
    ensures !IsNumericLiteral(t) && !IsIsoDateShape(t)
  {
    assert LowerAscii(t[0]) in {'t', 'f'};
    assert t[0] in {'t', 'T', 'f', 'F'};
    assert LeadingDigits(t) == 0;
  }

  lemma DateShapeIsNotNumeric(t: string)
    requires IsIsoDateShape(t)
    ensures !IsNumericLiteral(t) && !IsBooleanWord(t)
  {
    assert LeadingDigits(t[1..][1..][1..][1..]) == 0;
    assert LeadingDigits(t[1..][1..][1..]) == 1;
    assert LeadingDigits(t[1..][1..]) == 2;
    assert LeadingDigits(t[1..]) == 3;
    assert LeadingDigits(t) == 4;
    assert t[4..][0] == '-';
  }

  /** A trimmed value that starts with a bracket is no boolean, number or
      date. */
  lemma BracketIsNotScalar(t: string)
    requires t != [] && (t[0] == '[' || t[0] == '{')
    ensures !IsBooleanWord(t) && !IsNumericLiteral(t) && !IsIsoDateShape(t)
  {
    assert LeadingDigits(t) == 0;
  }

  /** The boolean rule comes before every other: a trimmed `true`/`false`
      in any letter case gives that boolean, and nothing else gives a
      boolean. */
  lemma CoerceBoolean(value: string, host: Host)
    requires ParsesToContainers(host)
    ensures IsBooleanWord(Trim(value)) ==>
      CoerceValue(value, host) == Ok(JBool(EqualsIgnoringCase(Trim(value), "true")))
    ensures CoerceValue(value, host).Ok? && CoerceValue(value, host).value.JBool? ==>
      IsBooleanWord(Trim(value))
  {
    if IsBooleanWord(Trim(value)) {
      assert !(EqualsIgnoringCase(Trim(value), "true") && EqualsIgnoringCase(Trim(value), "false"));
    }
  }

  /** A number literal without a leading zero becomes that number. */
  lemma CoerceNumber(value: string, host: Host)
    requires Trim(value) != "" && IsNumericLiteral(Trim(value)) && !HasLeadingZero(Trim(value))
    ensures CoerceValue(value, host) == Ok(JNum(Trim(value)))
  {
    if IsBooleanWord(Trim(value)) {
      BooleanWordIsNotNumeric(Trim(value));
    }
  }

  /** An empty or all-white-space value, and a trimmed value of two or more
      characters starting with `0` (`007`, `0.5`), never become a number. */
  lemma CoerceNeverNumber(value: string, host: Host)
    requires Trim(value) == "" || HasLeadingZero(Trim(value))
    ensures !(CoerceValue(value, host).Ok? && CoerceValue(value, host).value.JNum?)
  {
    if IsBracketed(value) {
      TrimKeepsFirst(value);
    }
  }

  /** A date is only attempted for the ISO shape, and a number literal is
      decided first; a shaped value that `Date.parse` accepts becomes a
      date. */
  lemma CoerceDate(value: string, host: Host)
    requires ParsesToContainers(host)
    ensures IsIsoDateShape(Trim(value)) && host.dateParses(Trim(value)) ==>
      CoerceValue(value, host) == Ok(JDate(Trim(value)))
    ensures CoerceValue(value, host).Ok? && CoerceValue(value, host).value.JDate? ==>
      IsIsoDateShape(Trim(value)) && !IsNumericLiteral(Trim(value))
  {
    if IsIsoDateShape(Trim(value)) {
      DateShapeIsNotNumeric(Trim(value));
    }
  }

  /** A value bracketed by `[]` or `{}` (tested untrimmed) is handed to
      `JSON.parse`, whose failure is the translation's failure. */
  lemma CoerceJson(value: string, host: Host)
    requires IsBracketed(value)
    ensures CoerceValue(value, host) ==
      match host.parseJson(value)
      case Some(parsed) => Ok(parsed)
      case None => Err(MalformedJson(value))
  {
    TrimKeepsFirst(value);
    BracketIsNotScalar(Trim(value));
  }

  /** When no rule applies the untrimmed value comes back as a string; and
      a string result is always the untrimmed value. */
  lemma CoerceRawString(value: string, host: Host)
    requires ParsesToContainers(host)
    ensures !IsBooleanWord(Trim(value)) && !(IsNumericLiteral(Trim(value)) && !HasLeadingZero(Trim(value)))
      && !(IsIsoDateShape(Trim(value)) && host.dateParses(Trim(value))) && !IsBracketed(value)
      ==> CoerceValue(value, host) == Ok(JStr(value))
    ensures CoerceValue(value, host).Ok? && CoerceValue(value, host).value.JStr? ==>
      CoerceValue(value, host).value.s == value
  {
  }

  /** The bracket test sees the untrimmed value: a value that is
      bracketed only once trimmed (` [1]`, `{} `) stays a string, white
      space included. */
  lemma CoerceBracketAfterSpace(value: string, host: Host)
    requires IsBracketed(Trim(value)) && !IsBracketed(value)
    ensures CoerceValue(value, host) == Ok(JStr(value))
  {
    BracketIsNotScalar(Trim(value));
  }
}
