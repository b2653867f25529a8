/**
 * The issue-key parser of utils/parser.go: `ParseIssueKey` splits a key such as
 * `PROJ-3` on `-` with strings.Split and converts the number with strconv.Atoi.
 * Both library calls are modelled here exactly, together with the `%d`
 * rendering that the fetcher uses to build candidate keys.
 */
module Parser {
  import opened Wrappers
  import opened GoStrings

  /** Largest and smallest value of Go's `int` on a 64-bit platform. */
  const MaxInt: int := 0x7FFF_FFFF_FFFF_FFFF
  const MinInt: int := -0x8000_0000_0000_0000

  /** Number of occurrences of `c` in `s`. */
  function Count(s: string, c: char): nat
  {
    if s == [] then 0 else (if s[0] == c then 1 else 0) + Count(s[1..], c)
  }

  /**
   * strings.Split(s, sep) for a one-character separator: the maximal
   * separator-free pieces of `s`, one more than there are separators.
   */
  function Split(s: string, c: char): (parts: seq<string>)
    ensures |parts| == Count(s, c) + 1
    ensures forall i :: 0 <= i < |parts| ==> c !in parts[i]
    ensures Join(parts, [c]) == s
  {
    if s == [] then [""]
    else
      var rest := Split(s[1..], c);
      if s[0] == c then
        [""] + rest
      else
        var parts := [[s[0]] + rest[0]] + rest[1..];
        assert parts[1..] == rest[1..];
        assert s == [s[0]] + s[1..];
        parts
  }

  lemma {:induction false} SplitFree(s: string, c: char)
    requires c !in s
    ensures Split(s, c) == [s]
  {
    if s != [] {
      SplitFree(s[1..], c);
      assert [s[0]] + s[1..] == s;
    }
  }

  lemma {:induction false} SplitAfterSeparator(p: string, t: string, c: char)
    requires c !in p
    ensures Split(p + [c] + t, c) == [p] + Split(t, c)
  {
    if p == [] {
      assert p + [c] + t == [c] + t;
    } else {
      var s := p + [c] + t;
      assert s[0] == p[0] && s[1..] == p[1..] + [c] + t;
      SplitAfterSeparator(p[1..], t, c);
      var rest := Split(s[1..], c);
      assert rest[0] == p[1..] && rest[1..] == Split(t, c);
      assert [p[0]] + p[1..] == p;
    }
  }

  /** A string with exactly one separator splits into the text before and after it. */
  lemma SplitAtOnlySeparator(p: string, t: string, c: char)
    requires c !in p && c !in t
    ensures Split(p + [c] + t, c) == [p, t]
  {
    SplitAfterSeparator(p, t, c);
    SplitFree(t, c);
  }

  predicate IsDigit(ch: char)
  {
    '0' <= ch <= '9'
  }

  predicate AllDigits(s: string)
  {
    forall i :: 0 <= i < |s| ==> IsDigit(s[i])
  }

  /** Value of a string of decimal digits, most significant first; leading zeros add nothing. */
  function DigitsValue(s: string): nat
    requires AllDigits(s)
  {
    if s == [] then 0 else DigitsValue(s[..|s| - 1]) * 10 + (s[|s| - 1] as int - '0' as int)
  }

  /** Outcome of strconv.Atoi: the value, or which of its two errors it reports. */
  datatype AtoiResult = Number(value: int) | SyntaxError | RangeError

  /** The largest value strconv.ParseUint accumulates before it reports a range error. */
  const MaxUint64: int := 0xFFFF_FFFF_FFFF_FFFF

  /**
   * strconv.Atoi(s): an optional `+` or `-` followed by one or more decimal
   * digits (leading zeros allowed), whose value must fit in a 64-bit `int`.
   * The digits are read left to right and the range is checked as they are
   * accumulated, so a run of digits past 2^64 - 1 is a range error even when
   * a non-digit follows it.
   */
  function Atoi(s: string): (r: AtoiResult)
    ensures r.Number? ==> MinInt <= r.value <= MaxInt
    ensures r.Number? && '-' !in s ==> r.value >= 0
    ensures r.Number? ==> IsIntLiteral(s) && r.value == LiteralValue(s)
    ensures IsIntLiteral(s) ==> (r.Number? <==> MinInt <= LiteralValue(s) <= MaxInt)
  {
    if IsIntLiteral(s) then
      var n := LiteralValue(s);
      if n < MinInt || MaxInt < n then RangeError else Number(n)
    else if DigitRunOverflows(s) then RangeError
    else SyntaxError
  }

  /**
   * Which error Atoi reports: a syntax error exactly when the text is not a
   * literal and its digit run does not overflow first; otherwise a range
   * error, for a digit run past 2^64 - 1 or a literal outside the `int` range.
   */
  lemma AtoiErrors(s: string)
    ensures Atoi(s).SyntaxError? <==> !IsIntLiteral(s) && !DigitRunOverflows(s)
    ensures Atoi(s).RangeError? <==>
      DigitRunOverflows(s) || (IsIntLiteral(s) && (LiteralValue(s) < MinInt || MaxInt < LiteralValue(s)))
  {
    if IsIntLiteral(s) {
      LeadingDigitsOfDigits(Unsigned(s));
    }
  }

  /** The digits after the optional sign, up to the first non-digit, are worth more than 2^64 - 1. */
  predicate DigitRunOverflows(s: string)
  {
    s != [] && DigitsValue(LeadingDigits(Unsigned(s))) > MaxUint64
  }

  /** The longest prefix of `s` made of decimal digits. */
  function LeadingDigits(s: string): (d: string)
    ensures AllDigits(d) && d <= s
  {
    if s == [] || !IsDigit(s[0]) then [] else [s[0]] + LeadingDigits(s[1..])
  }

  /** A string of digits is its own digit run. */
  lemma {:induction false} LeadingDigitsOfDigits(s: string)
    requires AllDigits(s)
    ensures LeadingDigits(s) == s
  {
    if s != [] {
      LeadingDigitsOfDigits(s[1..]);
    }
  }

  /**
   * A run of digits worth more than 2^64 - 1 is a range error whatever
   * follows it: the non-digit after it is never reached.
   */
  lemma AtoiOverflowBeforeNonDigit(d: string, t: string)
    requires AllDigits(d) && DigitsValue(d) > MaxUint64
    requires t != [] && !IsDigit(t[0])
    ensures Atoi(d + t) == RangeError
  {
    assert d != [] && (d + t)[0] == d[0];
    assert Unsigned(d + t) == d + t;
    assert (d + t)[|d|] == t[0];
    assert !IsIntLiteral(d + t);
    DigitsThenOther(d, t);
  }

  lemma {:induction false} DigitsThenOther(d: string, t: string)
    requires AllDigits(d) && t != [] && !IsDigit(t[0])
    ensures LeadingDigits(d + t) == d
  {
    if d != [] {
      assert (d + t)[0] == d[0] && (d + t)[1..] == d[1..] + t;
      DigitsThenOther(d[1..], t);
    } else {
      assert d + t == t;
    }
  }

  /** An optional sign followed by at least one decimal digit. */
  predicate IsIntLiteral(s: string)
  {
    s != [] && Unsigned(s) != [] && AllDigits(Unsigned(s))
  }

  /** The value a literal denotes, negated after a leading `-`. */
  function LiteralValue(s: string): int
    requires IsIntLiteral(s)
  {
    if s[0] == '-' then -(DigitsValue(Unsigned(s)) as int) else DigitsValue(Unsigned(s))
  }

  /** The text after an optional leading sign. */
  function Unsigned(s: string): string
    requires s != []
  {
    if s[0] == '-' || s[0] == '+' then s[1..] else s
  }

  function DigitChar(d: nat): char
    requires d < 10
  {
    ('0' as int + d) as char
  }

  /**
   * Go's `%d` rendering of a non-negative integer: decimal digits without
   * leading zeros, whose value is the number rendered.
   */
  function DecimalString(n: nat): (s: string)
    ensures s != [] && AllDigits(s)
    ensures DigitsValue(s) == n
    ensures s[0] == '0' ==> n == 0
  {
    if n < 10 then
      [DigitChar(n)]
    else
      var s := DecimalString(n / 10) + [DigitChar(n % 10)];
      assert s[..|s| - 1] == DecimalString(n / 10);
      s
  }

  /** Zero is rendered as the one digit `0`, not with any further zero. */
  lemma DecimalStringZero()
    ensures DecimalString(0) == "0"
  {
  }

  /** `fmt.Sprintf("%s-%d", prefix, n)`, the candidate key the fetcher asks for. */
  function FormatKey(prefix: string, n: nat): string
  {
    prefix + "-" + DecimalString(n)
  }

  /** The three error returns of ParseIssueKey, in the order they are checked. */
  datatype ParseError = InvalidFormat | EmptySegment | InvalidNumber

  /** The triple (prefix, number, err) that ParseIssueKey returns. */
  datatype ParsedKey = ParsedKey(prefix: string, number: int, err: Option<ParseError>)

  /**
   * ParseIssueKey: exactly one `-`, both sides non-empty, the number side
   * accepted by Atoi. Every error return carries prefix "" and number 0;
   * a success returns the text before the hyphen and a non-negative number.
   */
  function ParseIssueKey(issueKey: string): (r: ParsedKey)
    ensures r.err.Some? ==> r.prefix == "" && r.number == 0
    ensures r.err == Some(InvalidFormat) <==> Count(issueKey, '-') != 1
    ensures r.err.None? ==>
      r.prefix != "" && '-' !in r.prefix && 0 <= r.number <= MaxInt &&
      |r.prefix| < |issueKey| && issueKey[..|r.prefix| + 1] == r.prefix + "-" &&
      Atoi(issueKey[|r.prefix| + 1..]) == Number(r.number)
  {
    var parts := Split(issueKey, '-');
    if |parts| != 2 then
      ParsedKey("", 0, Some(InvalidFormat))
    else if parts[0] == "" || parts[1] == "" then
      ParsedKey("", 0, Some(EmptySegment))
    else
      assert Join(parts[1..], "-") == parts[1];
      assert issueKey == parts[0] + "-" + parts[1];
      assert issueKey[|parts[0]| + 1..] == parts[1];
      match Atoi(parts[1])
      case Number(n) => ParsedKey(parts[0], n, None)
      case _ => ParsedKey("", 0, Some(InvalidNumber))
  }

  /**
   * The keys with exactly one hyphen, `p + "-" + t`: an empty side is an
   * EmptySegment error; otherwise the key parses exactly when Atoi accepts
   * `t`, to the prefix `p` verbatim and Atoi's value, and fails with
   * InvalidNumber when it does not.
   */
  lemma ParseOneHyphen(p: string, t: string)
    requires '-' !in p && '-' !in t
    ensures var r := ParseIssueKey(p + "-" + t);
      && (p == "" || t == "" ==> r.err == Some(EmptySegment))
      && (p != "" && t != "" ==>
            && (r.err.None? <==> Atoi(t).Number?)
            && (r.err.None? ==> r.prefix == p && r.number == Atoi(t).value)
            && (r.err.Some? ==> r.err == Some(InvalidNumber)))
  {
    SplitAtOnlySeparator(p, t, '-');
  }

  lemma {:induction false} CountConcat(a: string, b: string, c: char)
    ensures Count(a + b, c) == Count(a, c) + Count(b, c)
  {
    if a == [] {
      assert a + b == b;
    } else {
      CountConcat(a[1..], b, c);
      assert (a + b)[1..] == a[1..] + b;
    }
  }

  /** A character is counted zero times exactly when it does not occur. */
  lemma {:induction false} CountAbsent(s: string, c: char)
    ensures Count(s, c) == 0 <==> c !in s
  {
    if s != [] {
      CountAbsent(s[1..], c);
      assert s == [s[0]] + s[1..];
    }
  }

  /** A key without a hyphen is malformed. */
  lemma ParseRejectsNoHyphen(k: string)
    requires '-' !in k
    ensures ParseIssueKey(k) == ParsedKey("", 0, Some(InvalidFormat))
  {
    CountAbsent(k, '-');
  }

  /** A key with a second hyphen after the first is malformed, whatever surrounds them. */
  lemma ParseRejectsSecondHyphen(p: string, t: string)
    requires '-' in t
    ensures ParseIssueKey(p + "-" + t) == ParsedKey("", 0, Some(InvalidFormat))
  {
    CountConcat(p, "-", '-');
    CountConcat(p + "-", t, '-');
    CountAbsent(t, '-');
  }

  /** A number part of plain digits, leading zeros included, parses to their value. */
  lemma ParseDigitsKey(p: string, t: string)
    requires p != "" && '-' !in p
    requires t != "" && AllDigits(t) && DigitsValue(t) <= MaxInt
    ensures ParseIssueKey(p + "-" + t) == ParsedKey(p, DigitsValue(t), None)
  {
    ParseOneHyphen(p, t);
    assert Unsigned(t) == t by { assert IsDigit(t[0]); }
  }

  /** A number part that starts with a digit but holds a non-digit is refused. */
  lemma ParseNonDigitKey(p: string, t: string, i: nat)
    requires p != "" && '-' !in p && '-' !in t
    requires i < |t| && IsDigit(t[0]) && !IsDigit(t[i])
    ensures ParseIssueKey(p + "-" + t) == ParsedKey("", 0, Some(InvalidNumber))
  {
    ParseOneHyphen(p, t);
    assert Unsigned(t) == t;
  }

  lemma DecimalStringIsAtoiLiteral(n: nat)
    requires n <= MaxInt
    ensures Atoi(DecimalString(n)) == Number(n)
  {
    var s := DecimalString(n);
    assert IsDigit(s[0]);
  }

  /**
   * Round trip: for a non-empty, hyphen-free prefix, parsing the key the
   * fetcher renders for number `n` gives back the prefix and `n`.
   */
  lemma ParseFormatRoundTrip(prefix: string, n: nat)
    requires prefix != "" && '-' !in prefix && n <= MaxInt
    ensures ParseIssueKey(FormatKey(prefix, n)) == ParsedKey(prefix, n, None)
  {
    var s := DecimalString(n);
    forall i | 0 <= i < |s| ensures s[i] != '-' {
      assert IsDigit(s[i]);
    }
    ParseOneHyphen(prefix, s);
    DecimalStringIsAtoiLiteral(n);
  }

  /** Distinct candidate numbers give distinct keys: the fetcher never asks twice for one key. */
  lemma FormatKeyInjective(prefix: string, m: nat, n: nat)
    requires m != n
    ensures FormatKey(prefix, m) != FormatKey(prefix, n)
  {
    var s, t := DecimalString(m), DecimalString(n);
    assert s == FormatKey(prefix, m)[|prefix| + 1..];
    assert t == FormatKey(prefix, n)[|prefix| + 1..];
  }
}
