/**
 * The table of internal/utils/parser_test.go, and two inputs the table does
 * not try, stated of ParseIssueKey. Each concrete key is handed to a helper
 * as a parameter, which keeps the verifier from evaluating the parser on the
 * literal.
 */
module ParserScenarios {
  import opened Wrappers
  import opened Parser

  lemma Accepts(k: string, p: string, n: nat)
    requires p != "" && '-' !in p && n <= MaxInt && k == FormatKey(p, n)
    ensures ParseIssueKey(k) == ParsedKey(p, n, None)
  {
    ParseFormatRoundTrip(p, n);
  }

  lemma Rejects(k: string, p: string, t: string, e: ParseError)
    requires k == p + "-" + t
    requires e == InvalidFormat ==> '-' in t
    requires e == EmptySegment ==> '-' !in p && '-' !in t && (p == "" || t == "")
    requires e != InvalidNumber
    ensures ParseIssueKey(k) == ParsedKey("", 0, Some(e))
  {
    if e == InvalidFormat {
      ParseRejectsSecondHyphen(p, t);
    } else {
      ParseOneHyphen(p, t);
    }
  }

  lemma RejectsNonDigit(k: string, p: string, t: string, i: nat)
    requires k == p + "-" + t
    requires p != "" && '-' !in p && '-' !in t && i < |t| && IsDigit(t[0]) && !IsDigit(t[i])
    ensures ParseIssueKey(k) == ParsedKey("", 0, Some(InvalidNumber))
  {
    ParseNonDigitKey(p, t, i);
  }

  lemma RejectsLetters(k: string, p: string, t: string)
    requires k == p + "-" + t && p == "ABC" && t == "XYZ"
    ensures ParseIssueKey(k) == ParsedKey("", 0, Some(InvalidNumber))
  {
    ParseOneHyphen(p, t);
    assert Unsigned(t) == t && !IsDigit(t[0]);
  }

  // Well-formed keys: the prefix verbatim, lower case included, and the number.

  lemma ParseAcceptsAbc123()
    ensures ParseIssueKey("ABC-123") == ParsedKey("ABC", 123, None)
  {
    Accepts("ABC-123", "ABC", 123);
  }

  lemma ParseAcceptsDev1()
    ensures ParseIssueKey("DEV-1") == ParsedKey("DEV", 1, None)
  {
    Accepts("DEV-1", "DEV", 1);
  }

  lemma ParseAcceptsProj9999()
    ensures ParseIssueKey("PROJ-9999") == ParsedKey("PROJ", 9999, None)
  {
    Accepts("PROJ-9999", "PROJ", 9999);
  }

  /** The case of the prefix is not checked. */
  lemma ParseAcceptsLowerCase()
    ensures ParseIssueKey("test-123") == ParsedKey("test", 123, None)
  {
    Accepts("test-123", "test", 123);
  }

  // Malformed keys: no hyphen, two hyphens, an empty side, a number Atoi refuses.

  lemma ParseRejectsEmpty()
    ensures ParseIssueKey("").err == Some(InvalidFormat)
  {
    ParseRejectsNoHyphen("");
  }

  lemma ParseRejectsUnhyphenated()
    ensures ParseIssueKey("ABC123").err == Some(InvalidFormat)
  {
    ParseRejectsNoHyphen("ABC123");
  }

  lemma ParseRejectsTwoHyphens()
    ensures ParseIssueKey("ABC-123-XYZ").err == Some(InvalidFormat)
  {
    Rejects("ABC-123-XYZ", "ABC", "123-XYZ", InvalidFormat);
  }

  lemma ParseRejectsDoubleHyphen()
    ensures ParseIssueKey("ABC--123").err == Some(InvalidFormat)
  {
    Rejects("ABC--123", "ABC", "-123", InvalidFormat);
  }

  lemma ParseRejectsMissingPrefix()
    ensures ParseIssueKey("-123").err == Some(EmptySegment)
  {
    Rejects("-123", "", "123", EmptySegment);
  }

  lemma ParseRejectsMissingNumber()
    ensures ParseIssueKey("ABC-").err == Some(EmptySegment)
  {
    Rejects("ABC-", "ABC", "", EmptySegment);
  }

  lemma ParseRejectsLetters()
    ensures ParseIssueKey("ABC-XYZ").err == Some(InvalidNumber)
  {
    RejectsLetters("ABC-XYZ", "ABC", "XYZ");
  }

  lemma ParseRejectsDecimal()
    ensures ParseIssueKey("ABC-123.45").err == Some(InvalidNumber)
  {
    RejectsNonDigit("ABC-123.45", "ABC", "123.45", 3);
  }

  /** Atoi's leading zeros reach the parser: `ABC-007` is issue 7 of ABC. */
  lemma ParseAcceptsLeadingZeros()
    ensures ParseIssueKey("ABC-007") == ParsedKey("ABC", 7, None)
  {
    ZerosThenSeven("ABC-007", "ABC", "007");
  }

  lemma ZerosThenSeven(k: string, p: string, t: string)
    requires k == p + "-" + t && p == "ABC" && t == "007"
    ensures ParseIssueKey(k) == ParsedKey("ABC", 7, None)
  {
    assert t[..2] == "00" && "00"[..1] == "0" && "0"[..0] == "";
    assert DigitsValue("0") == 0 && DigitsValue("00") == 0;
    ParseDigitsKey(p, t);
  }

  /** Atoi's optional `+` sign reaches the parser: `ABC-+5` is issue 5 of ABC. */
  lemma ParseAcceptsPlusSign()
    ensures ParseIssueKey("ABC-+5") == ParsedKey("ABC", 5, None)
  {
    SignedFive("ABC-+5", "ABC", "+5");
  }

  lemma SignedFive(k: string, p: string, t: string)
    requires k == p + "-" + t && p == "ABC" && t == "+5"
    ensures ParseIssueKey(k) == ParsedKey("ABC", 5, None)
  {
    ParseOneHyphen(p, t);
    assert Unsigned(t) == "5" && "5"[..0] == "";
  }
}
