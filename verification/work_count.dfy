/** Reading the number of works from a search response (`get_work_count` in
    ao3.py), with the network and the HTML parser abstracted away. */
module WorkCount {
  import opened Wrappers

  /** The page region the count is read from: the results heading inside the
      page's main container, if the page has one. */
  datatype MainDiv = MainDiv(heading: Option<string>)

  /** What the search endpoint answered: the HTTP status and, when the page
      has a main container, its contents. */
  datatype Response = Response(status: int, main: Option<MainDiv>)

  datatype FetchError =
    | RateLimited      // HTTP 429, raised as RateLimitedError
    | MissingMainDiv   // no main container: the heading lookup fails on None
    | NoLeadingNumber  // the heading text does not start with a digit

  const TooManyRequests: int := 429

  predicate IsDigit(c: char) {
    '0' <= c <= '9'
  }

  predicate AllDigits(s: string) {
    forall i :: 0 <= i < |s| ==> IsDigit(s[i])
  }

  /** The maximal run of ASCII digits at the start of `s`, as `[0-9]+`
      anchored at the start matches it. */
  function LeadingDigits(s: string): (d: string)
    ensures d <= s
    ensures AllDigits(d)
    ensures |d| == |s| || !IsDigit(s[|d|])
  {
    if |s| == 0 || !IsDigit(s[0]) then "" else [s[0]] + LeadingDigits(s[1..])
  }

  function DigitValue(c: char): nat
    requires IsDigit(c)
  {
    (c as int) - ('0' as int)
  }

  function DigitChar(k: nat): (c: char)
    requires k < 10
    ensures IsDigit(c) && DigitValue(c) == k
  {
    (('0' as int) + k) as char
  }

  /** `int(d)` for a string of ASCII digits, read most significant first. */
  function DigitsValue(d: string): nat
    requires AllDigits(d)
  {
    if |d| == 0 then 0 else 10 * DigitsValue(d[..|d| - 1]) + DigitValue(d[|d| - 1])
  }

  /** The canonical decimal numeral of `n`: digits only, no leading zero. */
  function Decimal(n: nat): (d: string)
    ensures |d| > 0 && AllDigits(d)
    ensures DigitsValue(d) == n
    ensures d[0] == '0' <==> n == 0
  {
    if n < 10 then [DigitChar(n)]
    else
      var d := Decimal(n / 10) + [DigitChar(n % 10)];
      assert d[..|d| - 1] == Decimal(n / 10);
      d
  }

  /** The count shown by the results heading. An absent heading means no
      results; a heading whose text does not start with a digit makes the
      pattern match fail. */
  function ParseCount(heading: Option<string>): (r: Result<nat, FetchError>)
    ensures heading.None? ==> r == Success(0)
    ensures heading.Some? ==>
      (r.Failure? <==> |heading.value| == 0 || !IsDigit(heading.value[0]))
    ensures r.Failure? ==> r.error == NoLeadingNumber
  {
    match heading
    case None => Success(0)
    case Some(text) =>
      if |text| == 0 || !IsDigit(text[0]) then Failure(NoLeadingNumber)
      else Success(DigitsValue(LeadingDigits(text)))
  }

  lemma {:induction false} LeadingDigitsOf(d: string, rest: string)
    requires AllDigits(d)
    requires |rest| == 0 || !IsDigit(rest[0])
    ensures LeadingDigits(d + rest) == d
    decreases |d|
  {
    if |d| == 0 {
      assert d + rest == rest;
    } else {
      assert (d + rest)[1..] == d[1..] + rest;
      LeadingDigitsOf(d[1..], rest);
      assert [d[0]] + d[1..] == d;
    }
  }

  /** A heading that starts with the numeral of `n`, followed by anything
      that is not a digit, reads back as `n`. */
  lemma CountRoundTrip(n: nat, rest: string)
    requires |rest| == 0 || !IsDigit(rest[0])
    ensures ParseCount(Some(Decimal(n) + rest)) == Success(n)
  {
    LeadingDigitsOf(Decimal(n), rest);
  }

  lemma {:induction false} LeadingZeroValue(d: string)
    requires AllDigits(d)
    ensures AllDigits("0" + d) && DigitsValue("0" + d) == DigitsValue(d)
    decreases |d|
  {
    if |d| > 0 {
      var z := "0" + d;
      assert z[..|z| - 1] == "0" + d[..|d| - 1];
      LeadingZeroValue(d[..|d| - 1]);
    }
  }

  /** Leading zeros do not change the count, as with Python's `int`. */
  lemma LeadingZeroIgnored(text: string)
    requires |text| > 0 && IsDigit(text[0])
    ensures ParseCount(Some("0" + text)) == ParseCount(Some(text))
  {
    var d := LeadingDigits(text);
    assert text == d + text[|d|..];
    LeadingDigitsOf("0" + d, text[|d|..]);
    assert "0" + text == ("0" + d) + text[|d|..];
    LeadingZeroValue(d);
  }

  /** The pattern stops at the first non-digit, so a thousands separator ends
      the number: "1,234 Works" reads as 1. */
  lemma GroupedCountReadsLeadingGroup()
    ensures ParseCount(Some("1,234 Works")) == Success(1)
  {
    LeadingDigitsOf("1", ",234 Works");
    assert "1,234 Works" == "1" + ",234 Works";
  }

  /** `get_work_count` after the request: a 429 status is a rate-limit error;
      otherwise the count is read from the heading inside the main container. */
  function WorkCountOf(resp: Response): (r: Result<nat, FetchError>)
    ensures r == Failure(RateLimited) <==> resp.status == TooManyRequests
    ensures r == Failure(MissingMainDiv) <==> resp.status != TooManyRequests && resp.main.None?
    ensures resp.status != TooManyRequests && resp.main.Some? ==>
      r == ParseCount(resp.main.value.heading)
    ensures resp.status != TooManyRequests && resp.main.Some? && resp.main.value.heading.None? ==>
      r == Success(0)
  {
    if resp.status == TooManyRequests then Failure(RateLimited)
    else match resp.main
      case None => Failure(MissingMainDiv)
      case Some(div) => ParseCount(div.heading)
  }

  /** The search query: the relationship tag as a quoted exact phrase. */
  function Query(tag: string): (q: string)
    ensures |q| == |tag| + 2 && q[0] == '"' && q[|q| - 1] == '"'
    ensures q[1..|q| - 1] == tag
  {
    "\"" + tag + "\""
  }
}
