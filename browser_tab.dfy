/** One attempt of "the app should (not) have opened a browser tab (with url
    "<pattern>")". The window list is reduced to its length, and matching the
    tab's URL against the pattern is an oracle: its answer is the value
    preg_match() returns (1, 0, or false when the pattern is invalid). */
module BrowserTab {
  import opened Outcomes

  datatype PregResult = Matched | NotMatched | PregFailed

  const UnexpectedTab := "Did not expect the app to have opened a browser tab"
  const MissingTab := "Expected the app to have opened a browser tab"

  function UnexpectedTabWithPattern(pattern: string): string {
    "Did not expect the app to have opened a browser tab with pattern '" + pattern + "'"
  }

  function UrlMismatch(pattern: string, url: string): string {
    "Browser tab url does not match pattern '" + pattern + "', it is '" + url + "'"
  }

  /** The check on the number of windows, common to both versions below: a
      tab is open when there are exactly two windows. */
  function TabCountOutcome(not: bool, windowCount: nat, pattern: Option<string>): (o: Outcome)
    ensures o.Ok? || o.ExpectErr?
    ensures o.ExpectErr? <==> (!not && windowCount != 2) || (not && windowCount == 2 && pattern.None?)
    ensures o.ExpectErr? ==> o.msg == (if not then UnexpectedTab else MissingTab)
  {
    var tabOpen := windowCount == 2;
    if (!not && !tabOpen) || (not && tabOpen && pattern.None?) then
      ExpectErr(if not then UnexpectedTab else MissingTab)
    else Ok
  }

  /** The attempt as written: the URL check compares the boolean `not` with
      preg_match's integer result using ===, which never holds between a
      boolean and an integer. Only an invalid pattern, for which preg_match
      returns false, can raise it, and then only without `not`. */
  function BrowserTabAttemptAsWritten(not: bool, windowCount: nat, pattern: Option<string>,
                                      windowUrl: string, urlMatch: PregResult): (o: Outcome)
    ensures o.Ok? ==> TabCountOutcome(not, windowCount, pattern).Ok?
    ensures TabCountOutcome(not, windowCount, pattern).ExpectErr? ==> o == TabCountOutcome(not, windowCount, pattern)
    ensures pattern.Some? && urlMatch == PregFailed && TabCountOutcome(not, windowCount, pattern).Ok? ==>
      o == (if not then Ok else ExpectErr(UrlMismatch(pattern.value, windowUrl)))
  {
    var first := TabCountOutcome(not, windowCount, pattern);
    if first.ExpectErr? then first
    else match pattern
      case None => Ok
      case Some(p) =>
        var strictlyEqual := urlMatch == PregFailed && !not;
        if strictlyEqual then
          ExpectErr(if not then UnexpectedTabWithPattern(p) else UrlMismatch(p, windowUrl))
        else Ok
  }

  /** What the step evidently intends: with a pattern, the open tab's URL
      must match it, or with `not` must not match it; with `not` and no tab
      open there is no URL to check and the step passes. */
  function BrowserTabAttempt(not: bool, windowCount: nat, pattern: Option<string>,
                             windowUrl: string, urlMatch: PregResult): (o: Outcome)
    ensures o.Ok? || o.ExpectErr?
    ensures !not ==> (o.Ok? <==> windowCount == 2 && (pattern.None? || urlMatch == Matched))
    ensures not ==> (o.Ok? <==> windowCount != 2 || (pattern.Some? && urlMatch != Matched))
    ensures !not && windowCount == 2 && pattern.Some? && urlMatch != Matched ==>
      o == ExpectErr(UrlMismatch(pattern.value, windowUrl))
    ensures not && windowCount == 2 && pattern.Some? && urlMatch == Matched ==>
      o == ExpectErr(UnexpectedTabWithPattern(pattern.value))
    ensures TabCountOutcome(not, windowCount, pattern).ExpectErr? ==> o == TabCountOutcome(not, windowCount, pattern)
  {
    var first := TabCountOutcome(not, windowCount, pattern);
    if first.ExpectErr? then first
    else match pattern
      case None => Ok
      case Some(p) =>
        if not && windowCount != 2 then Ok
        else
          var hasPattern := urlMatch == Matched;
          if not == hasPattern then
            ExpectErr(if not then UnexpectedTabWithPattern(p) else UrlMismatch(p, windowUrl))
          else Ok
  }

  /** As written, a valid pattern is never checked: whatever the tab's URL,
      the outcome is that of the window count alone. */
  lemma AsWrittenIgnoresValidPattern(not: bool, windowCount: nat, p: string, url: string, m: PregResult)
    requires m != PregFailed
    ensures BrowserTabAttemptAsWritten(not, windowCount, Some(p), url, m) == TabCountOutcome(not, windowCount, Some(p))
  {
  }

  /** As written, with `not` the URL check never throws, whatever the
      pattern and whatever preg_match answers. */
  lemma AsWrittenIgnoresUrlWithNot(windowCount: nat, p: string, url: string, m: PregResult)
    ensures BrowserTabAttemptAsWritten(true, windowCount, Some(p), url, m) == TabCountOutcome(true, windowCount, Some(p))
  {
  }

  /** The input that shows it: one open tab at a URL that does not match the
      pattern passes as written, and fails in the intended check. */
  lemma AsWrittenAcceptsNonMatchingUrl()
    ensures BrowserTabAttemptAsWritten(false, 2, Some("moodle\\.org"), "https://example.com/", NotMatched) == Ok
    ensures BrowserTabAttempt(false, 2, Some("moodle\\.org"), "https://example.com/", NotMatched)
      == ExpectErr(UrlMismatch("moodle\\.org", "https://example.com/"))
  {
  }

  /** The two agree wherever no pattern is given. */
  lemma AgreeWithoutPattern(not: bool, windowCount: nat, url: string, m: PregResult)
    ensures BrowserTabAttemptAsWritten(not, windowCount, None, url, m) == BrowserTabAttempt(not, windowCount, None, url, m)
  {
  }
}
