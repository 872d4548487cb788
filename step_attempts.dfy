/** The decision each app step takes on one reply of window.behat.*: the
    reply is the raw string the app returned, and the decision is whether
    this attempt returns normally or throws. The retry loop around it and the
    command sent to the app are not modelled here. */
module StepAttempts {
  import opened Outcomes
  import opened PhpText

  // ---- steps that accept nothing but "OK" ----

  /** The steps whose attempt succeeds on the reply "OK" only. */
  datatype OkOnlyStep =
    | Press           // I press ... in the app
    | ScrollTo        // I scroll to ... in the app
    | StandardButton  // I press the back / more menu / ... button in the app
    | ClosePopup      // I close the popup in the app
    | SetField        // I set the field ... to ... in the app

  /** The text each of them puts before the app's reply in its DriverException. */
  function FailurePrefix(step: OkOnlyStep): string {
    match step
    case Press => "Error pressing item - "
    case ScrollTo => "Error finding item - "
    case StandardButton => "Error pressing standard button - "
    case ClosePopup => "Error closing popup - "
    case SetField => "Error setting field - "
  }

  /** One attempt of an "OK"-only step: success exactly on "OK"; otherwise a
      DriverException that carries the reply verbatim after the step's prefix. */
  function OkOnlyAttempt(step: OkOnlyStep, raw: string): (o: Outcome)
    ensures o.Ok? <==> raw == "OK"
    ensures !o.ExpectErr?
    ensures o.DriverErr? ==> AfterPrefix(FailurePrefix(step), o.msg) == Some(raw)
  {
    if raw != "OK" then
      AfterPrefixOfConcat(FailurePrefix(step), raw);
      DriverErr(FailurePrefix(step) + raw)
    else Ok
  }

  // ---- I should (not) find ... in the app ----

  const FoundUnexpectedly := "Error, found an item that should not be found"
  const FindFailurePrefix := "Error finding item - "

  /** One attempt of the find step. Without `not` it succeeds exactly on "OK";
      with `not` it succeeds on every other reply, error replies included. */
  function FindAttempt(not: bool, raw: string): (o: Outcome)
    ensures o.Ok? <==> (if not then raw != "OK" else raw == "OK")
    ensures !o.ExpectErr?
    ensures not && o.DriverErr? ==> o.msg == FoundUnexpectedly
    ensures !not && o.DriverErr? ==> AfterPrefix(FindFailurePrefix, o.msg) == Some(raw)
  {
    if not && raw == "OK" then DriverErr(FoundUnexpectedly)
    else if !not && raw != "OK" then
      AfterPrefixOfConcat(FindFailurePrefix, raw);
      DriverErr(FindFailurePrefix + raw)
    else Ok
  }

  /** For every reply exactly one of "should find" and "should not find" passes. */
  lemma FindModesAreComplementary(raw: string)
    ensures FindAttempt(true, raw).Ok? <==> !FindAttempt(false, raw).Ok?
  {
  }

  /** A positive find takes the same decision, with the same message, as a
      scroll: both report a missing item as "Error finding item - <reply>". */
  lemma FindAgreesWithScroll(raw: string)
    ensures FindAttempt(false, raw) == OkOnlyAttempt(ScrollTo, raw)
  {
  }

  // ---- container name: the optional " inside the X" part of the find step ----

  const InsidePrefix := " inside the "

  /** The container name the find step passes to the app for its optional
      third argument. An argument PHP calls empty ("" and "0") is passed as
      it is; otherwise the argument must match /^ inside the (.+)$/ and the
      captured part is passed. In that pattern '.' matches no line feed and
      '$' also matches before one final line feed. None means the pattern did
      not match, where the source reads a capture that does not exist. */
  function ContainerName(arg: string): (r: Option<string>)
    ensures arg == "" || arg == "0" ==> r == Some(arg)
    ensures arg != "" && arg != "0" && r.Some? ==>
      r.value != "" && '\n' !in r.value &&
      (arg == InsidePrefix + r.value || arg == InsidePrefix + r.value + "\n")
  {
    if arg == "" || arg == "0" then Some(arg)
    else match AfterPrefix(InsidePrefix, arg)
      case None => None
      case Some(rest) =>
        var body := if |rest| > 0 && rest[|rest| - 1] == '\n' then rest[..|rest| - 1] else rest;
        if body != "" && '\n' !in body then
          assert rest == body || rest == body + "\n";
          Some(body)
        else None
  }

  /** Every container name the step grammar can produce is recovered, also
      when a final line feed follows it. */
  lemma ContainerNameRoundTrip(name: string)
    requires name != "" && '\n' !in name
    ensures ContainerName(InsidePrefix + name) == Some(name)
    ensures ContainerName(InsidePrefix + name + "\n") == Some(name)
  {
    AfterPrefixOfConcat(InsidePrefix, name);
    assert InsidePrefix + name + "\n" == InsidePrefix + (name + "\n");
    AfterPrefixOfConcat(InsidePrefix, name + "\n");
    assert (name + "\n")[..|name|] == name;
    assert name[|name| - 1] != '\n';
  }

  /** arg is a container phrase " inside the <name>", optionally followed by
      one final line feed, for a non-empty single-line name. */
  predicate IsContainerPhrase(arg: string, name: string) {
    name != "" && '\n' !in name && (arg == InsidePrefix + name || arg == InsidePrefix + name + "\n")
  }

  /** For an argument PHP does not call empty, the container name is `name`
      exactly when the argument is the container phrase for `name`. */
  lemma ContainerNameExact(arg: string, name: string)
    requires arg != "" && arg != "0"
    ensures ContainerName(arg) == Some(name) <==> IsContainerPhrase(arg, name)
  {
    if IsContainerPhrase(arg, name) {
      ContainerNameRoundTrip(name);
    }
  }

  // ---- I (should not be able to) load more items in the app ----

  const AllItemsLoaded := "ERROR: All items are already loaded."
  const LoadedUnexpectedly := "It should not have been possible to load more items"
  const LoadMoreFailurePrefix := "Error loading more items - "

  /** One attempt of the load-more step. With `not` it succeeds exactly on the
      app's "all items are already loaded" error; without `not` exactly on
      "OK". Every failure is a DriverException. */
  function LoadMoreAttempt(not: bool, raw: string): (o: Outcome)
    ensures o.Ok? <==> raw == (if not then AllItemsLoaded else "OK")
    ensures !o.ExpectErr?
    ensures not && o.DriverErr? ==> o.msg == LoadedUnexpectedly
    ensures !not && o.DriverErr? ==> AfterPrefix(LoadMoreFailurePrefix, o.msg) == Some(raw)
  {
    if not && raw != AllItemsLoaded then DriverErr(LoadedUnexpectedly)
    else if !not && raw != "OK" then
      AfterPrefixOfConcat(LoadMoreFailurePrefix, raw);
      DriverErr(LoadMoreFailurePrefix + raw)
    else Ok
  }

  /** No reply satisfies both modes, and a reply outside the two markers
      fails both. */
  lemma LoadMoreModesExclusive(raw: string)
    ensures !(LoadMoreAttempt(true, raw).Ok? && LoadMoreAttempt(false, raw).Ok?)
    ensures raw != "OK" && raw != AllItemsLoaded ==>
      LoadMoreAttempt(true, raw).DriverErr? && LoadMoreAttempt(false, raw).DriverErr?
  {
  }

  // ---- ... should (not) be selected in the app ----

  /** The selection state a reply of window.behat.isSelected denotes: "YES"
      and "NO" are the only readable answers. */
  function SelectionReply(raw: string): (r: Option<bool>)
    ensures r == Some(true) <==> raw == "YES"
    ensures r == Some(false) <==> raw == "NO"
  {
    if raw == "YES" then Some(true) else if raw == "NO" then Some(false) else None
  }

  const SelectedUnexpectedly := "Item was selected and shouldn't have"
  const NotSelectedUnexpectedly := "Item wasn't selected and should have"

  /** One attempt of the is-selected check, as the source's switch on the reply. */
  function IsSelectedAttempt(not: bool, raw: string): (o: Outcome)
    ensures o.Ok? <==> (raw == "YES" && !not) || (raw == "NO" && not)
    ensures o.ExpectErr? <==> (raw == "YES" && not) || (raw == "NO" && !not)
    ensures o.DriverErr? <==> raw != "YES" && raw != "NO"
    ensures o.ExpectErr? ==> o.msg == (if not then SelectedUnexpectedly else NotSelectedUnexpectedly)
    ensures o.DriverErr? ==> AfterPrefix(FindFailurePrefix, o.msg) == Some(raw)
  {
    match raw
    case "YES" => if not then ExpectErr(SelectedUnexpectedly) else Ok
    case "NO" => if !not then ExpectErr(NotSelectedUnexpectedly) else Ok
    case _ =>
      AfterPrefixOfConcat(FindFailurePrefix, raw);
      DriverErr(FindFailurePrefix + raw)
  }

  /** The check in terms of the reply's meaning: it passes exactly when the
      reply reads as the expected state, it is an expectation failure when
      the reply reads as the other state, and an unreadable reply is a driver
      failure whatever was expected. */
  lemma IsSelectedBySelectionReply(not: bool, raw: string)
    ensures IsSelectedAttempt(not, raw).Ok? <==> SelectionReply(raw) == Some(!not)
    ensures IsSelectedAttempt(not, raw).ExpectErr? <==> SelectionReply(raw) == Some(not)
    ensures SelectionReply(raw).None? ==> IsSelectedAttempt(not, raw) == IsSelectedAttempt(!not, raw)
  {
  }

  // ---- the header should be ... in the app ----

  const HeaderFailurePrefix := "Error getting header - "

  function HeaderMismatch(header: string): string {
    "The header text was not as expected: '" + header + "'"
  }

  /** One attempt of the header check: the reply must start with "OK:"; the
      header is everything after those three characters, and it must equal
      the expected text once both are trimmed. */
  function HeaderAttempt(expected: string, raw: string): (o: Outcome)
    ensures o.DriverErr? <==> !HasPrefix(raw, "OK:")
    ensures o.DriverErr? ==> AfterPrefix(HeaderFailurePrefix, o.msg) == Some(raw)
    ensures o.Ok? <==> HasPrefix(raw, "OK:") && Trim(raw[3..]) == Trim(expected)
    ensures o.ExpectErr? ==> o.msg == HeaderMismatch(raw[3..])
  {
    SubstrPrefixTest(raw, "OK:");
    if Substr(raw, 0, 3) != "OK:" then
      AfterPrefixOfConcat(HeaderFailurePrefix, raw);
      DriverErr(HeaderFailurePrefix + raw)
    else
      var header := SubstrFrom(raw, 3);
      if Trim(header) != Trim(expected) then ExpectErr(HeaderMismatch(header)) else Ok
  }

  /** A header reported with surrounding whitespace matches the expected text
      written with different surrounding whitespace. */
  lemma HeaderIgnoresPadding(header: string, w1: string, w2: string, w3: string, w4: string)
    requires AllTrimChars(w1) && AllTrimChars(w2) && AllTrimChars(w3) && AllTrimChars(w4)
    ensures HeaderAttempt(w3 + header + w4, "OK:" + w1 + header + w2) == Ok
  {
    var raw := "OK:" + w1 + header + w2;
    assert HasPrefix(raw, "OK:");
    assert raw[3..] == w1 + header + w2;
    TrimIgnoresPadding(w1, header, w2);
    TrimIgnoresPadding(w3, header, w4);
  }

  /** A reply that names a header differing from the expected text after
      trimming is an expectation failure that quotes the header as received. */
  lemma HeaderMismatchReported(expected: string, header: string)
    requires Trim(header) != Trim(expected)
    ensures HeaderAttempt(expected, "OK:" + header) == ExpectErr(HeaderMismatch(header))
  {
    var raw := "OK:" + header;
    assert HasPrefix(raw, "OK:");
    assert raw[3..] == header;
  }
}
