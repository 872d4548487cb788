# Moodle app Behat steps: the decision of one attempt

This project models the step definitions in `tests/behat/behat_app.php`. That file connects Behat, Moodle's acceptance test runner, to the Moodle mobile app running in a browser. Most app steps do the same thing: they evaluate one call to the app's test hook object (`window.behat.find`, `press`, `scrollTo`, `loadMoreItems`, `isSelected`, `setField`, `getHeader`, `pressStandard`, `closePopup`) and get back a raw string from a small vocabulary (`"OK"`, `"OK:<text>"`, `"YES"`, `"NO"`, `"ERROR: ..."`, or anything else). The step then decides whether this attempt returns normally, throws a Mink `DriverException`, or throws an `ExpectationException`. The model is that decision, for one attempt. It also covers the parts of the file that do their own small computations:
- the select/unselect toggle (read, press, read again);
- the table of app config overrides;
- custom-link dispatch;
- the loading-spinner scan;
- the browser-tab check.

Modules:

- `Outcomes` (outcomes.dfy): `Outcome = Ok | DriverErr(msg) | ExpectErr(msg)`, plus `Option` and `Result`.
- `PhpText` (php_text.dfy): PHP's `trim()` with its default character list, `substr()`, prefix tests, and decimal rendering of ids.
- `StepAttempts` (step_attempts.dfy): the pure decisions of the find, scroll, load-more, is-selected, press, standard-button, close-popup, set-field and header steps, and the container-name extraction of the find step.
- `BrowserTab` (browser_tab.dfy): the browser-tab check, both as written and as intended (see Findings).
- `LoadingWait` (loading_wait.dfy): the spinner scan, as a method with its loop.
- `SelectToggle` (select_toggle.dfy): the select step, as a method against a mock app class. The class keeps the item's selection reply, a press counter, the press reply and an abstract press effect.
- `AppConfigOverrides` (app_config.dfy): the step context's override map, as a class with a map field updated row by row. JSON decoding is a function parameter.
- `CustomLinks` (custom_links.dfy): title-to-URL dispatch. The database ids are inputs.

Three behaviours of the steps:
- An `"ERROR: <message>"` reply is never unwrapped. The steps put the whole raw reply after their own fixed prefix.
- The header check compares the header and the expected text after `trim()` on both. It does not compare the exact payload.
- A later config row for the same key replaces the earlier value. The map is overwritten per key, not appended to.

## Model

| member | source | states |
|---|---|---|
| `StepAttempts.OkOnlyAttempt` | tests/behat/behat_app.php:533-541 | press, scroll (152-159), standard button (371-378), close popup (495-502) and set field (613-620) succeed exactly on the reply "OK"; any other reply is a DriverException whose message is the step's fixed prefix followed by the reply, which can be recovered from it; never an ExpectationException |
| `StepAttempts.FindAttempt` | tests/behat/behat_app.php:129-137 | without `not`, success exactly on "OK", else DriverException "Error finding item - " + reply; with `not`, success on every reply other than "OK" (error replies count as not found), and "OK" is the fixed "found an item that should not be found" DriverException |
| `StepAttempts.FindModesAreComplementary` | tests/behat/behat_app.php:129-137 | for every reply, exactly one of "should find" and "should not find" passes |
| `StepAttempts.FindAgreesWithScroll` | tests/behat/behat_app.php:133-135 | a positive find decides exactly as the scroll step does, with the same message |
| `StepAttempts.ContainerName` | tests/behat/behat_app.php:120-123 | an argument PHP considers empty ("" or "0") is passed unchanged; otherwise a result is the non-empty, single-line X of " inside the X" (optionally followed by one final line feed, which the regex's `$` allows) |
| `StepAttempts.ContainerNameRoundTrip` | tests/behat/behat_app.php:116-123 | every container phrase " inside the X" with non-empty, single-line X yields exactly X, also when one final line feed follows |
| `StepAttempts.ContainerNameExact` | tests/behat/behat_app.php:120-123 | for an argument PHP does not call empty, the container name is X exactly when the argument is " inside the X" (optionally with one final line feed) for a non-empty, single-line X |
| `StepAttempts.LoadMoreAttempt` | tests/behat/behat_app.php:178-186 | with `not`, success exactly on "ERROR: All items are already loaded."; without `not`, success exactly on "OK"; every failure is a DriverException with the source's messages |
| `StepAttempts.LoadMoreModesExclusive` | tests/behat/behat_app.php:178-186 | no reply passes both modes; a reply that is neither marker fails both |
| `StepAttempts.SelectionReply` | tests/behat/behat_app.php:222-235 | "YES" reads as selected, "NO" as not selected, every other reply as unreadable |
| `StepAttempts.IsSelectedAttempt` | tests/behat/behat_app.php:222-237 | success iff (YES and not `not`) or (NO and `not`); a YES/NO that contradicts the expectation is an ExpectationException with the matching message; any other reply is a DriverException "Error finding item - " + reply |
| `StepAttempts.IsSelectedBySelectionReply` | tests/behat/behat_app.php:222-237 | the check passes iff the reply reads as the expected state, is an expectation failure iff it reads as the opposite state, and an unreadable reply gives the same failure whatever was expected |
| `StepAttempts.HeaderAttempt` | tests/behat/behat_app.php:640-651 | a reply not starting with "OK:" is a DriverException carrying the reply; otherwise the header is the text after index 3, success iff trim(header) = trim(expected), else an ExpectationException quoting the untrimmed header |
| `StepAttempts.HeaderIgnoresPadding` | tests/behat/behat_app.php:645 | whitespace around the reported header and around the expected text never makes the check fail |
| `StepAttempts.HeaderMismatchReported` | tests/behat/behat_app.php:644-650 | a header that differs after trimming gives exactly the "not as expected" ExpectationException with the header as received |
| `PhpText.TrimLeft` | tests/behat/behat_app.php:645 | the result is the longest suffix not starting with a trim character, and everything removed is trim characters |
| `PhpText.TrimRight` | tests/behat/behat_app.php:645 | the result is the longest prefix not ending with a trim character, and everything removed is trim characters |
| `PhpText.Trim` | tests/behat/behat_app.php:645 | the result neither starts nor ends with a trim character and is the slice of the input left after removing trim characters only from both ends |
| `PhpText.TrimIgnoresPadding` | tests/behat/behat_app.php:645 | trim(w1 + s + w2) = trim(s) whenever w1 and w2 consist of trim characters |
| `PhpText.TrimIdempotent` | tests/behat/behat_app.php:645 | trim(trim(s)) = trim(s) |
| `PhpText.Substr` | tests/behat/behat_app.php:640 | substr(s, start, length) is the `length` characters from `start` when they fit, the whole remainder from `start` when the length overruns the end, and empty when `start` is at or past the end |
| `PhpText.SubstrFrom` | tests/behat/behat_app.php:644 | substr(s, start) is the rest of s after its first `start` characters, empty past the end |
| `PhpText.SubstrPrefixTest` | tests/behat/behat_app.php:640 | comparing substr(s, 0, 3) with "OK:" is exactly a prefix test |
| `PhpText.Decimal` | tests/behat/behat_app.php:478 | an id renders as a non-empty string of digits without a leading zero (only 0 renders starting with '0', as "0") |
| `PhpText.ParseDecimal` | tests/behat/behat_app.php:448 | reading digits back succeeds exactly on non-empty all-digit strings |
| `PhpText.DecimalRoundTrip` | tests/behat/behat_app.php:448 | reading back the rendering of an id gives the id |
| `BrowserTab.TabCountOutcome` | tests/behat/behat_app.php:666-675 | the window-count check fails iff (no `not` and not exactly two windows) or (`not`, exactly two windows and no pattern); its failure is an ExpectationException with the "Did not expect" or "Expected" message of the mode |
| `BrowserTab.BrowserTabAttemptAsWritten` | tests/behat/behat_app.php:677-691 | the attempt with the `$not === $windowhaspattern` comparison as written; it can only succeed when the window-count check does, and a failing window count is its result unchanged; with an invalid pattern (preg_match false) it fails with the "does not match pattern" message without `not` and passes with `not` |
| `BrowserTab.BrowserTabAttempt` | tests/behat/behat_app.php:663-695 | the intended attempt: without `not`, success iff exactly two windows and (no pattern or the URL matches); with `not`, success iff not exactly two windows, or a pattern that the open tab's URL does not match; a non-matching URL with one tab is the "does not match pattern" ExpectationException and, with `not`, a matching one is the "with pattern" ExpectationException |
| `BrowserTab.AsWrittenIgnoresValidPattern` | tests/behat/behat_app.php:683 | as written, with a valid pattern the outcome is that of the window count alone, whatever the URL |
| `BrowserTab.AsWrittenAcceptsNonMatchingUrl` | tests/behat/behat_app.php:680-689 | the concrete input (one tab, URL not matching) that passes as written and fails as intended |
| `BrowserTab.AsWrittenIgnoresUrlWithNot` | tests/behat/behat_app.php:683 | as written, with `not` and a pattern the outcome is that of the window count alone, whatever preg_match answers |
| `BrowserTab.AgreeWithoutPattern` | tests/behat/behat_app.php:668-677 | without a pattern the written and intended checks coincide |
| `LoadingWait.LoadingFinishedAttempt` | tests/behat/behat_app.php:749-763 | the scan reports finished iff no matched spinner is visible |
| `SelectToggle.Target` | tests/behat/behat_app.php:559 | the target reply is "YES" exactly for 'select', otherwise "NO" |
| `SelectToggle.SelectOutcome` | tests/behat/behat_app.php:564-592 | success iff the first reply already equals the target, or the press answered "OK" and the second reply equals the target; a press reply other than "OK" is the "Error pressing item" DriverException; a mismatching YES/NO afterwards is the "wasn't <selectedtext>" ExpectationException; any other reply is the "Error finding item" DriverException |
| `SelectToggle.SelectThenCheck` | tests/behat/behat_app.php:582-589 | after a successful select (unselect), the "should (not) be selected" check passes on the state left behind |
| `SelectToggle.MockApp.constructor` | tests/behat/behat_app.php:562-564 | a mock app starts with the given selection reply and no presses |
| `SelectToggle.MockApp.IsSelected` | tests/behat/behat_app.php:564 | isSelected answers the app's current selection reply |
| `SelectToggle.MockApp.Press` | tests/behat/behat_app.php:571 | a press answers the app's press reply, counts one press and applies the press effect |
| `SelectToggle.SelectAttempt` | tests/behat/behat_app.php:562-593 | the attempt's outcome is SelectOutcome of the replies it saw; it presses zero times when the state already matches and exactly once otherwise; on success the item is left in the target state |
| `SelectToggle.SelectTwice` | tests/behat/behat_app.php:563-568 | repeating a successful select succeeds without any further press |
| `AppConfigOverrides.LastValueFor` | tests/behat/behat_app.php:515-517 | the value cell of a row with the key such that no later row has that key, absent iff no row has that key |
| `AppConfigOverrides.OverlayLookup` | tests/behat/behat_app.php:515-517 | after the table, a key's value is the decoded value of its last row; a key no row mentions keeps its previous value or stays absent |
| `AppConfigOverrides.OverlayConcat` | tests/behat/behat_app.php:514-518 | two config tables applied in turn act as one table holding both |
| `AppConfigOverrides.OverlayIdempotent` | tests/behat/behat_app.php:514-518 | applying the same table twice leaves the overrides as applying it once |
| `AppConfigOverrides.AppConfig.constructor` | tests/behat/behat_app.php:40 | a new step context overrides only disableUserTours, set to true |
| `AppConfigOverrides.AppConfig.ApplyTable` | tests/behat/behat_app.php:514-518 | the overrides become the old ones with every row applied in order |
| `CustomLinks.CustomLinkUrl` | tests/behat/behat_app.php:445-483 | fails iff the title is neither 'discussion' nor one of the 23 listed module names, with the DriverException "Invalid custom link title - " + title |
| `CustomLinks.CustomLinkRoundTrip` | tests/behat/behat_app.php:446-479 | every built URL reads back as the page meant: 'discussion' as /mod/forum/discuss.php?d=<discussion id>, a module title as /mod/<title>/view.php?id=<course-module id>; so distinct targets never share a URL |

## Left out

- The `spin` retry loop and its timeouts (30 s for login and 60 s for cron and loading): it lives in the base classes, which are not part of this model. Only one attempt of each step is modelled, and its outcome is what that loop would see.
- Building the script sent to `window.behat.*`, and evaluating it: the raw reply is an input string. `json_encode`, `addslashes_js` and the triggering of Angular change detection before the spinner scan are not modelled.
- Replies that are not strings (`null`, booleans, numbers): PHP's loose `switch` comparison would treat some of them like "YES" or "NO". The model covers string replies only, and for strings `==` and `===` agree on these markers.
- `parse_element_locator`: it is defined in behat_app_helper.php, which is not part of this model.
- `wait_for_pending_js` and the 300 ms sleeps: these are timing plumbing with no effect on the decisions.
- Window switching: the browser-tab check switches to `$windowNames[1]` to read the tab's URL and back to `$windowNames[0]`. Only the URL-match answer is modelled.
- `json_decode`: it is the opaque `decode` parameter of `AppConfig.ApplyTable`.
- Config keys are modelled as strings. PHP converts canonical integer strings to int array keys, which is injective, so distinct keys stay distinct.
- The database lookups in custom links (`get_record`, `get_coursemodule_from_instance`): the ids are inputs. Opening the URL is not modelled.
- The browser-tab URL pattern: `preg_match` is an oracle whose answer (match, no match, invalid pattern) is an input, for the URL of the window named `$windowNames[1]`.
- BrowserTab.BrowserTabAttemptAsWritten: with `not`, a pattern and not exactly two windows, the source reads the URL of a window `$windowNames[1]` that may not exist. The oracle's answer then stands for whatever matching that URL gives. As written, with `not` the URL check never throws, so that answer never matters. The intended check passes in that case, because no tab is open.
- StepAttempts.ContainerName: when the container phrase does not match its pattern, the result is None. The source reads a capture that does not exist in that case, which the step grammar never produces.
- Strings are sequences of characters. PHP's `substr` and `trim` work on bytes, which gives the same results for the ASCII markers and trim characters involved.
- Launch, login, course and activity entry, the app restart wait, swipe, push notifications, argument replacement, cron tasks, tab switching and closing, and offline mode: these are launch and navigation plumbing. The restart wait (lines 100-104), course entry (lines 324-335) and the cron wait (line 729) take their own decisions on replies, which are not modelled.
- `find_all('css', 'core-loading ion-spinner')` is a base-class helper and is opaque. Its result is the input list of `LoadingWait.LoadingFinishedAttempt`.

## Findings

| source | as written | input that shows it | evidently intended | confidence | as-written member | corrected member |
|---|---|---|---|---|---|---|
| tests/behat/behat_app.php:683 | `if ($not === $windowhaspattern)` compares the boolean `$not` with the integer 1 or 0 that `preg_match` returns, so it never holds for a valid pattern and the URL is never checked | `not` false, two windows, pattern `moodle\.org`, tab URL `https://example.com/` (no match): the step passes | throw when `$not == (bool)$windowhaspattern`: without `not` the URL must match, with `not` it must not; with `not` and no tab open there is no URL to check, so the step passes | high, not executed | `BrowserTab.AsWrittenAcceptsNonMatchingUrl` | `BrowserTab.BrowserTabAttempt` |
