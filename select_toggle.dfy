/** "I (unselect|select) ... in the app": one attempt reads the item's
    selection state, presses it only when the state differs from the target,
    and reads the state again. The app is a small mock: what isSelected
    answers, how many presses it has received, what a press answers, and an
    abstract effect of a press on the selection state. */
module SelectToggle {
  import opened Outcomes
  import opened StepAttempts

  /** The isSelected reply the step aims for: "YES" for 'select', "NO" otherwise. */
  function Target(selectedText: string): (t: string)
    ensures t == "YES" <==> selectedText == "select"
    ensures t == "YES" || t == "NO"
  {
    if selectedText == "select" then "YES" else "NO"
  }

  function NotToggled(selectedText: string): string {
    "Item wasn't " + selectedText + " after pressing it"
  }

  /** The decision of one attempt, given the first isSelected reply, the
      press reply and the isSelected reply after the press. */
  function SelectOutcome(selectedText: string, before: string, pressReply: string, after: string): (o: Outcome)
    ensures before == Target(selectedText) ==> o == Ok
    ensures o.Ok? <==> before == Target(selectedText) || (pressReply == "OK" && after == Target(selectedText))
    ensures o.ExpectErr? <==>
      before != Target(selectedText) && pressReply == "OK" && SelectionReply(after).Some? && after != Target(selectedText)
    ensures o.ExpectErr? ==> o.msg == NotToggled(selectedText)
    ensures before != Target(selectedText) && pressReply != "OK" ==> o == DriverErr(FailurePrefix(Press) + pressReply)
    ensures before != Target(selectedText) && pressReply == "OK" && SelectionReply(after).None? ==>
      o == DriverErr(FindFailurePrefix + after)
  {
    var target := Target(selectedText);
    if before == target then Ok
    else if pressReply != "OK" then DriverErr(FailurePrefix(Press) + pressReply)
    else if after == "YES" || after == "NO" then
      if after != target then ExpectErr(NotToggled(selectedText)) else Ok
    else DriverErr(FindFailurePrefix + after)
  }

  /** The selection state the app is left in by one attempt. */
  function StateAfter(selectedText: string, before: string, effect: string -> string): string {
    if before == Target(selectedText) then before else effect(before)
  }

  /** A successful select leaves the item in the state that the matching
      "should (not) be selected" check accepts. */
  lemma SelectThenCheck(selectedText: string, before: string, pressReply: string, effect: string -> string)
    requires SelectOutcome(selectedText, before, pressReply, effect(before)).Ok?
    ensures IsSelectedAttempt(selectedText != "select", StateAfter(selectedText, before, effect)) == Ok
  {
  }

  class MockApp {
    var selection: string                // what window.behat.isSelected answers for the item
    var presses: nat                     // how many window.behat.press calls the app received
    const pressReply: string             // what window.behat.press answers
    const pressEffect: string -> string  // the selection state a press leaves behind

    constructor (selection: string, pressReply: string, pressEffect: string -> string)
      ensures this.selection == selection && presses == 0
      ensures this.pressReply == pressReply && this.pressEffect == pressEffect
    {
      this.selection := selection;
      this.presses := 0;
      this.pressReply := pressReply;
      this.pressEffect := pressEffect;
    }

    /** window.behat.isSelected(locator). */
    method IsSelected() returns (r: string)
      ensures r == selection
    {
      r := selection;
    }

    /** window.behat.press(locator). */
    method Press() returns (r: string)
      modifies this
      ensures r == pressReply
      ensures presses == old(presses) + 1
      ensures selection == pressEffect(old(selection))
    {
      r := pressReply;
      presses := presses + 1;
      selection := pressEffect(selection);
    }
  }

  /** One attempt of the select step against the mock app. */
  method SelectAttempt(app: MockApp, selectedText: string) returns (o: Outcome)
    modifies app
    ensures o == SelectOutcome(selectedText, old(app.selection), app.pressReply, app.pressEffect(old(app.selection)))
    ensures app.presses == old(app.presses) + (if old(app.selection) == Target(selectedText) then 0 else 1)
    ensures app.selection == StateAfter(selectedText, old(app.selection), app.pressEffect)
    ensures o.Ok? ==> app.selection == Target(selectedText)
  {
    var selected := Target(selectedText);
    var result := app.IsSelected();
    if result == selected {
      return Ok;
    }
    result := app.Press();
    if result != "OK" {
      return DriverErr(FailurePrefix(Press) + result);
    }
    result := app.IsSelected();
    if result == "YES" || result == "NO" {
      if result != selected {
        return ExpectErr(NotToggled(selectedText));
      }
      return Ok;
    }
    return DriverErr(FindFailurePrefix + result);
  }

  /** Selecting again after a successful select presses nothing and succeeds. */
  method SelectTwice(app: MockApp, selectedText: string) returns (first: Outcome, second: Outcome)
    modifies app
    ensures first.Ok? ==> second == Ok && app.presses == old(app.presses) + (if old(app.selection) == Target(selectedText) then 0 else 1)
  {
    first := SelectAttempt(app, selectedText);
    second := SelectAttempt(app, selectedText);
  }
}
