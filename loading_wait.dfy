/** One attempt of "I wait loading to finish in the app": the step scans the
    loading spinners currently in the page and reports the attempt as done
    only when none of them is visible. */
module LoadingWait {

  /** A node matched by "core-loading ion-spinner", reduced to its visibility. */
  datatype Spinner = Spinner(visible: bool)

  /** The scan, with its early exit on the first visible spinner. `finished`
      false means "not yet" (the retry loop polls again). */
  method LoadingFinishedAttempt(spinners: seq<Spinner>) returns (finished: bool)
    ensures finished <==> forall i :: 0 <= i < |spinners| ==> !spinners[i].visible
  {
    for n := 0 to |spinners|
      invariant forall i :: 0 <= i < n ==> !spinners[i].visible
    {
      if !spinners[n].visible {
        continue;
      }
      return false;
    }
    return true;
  }
}
