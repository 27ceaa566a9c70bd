/**
 * The lab cards of main.js.  Each `.lab-details` block of the page has an
 * inline `style.display` string, whatever the page starts it as.  A click on a
 * card first hides every details block of the page and then shows the
 * card's own block, unless that block was the one shown, in which case
 * it stays hidden.  A card without a details block ignores the click.
 */
module LabCards {
  import opened Wrappers

  const DisplayBlock := "block"
  const DisplayNone := "none"

  /** The card's own details block, if it has one, is one of the page's blocks. */
  predicate ValidTarget(blocks: nat, details: Option<nat>) {
    details.Some? ==> details.value < blocks
  }

  /** At most one details block is displayed. */
  predicate AtMostOneShown(display: seq<string>) {
    forall i, j :: 0 <= i < |display| && 0 <= j < |display| && display[i] == DisplayBlock && display[j] == DisplayBlock ==> i == j
  }

  /**
   * The page's display strings after a click on a card whose details block
   * is `details`: unchanged without a block; otherwise every block is
   * hidden except the clicked one, which is shown exactly when it was not.
   */
  function AfterClick(display: seq<string>, details: Option<nat>): (r: seq<string>)
    requires ValidTarget(|display|, details)
    ensures |r| == |display|
    ensures details.None? ==> r == display
    ensures details.Some? ==> AtMostOneShown(r)
    ensures details.Some? ==> forall j :: 0 <= j < |r| && j != details.value ==> r[j] == DisplayNone
    ensures details.Some? ==> (r[details.value] == DisplayBlock <==> display[details.value] != DisplayBlock)
    ensures details.Some? ==>
      r[details.value] == (if display[details.value] == DisplayBlock then DisplayNone else DisplayBlock)
  {
    match details
    case None => display
    case Some(k) =>
      var wasOpen := display[k] == DisplayBlock;
      seq(|display|, j requires 0 <= j < |display| => if j == k && !wasOpen then DisplayBlock else DisplayNone)
  }

  /** Clicks in a row, each on a card with or without details. */
  function ClickAll(display: seq<string>, clicks: seq<Option<nat>>): seq<string>
    requires forall c :: c in clicks ==> ValidTarget(|display|, c)
    decreases |clicks|
  {
    if clicks == [] then display else ClickAll(AfterClick(display, clicks[0]), clicks[1..])
  }

  /**
   * From a page showing at most one block, any run of clicks keeps showing
   * at most one: opening a card closes the one that was open.
   */
  lemma {:induction false} ClickAllKeepsAtMostOne(display: seq<string>, clicks: seq<Option<nat>>)
    requires forall c :: c in clicks ==> ValidTarget(|display|, c)
    requires AtMostOneShown(display)
    ensures AtMostOneShown(ClickAll(display, clicks))
    decreases |clicks|
  {
    if clicks != [] {
      var next := AfterClick(display, clicks[0]);
      assert forall c :: c in clicks[1..] ==> c in clicks;
      ClickAllKeepsAtMostOne(next, clicks[1..]);
    }
  }

  /**
   * The click handler: hide every details block in place, then set the
   * clicked card's block to the opposite of what it was.
   */
  method Click(display: array<string>, details: Option<nat>)
    requires ValidTarget(display.Length, details)
    modifies display
    ensures display[..] == AfterClick(old(display[..]), details)
  {
    if details.None? {
      return;
    }
    var k := details.value;
    var open := display[k] == DisplayBlock;
    var i := 0;
    while i < display.Length
      invariant 0 <= i <= display.Length
      invariant forall j :: 0 <= j < i ==> display[j] == DisplayNone
      invariant forall j :: i <= j < display.Length ==> display[j] == old(display[j])
    {
      display[i] := DisplayNone;
      i := i + 1;
    }
    display[k] := if open then DisplayNone else DisplayBlock;
  }
}
