# ENQUEbet site scripts in Dafny

A model of the two browser scripts of the ENQUEbet static site, with the
page's DOM replaced by the values the scripts read and write.

- `navbar.js`: the responsive navigation menu. A controller keeps whether
  the menu is open and the body `overflow` saved at the first open. Each
  open and close updates the panel's `active` class, the CTA group's
  display, the body's scroll lock, and every toggle's `active` class,
  `aria-expanded` and `aria-label`. Listeners open or close the menu on
  toggle clicks, Enter/Space on a toggle, Escape, clicks outside, link
  clicks in the panel, and a settled resize past 768 pixels.
  `navbar.dfy` gives each transition and each listener as a function on a
  `MenuState` value. The class `Navbar.Menu` holds the same state in fields
  and in an array of toggle records. Its methods are proved to follow those
  functions. `Navbar.Setup` is the guarded setup with its role/tabindex
  repair.
- `main.js`:
  - the countdown text (`countdown.dfy`, pure functions);
  - the lab-card accordion (`lab_cards.dfy`, an in-place update of the
    page's `display` strings);
  - the animated counters (`counters.dfy`, a loop method over the ticks).
- `numerals.dfy`: how JavaScript writes a whole number as text. Both the
  countdown and the counters use it. A parser is proved to read the text
  back.

Inputs that come from the host are parameters:
- the milliseconds left, `eventDate - now`;
- the parsed `data-counter` value, as an optional integer;
- the window width seen by the resize callback;
- whether a click target lies inside a toggle, the panel or a link.

## Agreement of the menu's state

The menu is meant to keep one invariant: the open state, the panel's class
and every toggle's ARIA attributes always agree. The code does not enforce
this at setup. Until the first open or close, the
panel and the toggles keep whatever the markup gave them. The model follows
the code: `Navbar.Synced` holds after every transition (`Navbar.Open`,
`Navbar.Close`, `Navbar.Handle`), and from then on `Navbar.RunKeepsSynced`
shows that it is preserved. `Navbar.RunEndsSynced` covers the page as setup
leaves it: any run of events either changes nothing or ends in agreement. The constructor and `Navbar.Setup` do not
establish it.

## Model

| member | source | states |
|---|---|---|
| Navbar.SetExpanded | navbar.js:26-28 | one toggle afterwards shows the requested state (class, `aria-expanded` "true"/"false", the open/close label) and keeps its role and tabindex |
| Navbar.SetAllExpanded | navbar.js:24-30 | every toggle shows the requested state, the number of toggles is unchanged, and each keeps its role and tabindex |
| Navbar.Repaired | navbar.js:57-58 | a missing role becomes "button" and a missing tabindex becomes "0"; attributes already present are never overwritten; the other attributes are untouched |
| Navbar.RepairAll | navbar.js:55-58 | after setup every toggle has a role and a tabindex: a missing role becomes "button", a missing tabindex becomes "0", any value the markup set is kept, and the class, `aria-expanded` and `aria-label` are untouched |
| Navbar.Open | navbar.js:32-39 | the menu is open and in agreement; the body is "hidden"; the body value is saved only if nothing is saved yet, otherwise the first snapshot is kept; the CTA group, if any, gets display "none"; every toggle keeps its role and tabindex |
| Navbar.Close | navbar.js:41-48 | the menu is closed and in agreement; the body gets the saved value, or "" when nothing was saved; the snapshot is cleared; the CTA group, if any, gets display ""; every toggle keeps its role and tabindex |
| Navbar.Toggle | navbar.js:50-52 | the open state always flips, and the result is in agreement |
| Navbar.Handle | navbar.js:60-99 | a click, Enter or Space on a toggle toggles the menu; Escape, an outside click, a link click or a settled width over 768 close the menu only when it is open; anything else changes nothing; only a toggle activation can open the menu |
| Navbar.OpenThenCloseRestores | navbar.js:35-45 | open then close gives back exactly the body overflow from before the open, including "", and holds no snapshot |
| Navbar.OpenTwice | navbar.js:35-36 | opening twice is the same as opening once, so open, open, close still restores the page's own overflow |
| Navbar.OtherKeysIgnored | navbar.js:66-92 | a key other than Escape, Enter or Space changes nothing, whether pressed on a toggle or elsewhere |
| Navbar.RunKeepsScrollLock | navbar.js:32-99 | over any sequence of listener runs, the body is "hidden" with the page's value saved exactly while the menu is open, and it has the page's own value back whenever the menu is closed |
| Navbar.RunKeepsSynced | navbar.js:24-99 | once the open state, the panel and the toggles agree, no sequence of listener runs breaks that |
| Navbar.RunEndsSynced | navbar.js:20-99 | from any page state, including the one setup leaves, a sequence of listener runs either changes nothing or ends with the open state, the panel and the toggles in agreement |
| Navbar.Menu.constructor | navbar.js:20-21 | the controller starts closed with no snapshot, over the page state as found |
| Navbar.Menu.SetToggleAttributes | navbar.js:24-30 | the loop updates the toggle array in place to `SetAllExpanded` of its old contents |
| Navbar.Menu.RepairToggles | navbar.js:55-58 | the loop updates the toggle array in place to `RepairAll` of its old contents |
| Navbar.Menu.OpenMenu | navbar.js:32-39 | the new state is `Open` of the old state |
| Navbar.Menu.CloseMenu | navbar.js:41-48 | the new state is `Close` of the old state |
| Navbar.Menu.ToggleMenu | navbar.js:50-52 | the new state is `Toggle` of the old state |
| Navbar.Menu.OnToggleClick | navbar.js:60-64 | the toggle click listener does what `Handle` gives for a toggle click |
| Navbar.Menu.OnToggleKeydown | navbar.js:66-71 | the toggle keydown listener does what `Handle` gives for that key |
| Navbar.Menu.OnDocumentClick | navbar.js:75-81 | the document click listener does what `Handle` gives for that target |
| Navbar.Menu.OnPanelClick | navbar.js:84-87 | the panel click listener does what `Handle` gives for a click on or off a link |
| Navbar.Menu.OnDocumentKeydown | navbar.js:90-92 | the document keydown listener does what `Handle` gives for that key |
| Navbar.Menu.OnResizeSettled | navbar.js:95-99 | the debounced resize callback does what `Handle` gives for that width |
| Navbar.Setup | navbar.js:11-18 | with no toggle or no panel nothing is built and nothing changes; otherwise a fresh controller starts closed, with no snapshot, the toggles repaired and the scroll-lock invariant holding |
| Countdown.Decompose | main.js:28-31 | hours < 24, minutes < 60 and seconds < 60, and days·86400000 + hours·3600000 + minutes·60000 + seconds·1000 ≤ diff < that + 1000 |
| Countdown.DecomposeUnique | main.js:28-31 | any normal split that accounts for diff to within a second is the one the script computes |
| Countdown.Render | main.js:32 | the text is non-empty and starts with a digit, so it never reads as the started message |
| Countdown.RenderInjective | main.js:32 | the text "{d}d {h}h {m}m {s}s" determines the split: two different splits never render the same |
| Countdown.DigitsThenSeparator | main.js:32 | a run of digits followed by a non-digit splits a text in one way only, which is what lets each number be read off the countdown |
| Countdown.CountdownText | main.js:26-32 | the text is exactly "Event Started!" if and only if diff ≤ 0; otherwise it is the rendered split |
| Countdown.OneDayTwoHoursThreeMinutesFourSeconds | main.js:26-32 | anywhere in the second that starts 1 day, 2 hours, 3 minutes and 4 seconds before the event, the text is "1d 2h 3m 4s" |
| LabCards.AfterClick | main.js:42-46 | a card without details changes nothing; otherwise every other block is "none", the clicked block becomes "none" if it was "block" and "block" otherwise, and so at most one block is shown |
| LabCards.ClickAllKeepsAtMostOne | main.js:39-48 | from a page with at most one block shown, any sequence of card clicks still shows at most one |
| LabCards.Click | main.js:42-46 | the handler updates the display array in place to `AfterClick` of its old contents |
| Counters.Target | main.js:65 | a missing or unparsable attribute gives 0; otherwise the parsed value |
| Counters.Step | main.js:68 | the step is at least 1 |
| Counters.StepBounds | main.js:68 | for a target of 60 or more, 60 steps do not pass the target and 60 steps of the next size would; below 120 the step is 1 |
| Counters.FinalText | main.js:72 | the final text ends in "+" exactly when `data-plus` is present |
| Counters.FinalTextReadsBack | main.js:72 | without the optional "+", the final text reads back as the target |
| Counters.RunningSumIsProduct | main.js:67-70 | after k ticks the running value is k·step |
| Counters.Animate | main.js:67-77 | at least one tick; each tick k before the last shows the running value after k ticks, which is still below the target; the last tick is the first one whose running value reaches the target, and it shows the final text; there is exactly one tick if and only if one step already reaches the target |
| Counters.AnimateMissingAttribute | main.js:65-73 | a counter with no usable attribute shows "0" (or "0+") after one tick |
| Numerals.NatToString | main.js:32 | the text is non-empty decimal digits with no leading zero, and it starts with "0" only for zero |
| Numerals.IntToString | main.js:75 | the text is non-empty and starts with "-" exactly for negative numbers |
| Numerals.DigitsValueOfNatToString | main.js:32 | the digits of n denote n |
| Numerals.NatToStringInjective | main.js:32 | two different naturals never have the same digits |
| Numerals.IntToStringRoundTrip | main.js:75 | parsing the displayed text of a whole number gives that number back |
| Numerals.IntToStringInjective | main.js:75 | two different numbers are never displayed as the same text |

## Left out

- Element lookup (`querySelectorAll`, `getElementById`, `closest`, `contains`), listener registration, `preventDefault` and `stopPropagation`. They are host plumbing. Their results are boolean inputs of the listener methods, and each listener is modelled on its own. The order in which a click bubbles from a toggle, through the panel, to the document is not modelled.
- The resize debounce (`clearTimeout`/`setTimeout`, 120 ms): timers are concurrency. Only the callback's decision is modelled (`Navbar.Menu.OnResizeSettled`). The claim that a burst of resizes triggers at most one callback is therefore not modelled.
- The `try`/`catch` around the navigation setup and its `console.error`. They are error logging only.
- The 1-second `setInterval` of the countdown and `new Date()` parsing of the fixed event date. The clock is outside the model. The countdown takes `eventDate - now` as an integer number of milliseconds.
- Countdown.Decompose: the script divides floating-point numbers and takes the floor. The model divides whole numbers. The two agree because the difference of two dates is a whole number of milliseconds, and only the `diff > 0` path uses the split. This agreement is an assumption of the model and is not proved.
- The 16 ms `setInterval` of each counter. Its ticks are modelled as the iterations of one loop in `Counters.Animate`. Several counters running at once are not modelled.
- `parseInt(attr, 10)` itself is a foreign call. Its result is the input of `Counters.Target`, with NaN as `None`. Numbers above 2^53, and the exponent notation JavaScript uses from 10^21 on, are not modelled. `Numerals` renders every integer in plain decimal.
- AOS initialisation (main.js:15-17): an optional third-party library.
- Smooth scrolling of in-page anchors (main.js:51-61): a thin wrapper around `scrollIntoView`.
- The `cursor: pointer` style set on each lab card (main.js:40): presentation only.

