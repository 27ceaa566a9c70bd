/**
 * The countdown text of main.js: the milliseconds left until the event are
 * split into whole days, hours, minutes and seconds and shown as
 * "{d}d {h}h {m}m {s}s", or as "Event Started!" once nothing is left.
 * The clock is not modelled: the difference `eventDate - now` is the input.
 */
module Countdown {
  import opened Numerals

  const MsPerSecond: nat := 1000
  const MsPerMinute: nat := 60 * MsPerSecond
  const MsPerHour: nat := 60 * MsPerMinute
  const MsPerDay: nat := 24 * MsPerHour

  const StartedText := "Event Started!"

  /** Time left, in the units the countdown shows. */
  datatype Remaining = Remaining(days: nat, hours: nat, mins: nat, secs: nat)

  /** Every unit below days stays under the next unit up. */
  predicate Normal(r: Remaining) {
    r.hours < 24 && r.mins < 60 && r.secs < 60
  }

  /** The milliseconds that the shown units stand for. */
  function Millis(r: Remaining): nat {
    r.days * MsPerDay + r.hours * MsPerHour + r.mins * MsPerMinute + r.secs * MsPerSecond
  }

  /**
   * The four floor divisions of main.js.  `diff` is a whole number of
   * milliseconds, so the floor of each float quotient is the integer
   * quotient, and `floor(x % n)` is `floor(x) % n` for non-negative `x`.
   * The shown units are normal and account for the difference up to the
   * dropped milliseconds.
   */
  function Decompose(diff: nat): (r: Remaining)
    ensures Normal(r)
    ensures Millis(r) <= diff < Millis(r) + MsPerSecond
  {
    QuotientsNest(diff);
    Remaining(diff / MsPerDay, (diff / MsPerHour) % 24, (diff / MsPerMinute) % 60, (diff / MsPerSecond) % 60)
  }

  /** Dividing by a larger unit is dividing the count of the next smaller unit. */
  lemma QuotientsNest(diff: nat)
    ensures diff / MsPerMinute == (diff / MsPerSecond) / 60
    ensures diff / MsPerHour == (diff / MsPerMinute) / 60
    ensures diff / MsPerDay == (diff / MsPerHour) / 24
  {
  }

  /** No other normal split accounts for `diff`: the displayed units are the only right ones. */
  lemma DecomposeUnique(diff: nat, r: Remaining)
    requires Normal(r)
    requires Millis(r) <= diff < Millis(r) + MsPerSecond
    ensures r == Decompose(diff)
  {
    var below := r.hours * MsPerHour + r.mins * MsPerMinute + r.secs * MsPerSecond + (diff - Millis(r));
    assert diff == r.days * MsPerDay + below && below < MsPerDay;
    assert diff / MsPerDay == r.days;
  }

  /** "{d}d {h}h {m}m {s}s" */
  function Render(r: Remaining): (text: string)
    ensures |text| > 0 && IsDigit(text[0])
  {
    var text := NatToString(r.days) + ("d " + (NatToString(r.hours) + ("h " + (NatToString(r.mins) + ("m "
      + (NatToString(r.secs) + "s"))))));
    assert text[0] == NatToString(r.days)[0];
    text
  }

  /** The rendered text determines the split: two different splits never read the same. */
  lemma RenderInjective(a: Remaining, b: Remaining)
    requires Render(a) == Render(b)
    ensures a == b
  {
    var restA := NatToString(a.hours) + ("h " + (NatToString(a.mins) + ("m " + (NatToString(a.secs) + "s"))));
    var restB := NatToString(b.hours) + ("h " + (NatToString(b.mins) + ("m " + (NatToString(b.secs) + "s"))));
    DigitsThenSeparator(NatToString(a.days), "d " + restA, NatToString(b.days), "d " + restB);
    assert restA == ("d " + restA)[2..] && restB == ("d " + restB)[2..];
    var tailA := NatToString(a.mins) + ("m " + (NatToString(a.secs) + "s"));
    var tailB := NatToString(b.mins) + ("m " + (NatToString(b.secs) + "s"));
    DigitsThenSeparator(NatToString(a.hours), "h " + tailA, NatToString(b.hours), "h " + tailB);
    assert tailA == ("h " + tailA)[2..] && tailB == ("h " + tailB)[2..];
    var lastA := NatToString(a.secs) + "s";
    var lastB := NatToString(b.secs) + "s";
    DigitsThenSeparator(NatToString(a.mins), "m " + lastA, NatToString(b.mins), "m " + lastB);
    assert lastA == ("m " + lastA)[2..] && lastB == ("m " + lastB)[2..];
    DigitsThenSeparator(NatToString(a.secs), "s", NatToString(b.secs), "s");
    NatToStringInjective(a.days, b.days);
    NatToStringInjective(a.hours, b.hours);
    NatToStringInjective(a.mins, b.mins);
    NatToStringInjective(a.secs, b.secs);
  }

  /** If `x` stopped before `y` did, a non-digit would stand where `y` has a digit. */
  lemma DigitRunNotShorter(x: string, u: string, y: string, v: string)
    requires IsDigits(y)
    requires |u| > 0 && !IsDigit(u[0])
    requires x + u == y + v
    ensures |x| >= |y|
  {
    assert (y + v)[|x|] == u[0];
  }

  /** A run of digits ends where the first non-digit begins, so it splits the text one way only. */
  lemma DigitsThenSeparator(x: string, u: string, y: string, v: string)
    requires IsDigits(x) && IsDigits(y)
    requires |u| > 0 && !IsDigit(u[0]) && |v| > 0 && !IsDigit(v[0])
    requires x + u == y + v
    ensures x == y && u == v
  {
    DigitRunNotShorter(x, u, y, v);
    DigitRunNotShorter(y, v, x, u);
    assert x == (x + u)[..|x|] && y == (y + v)[..|y|];
    assert u == (x + u)[|x|..] && v == (y + v)[|y|..];
  }

  /**
   * What one run of `updateCountdown` writes: the started message exactly
   * when no time is left, the rendered split otherwise.
   */
  function CountdownText(diff: int): (text: string)
    ensures diff <= 0 <==> text == StartedText
    ensures diff > 0 ==> text == Render(Decompose(diff))
  {
    if diff <= 0 then StartedText else Render(Decompose(diff))
  }

  /**
   * One day, two hours, three minutes and four seconds before the event
   * (plus any part of a second) the countdown reads "1d 2h 3m 4s".
   */
  lemma OneDayTwoHoursThreeMinutesFourSeconds(diff: int)
    requires 93784000 <= diff < 93785000
    ensures CountdownText(diff) == "1d 2h 3m 4s"
  {
    DecomposeUnique(diff, Remaining(1, 2, 3, 4));
  }
}
