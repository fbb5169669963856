/**
  The header clock and the hour-of-day classifiers (`updateCurrentTime`,
  `updateEnergyLevel`), and the zero-padded "HH:MM" text that both the
  clock and the form's default time use.
*/
module Clock {
  import opened Wrappers
  import opened Numerals
  import opened Seqs
  import opened TextOrder
  import opened Timeline

  /** `${hh}:${mm}` with both parts padded to two digits by `padStart(2, '0')`. */
  function ClockText(h: nat, m: nat): (t: string)
    requires h < 24 && m < 60
    ensures |t| == 5 && t[2] == ':'
    ensures AllDigits(t[..2]) && AllDigits(t[3..])
  {
    PadTwo(h) + ":" + PadTwo(m)
  }

  lemma ClockTextDigits(h: nat, m: nat)
    requires h < 24 && m < 60
    ensures ClockText(h, m) == [DigitChar(h / 10)] + ([DigitChar(h % 10)] + ([':'] + ([DigitChar(m / 10)] + [DigitChar(m % 10)])))
  {
    PadTwoDigits(h);
    PadTwoDigits(m);
  }

  lemma TwoDigitsValue(n: nat)
    requires n < 100
    ensures ParseNat(PadTwo(n)) == Some(n)
  {
    PadTwoDigits(n);
    var s := PadTwo(n);
    assert s[..1][..0] == [];
    assert DigitsValue(s[..1]) == n / 10;
  }

  /**
    The form's default time, and any clock reading, lands in the timeline
    bucket of its own hour.
  */
  lemma ClockTextHour(h: nat, m: nat)
    requires h < 24 && m < 60
    ensures HourOf(ClockText(h, m)) == Some(h)
  {
    var p := PadTwo(h);
    assert forall i :: 0 <= i < |p| ==> p[i] != ':' by {
      forall i | 0 <= i < |p|
        ensures p[i] != ':'
      {
        assert IsDigit(p[i]);
      }
    }
    assert ClockText(h, m) == p + [':'] + PadTwo(m);
    TakeUntilFirst(p, ':', PadTwo(m));
    TwoDigitsValue(h);
  }

  lemma DigitOrder(a: nat, b: nat)
    requires a < 10 && b < 10
    ensures DigitChar(a) < DigitChar(b) <==> a < b
    ensures DigitChar(a) == DigitChar(b) <==> a == b
  {
  }

  /** Two-digit numbers compare as their (tens, units) pairs do, lexicographically. */
  lemma TwoDigitOrder(a: nat, b: nat)
    requires a < 100 && b < 100
    ensures a < b <==> a / 10 < b / 10 || (a / 10 == b / 10 && a % 10 < b % 10)
    ensures a == b <==> a / 10 == b / 10 && a % 10 == b % 10
  {
    assert a == 10 * (a / 10) + a % 10;
    assert b == 10 * (b / 10) + b % 10;
  }

  /**
    Ordering "HH:MM" texts character by character is ordering the times of
    day they name, which is why the list view may sort on the raw string.
  */
  lemma ClockTextOrder(h1: nat, m1: nat, h2: nat, m2: nat)
    requires h1 < 24 && m1 < 60 && h2 < 24 && m2 < 60
    ensures Precedes(ClockText(h1, m1), ClockText(h2, m2)) <==> h1 * 60 + m1 <= h2 * 60 + m2
  {
    ClockTextDigits(h1, m1);
    ClockTextDigits(h2, m2);
    var a1, a2, a3, a4 := DigitChar(h1 / 10), DigitChar(h1 % 10), DigitChar(m1 / 10), DigitChar(m1 % 10);
    var b1, b2, b3, b4 := DigitChar(h2 / 10), DigitChar(h2 % 10), DigitChar(m2 / 10), DigitChar(m2 % 10);
    PrecedesCons(a1, [a2] + ([':'] + ([a3] + [a4])), b1, [b2] + ([':'] + ([b3] + [b4])));
    PrecedesCons(a2, [':'] + ([a3] + [a4]), b2, [':'] + ([b3] + [b4]));
    PrecedesCons(':', [a3] + [a4], ':', [b3] + [b4]);
    PrecedesCons(a3, [a4], b3, [b4]);
    PrecedesCons(a4, [], b4, []);
    DigitOrder(h1 / 10, h2 / 10);
    DigitOrder(h1 % 10, h2 % 10);
    DigitOrder(m1 / 10, m2 / 10);
    DigitOrder(m1 % 10, m2 % 10);
    TwoDigitOrder(h1, h2);
    TwoDigitOrder(m1, m2);
  }

  /** The clock's caption for the hour. */
  datatype Context = DuringShift | RecoveryTime | FreeTime

  function ContextText(c: Context): string {
    match c
    case DuringShift => "During your shift"
    case RecoveryTime => "Recovery time"
    case FreeTime => "Free time"
  }

  /**
    The caption for hour `h` of `getHours()`. Counted from 18:00, the day is
    twelve hours of shift, then eight of recovery, then four free.
  */
  function HourContext(h: nat): (c: Context)
    requires h < 24
    ensures var k := (h + 6) % 24; c == (if k < 12 then DuringShift else if k < 20 then RecoveryTime else FreeTime)
  {
    if h >= 18 || h < 6 then DuringShift
    else if h >= 6 && h < 14 then RecoveryTime
    else FreeTime
  }

  /** The energy stat shown for the hour. */
  datatype Energy = Low | High | Medium

  function EnergyText(e: Energy): string {
    match e
    case Low => "Energy: Low"
    case High => "Energy: High"
    case Medium => "Energy: Medium"
  }

  /**
    The energy level for hour `h`. Counted from 22:00, the day is six hours
    low, six high, then twelve medium.
  */
  function HourEnergy(h: nat): (e: Energy)
    requires h < 24
    ensures var k := (h + 2) % 24; e == (if k < 6 then Low else if k < 12 then High else Medium)
  {
    if h >= 22 || h < 4 then Low
    else if h >= 4 && h < 10 then High
    else Medium
  }

  /** The caption the clock shows for hour `h`, with the hour ranges of `updateCurrentTime`. */
  lemma ContextCaption(h: nat)
    requires h < 24
    ensures ContextText(HourContext(h)) == "During your shift" <==> h >= 18 || h < 6
    ensures ContextText(HourContext(h)) == "Recovery time" <==> 6 <= h < 14
    ensures ContextText(HourContext(h)) == "Free time" <==> 14 <= h < 18
  {
  }

  /** The energy stat shown for hour `h`, with the hour ranges of `updateEnergyLevel`. */
  lemma EnergyCaption(h: nat)
    requires h < 24
    ensures EnergyText(HourEnergy(h)) == "Energy: Low" <==> h >= 22 || h < 4
    ensures EnergyText(HourEnergy(h)) == "Energy: High" <==> 4 <= h < 10
    ensures EnergyText(HourEnergy(h)) == "Energy: Medium" <==> 10 <= h < 22
  {
  }
}
