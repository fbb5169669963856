/**
  The metrics panel (`updateMetrics`) and `formatDuration`: the planned
  count, the outdoor time, the balance score's progress colour.
*/
module Metrics {
  import opened Wrappers
  import opened Numerals
  import opened Seqs
  import opened Categories
  import opened Activities
  import opened ActivityStore

  function Duration(a: Activity): int {
    a.duration
  }

  predicate IsOutdoor(a: Activity) {
    a.category == Outdoor
  }

  predicate IsNotOutdoor(a: Activity) {
    a.category != Outdoor
  }

  /** The sum of all durations (`totalDuration`; computed but not displayed). */
  function TotalDuration(acts: seq<Activity>): int {
    SumOf(acts, Duration)
  }

  /** The sum of the durations of the outdoor activities: other categories contribute nothing. */
  function OutdoorDuration(acts: seq<Activity>): (r: int)
    ensures (forall i :: 0 <= i < |acts| ==> acts[i].category != Outdoor) ==> r == 0
    ensures (forall i :: 0 <= i < |acts| ==> acts[i].category == Outdoor) ==> r == TotalDuration(acts)
  {
    var outdoor := Filter(acts, IsOutdoor);
    assert (forall i :: 0 <= i < |acts| ==> acts[i].category != Outdoor) ==> outdoor == [] by {
      if forall i :: 0 <= i < |acts| ==> acts[i].category != Outdoor {
        FilterDropsAll(acts, IsOutdoor);
      }
    }
    assert (forall i :: 0 <= i < |acts| ==> acts[i].category == Outdoor) ==> outdoor == acts by {
      if forall i :: 0 <= i < |acts| ==> acts[i].category == Outdoor {
        FilterKeepsAll(acts, IsOutdoor);
      }
    }
    SumOf(outdoor, Duration)
  }

  /** Outdoor time and the time of every other category add up to the total. */
  lemma OutdoorShare(acts: seq<Activity>)
    ensures OutdoorDuration(acts) + SumOf(Filter(acts, IsNotOutdoor), Duration) == TotalDuration(acts)
  {
    SumFilterPartition(acts, Duration, IsOutdoor, IsNotOutdoor);
  }

  /** With no negative durations, outdoor time lies between zero and the total. */
  lemma OutdoorWithinTotal(acts: seq<Activity>)
    requires forall i :: 0 <= i < |acts| ==> acts[i].duration >= 0
    ensures 0 <= OutdoorDuration(acts) <= TotalDuration(acts)
  {
    OutdoorShare(acts);
    var outdoor, rest := Filter(acts, IsOutdoor), Filter(acts, IsNotOutdoor);
    assert forall i :: 0 <= i < |outdoor| ==> outdoor[i] in acts;
    assert forall i :: 0 <= i < |rest| ==> rest[i] in acts;
    SumOfNonNegative(outdoor, Duration);
    SumOfNonNegative(rest, Duration);
  }

  /** The "N planned" text; its zero branch writes what the general branch would. */
  function CountText(n: nat): (r: string)
    ensures r == NatToString(n) + " planned"
    ensures ParseNat(r[..|r| - 8]) == Some(n)
  {
    ParseNatToString(n);
    assert (NatToString(n) + " planned")[..|NatToString(n)|] == NatToString(n);
    if n == 0 then
      assert NatToString(0) == [DigitChar(0)] && DigitChar(0) == '0';
      "0 planned"
    else
      NatToString(n) + " planned"
  }

  /** The three gradients of the progress bar. */
  datatype Colour = Red | Amber | Green

  function Gradient(c: Colour): string {
    match c
    case Red => "linear-gradient(to right, #ef4444, #f87171)"
    case Amber => "linear-gradient(to right, #f59e0b, #fbbf24)"
    case Green => "linear-gradient(to right, #10b981, #34d399)"
  }

  function Rank(c: Colour): nat {
    match c
    case Red => 0
    case Amber => 1
    case Green => 2
  }

  /** The bar's colour: red below 50, amber below 75, green from 75 on. */
  function ProgressColour(score: int): (c: Colour)
    ensures score < 50 ==> c == Red
    ensures 50 <= score < 75 ==> c == Amber
    ensures 75 <= score ==> c == Green
  {
    if score < 50 then Red else if score < 75 then Amber else Green
  }

  /** The progress bar's background for a score, with the thresholds of `updateMetrics`. */
  lemma BarBackground(score: int)
    ensures Gradient(ProgressColour(score)) == "linear-gradient(to right, #ef4444, #f87171)" <==> score < 50
    ensures Gradient(ProgressColour(score)) == "linear-gradient(to right, #f59e0b, #fbbf24)" <==> 50 <= score < 75
    ensures Gradient(ProgressColour(score)) == "linear-gradient(to right, #10b981, #34d399)" <==> score >= 75
  {
  }

  /** A higher score never gets a lower colour. */
  lemma ColourMonotone(a: int, b: int)
    requires a <= b
    ensures Rank(ProgressColour(a)) <= Rank(ProgressColour(b))
  {
  }

  /**
    Through the balance score, the colour depends on the record count only:
    red for no records, amber for one to five, green from six on.
  */
  lemma ColourOfCount(n: nat)
    ensures ProgressColour(BalanceScore(n)) == Red <==> n == 0
    ensures ProgressColour(BalanceScore(n)) == Amber <==> 1 <= n <= 5
    ensures ProgressColour(BalanceScore(n)) == Green <==> n >= 6
  {
  }

  /**
    `formatDuration`: below an hour "Nm"; otherwise the whole hours, then
    the leftover minutes when there are any ("Xh Ym" or "Xh").
  */
  function FormatDuration(minutes: int): (r: string)
    ensures |r| >= 2
    ensures r[|r| - 1] == (if minutes >= 60 && minutes % 60 == 0 then 'h' else 'm')
  {
    if minutes < 60 then IntToString(minutes) + "m"
    else
      var hours := minutes / 60;
      var mins := minutes % 60;
      if mins > 0 then NatToString(hours) + "h " + NatToString(mins) + "m"
      else NatToString(hours) + "h"
  }

  /**
    The hours and leftover minutes that a text in hour form shows: "Xh" is
    (X, 0) and "Xh Ym" is (X, Y), each number written canonically. Any other
    text, an "Nm" text included, is not in hour form.
  */
  function ReadParts(s: string): Option<(nat, nat)> {
    if |s| < 2 then None
    else
      var body := s[..|s| - 1];
      if s[|s| - 1] == 'h' then
        match ReadNat(body)
        case Some(x) => Some((x, 0))
        case None => None
      else if s[|s| - 1] == 'm' then
        var x := TakeUntil(body, 'h');
        if |x| + 2 <= |body| && body[|x| + 1] == ' ' && ReadNat(x).Some? && ReadNat(body[|x| + 2..]).Some? then
          Some((ReadNat(x).value, ReadNat(body[|x| + 2..]).value))
        else
          None
      else
        None
  }

  /** Reads a duration text back as minutes: the hour form through `ReadParts`, else "Nm". */
  function ReadDuration(s: string): Option<int> {
    match ReadParts(s)
    case Some((x, y)) => Some(x * 60 + y)
    case None => if |s| >= 2 && s[|s| - 1] == 'm' then ReadInt(s[..|s| - 1]) else None
  }

  lemma NoHourMark(s: string)
    requires AllDigits(s)
    ensures forall i :: 0 <= i < |s| ==> s[i] != 'h'
  {
    forall i | 0 <= i < |s|
      ensures s[i] != 'h'
    {
      assert IsDigit(s[i]);
    }
  }

  /** Below an hour the text is the count and 'm', with no hour part. */
  lemma ShortForm(minutes: int)
    requires minutes < 60
    ensures var r := FormatDuration(minutes);
      ReadParts(r) == None && ReadInt(r[..|r| - 1]) == Some(minutes)
  {
    var r := FormatDuration(minutes);
    var body := IntToString(minutes);
    assert r[..|r| - 1] == body;
    if minutes < 0 {
      var digits := NatToString(-minutes);
      NoHourMark(digits);
      assert body == "-" + digits;
      forall i | 0 <= i < |body|
        ensures body[i] != 'h'
      {
        if i > 0 {
          assert body[i] == digits[i - 1];
        }
      }
    } else {
      NoHourMark(body);
    }
    TakeUntilAbsent(body, 'h');
    ReadIntToString(minutes);
  }

  /** A whole number of hours is written "Xh". */
  lemma WholeHoursForm(minutes: int)
    requires minutes >= 60 && minutes % 60 == 0
    ensures ReadParts(FormatDuration(minutes)) == Some((minutes / 60, 0))
  {
    var r := FormatDuration(minutes);
    ReadNatToString(minutes / 60);
    assert r[..|r| - 1] == NatToString(minutes / 60);
  }

  /** The body of "Xh Ym" splits at its hour mark into "X" and " Y". */
  lemma SplitAtHourMark(h: string, rest: string)
    requires AllDigits(h)
    ensures TakeUntil(h + "h" + rest, 'h') == h
    ensures (h + "h" + rest)[|h| + 1..] == rest
  {
    NoHourMark(h);
    assert h + "h" + rest == h + ['h'] + rest;
    TakeUntilFirst(h, 'h', rest);
  }

  /** A text ending in 'm' whose body has an hour mark followed by a space and canonical minutes. */
  lemma MinuteFormParts(h: string, m: string)
    requires Canonical(h) && Canonical(m)
    ensures ReadParts(h + "h " + m + "m") == Some((ReadNat(h).value, ReadNat(m).value))
  {
    var s := h + "h " + m + "m";
    var body := h + "h " + m;
    assert s[..|s| - 1] == body && s[|s| - 1] == 'm';
    assert TakeUntil(body, 'h') == h && body[|h| + 1] == ' ' && body[|h| + 2..] == m by {
      assert body == h + "h" + (" " + m);
      SplitAtHourMark(h, " " + m);
      assert (" " + m)[1..] == m;
    }
  }

  /** "Xh Ym" reads as X hours and Y minutes. */
  lemma HoursAndMinutesForm(x: nat, y: nat)
    ensures ReadParts(NatToString(x) + "h " + NatToString(y) + "m") == Some((x, y))
  {
    ReadNatToString(x);
    ReadNatToString(y);
    MinuteFormParts(NatToString(x), NatToString(y));
  }

  /**
    The shape of the text. Below an hour it is the minute count, sign
    included, and 'm', with no hour part. From an hour on it shows the whole
    hours and the leftover minutes (below 60), and the final character says
    whether a minutes part follows the hours.
  */
  lemma FormatDurationShape(minutes: int)
    ensures var r := FormatDuration(minutes);
      minutes < 60 ==> r[|r| - 1] == 'm' && ReadParts(r) == None && ReadInt(r[..|r| - 1]) == Some(minutes)
    ensures var r := FormatDuration(minutes);
      minutes >= 60 ==>
        && ReadParts(r) == Some((minutes / 60, minutes % 60))
        && minutes % 60 < 60
        && (r[|r| - 1] == 'h' <==> minutes % 60 == 0)
  {
    if minutes < 60 {
      ShortForm(minutes);
    } else if minutes % 60 == 0 {
      WholeHoursForm(minutes);
    } else {
      HoursAndMinutesForm(minutes / 60, minutes % 60);
    }
  }

  /**
    The text names the same number of minutes: the hours and leftover
    minutes rebuild the input (hours * 60 + minutes), and nothing is lost
    below an hour.
  */
  lemma FormatDurationRoundTrip(minutes: int)
    ensures ReadDuration(FormatDuration(minutes)) == Some(minutes)
  {
    FormatDurationShape(minutes);
  }

  /** Two different minute counts never display the same text. */
  lemma FormatDurationInjective(a: int, b: int)
    requires FormatDuration(a) == FormatDuration(b)
    ensures a == b
  {
    FormatDurationRoundTrip(a);
    FormatDurationRoundTrip(b);
  }
}
