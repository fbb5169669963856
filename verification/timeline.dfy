/**
  The timeline view (`renderTimeline`): 24 hour buckets filled by a scan of
  the activity list, each shown under a 12-hour label.
*/
module Timeline {
  import opened Wrappers
  import opened Numerals
  import opened Seqs
  import opened Activities

  /**
    The hour an activity's `time` names: `parseInt(t.split(':')[0])`, when
    the text before the first ':' is a run of digits.
  */
  function HourOf(t: string): (r: Option<nat>)
    ensures r.Some? ==> |t| > 0 && IsDigit(t[0])
  {
    ParseNat(TakeUntil(t, ':'))
  }

  /** A run of digits that ends at a ':' or at the end of the text is read as the hour it spells. */
  lemma HourOfDigitRun(t: string, k: nat)
    requires 0 < k <= |t| && AllDigits(t[..k]) && (k == |t| || t[k] == ':')
    ensures HourOf(t) == Some(DigitsValue(t[..k]))
  {
    DigitRunBeforeColon(t, k);
  }

  /** A run of digits that ends at a ':' or at the end of the text is everything before the first ':'. */
  lemma DigitRunBeforeColon(t: string, k: nat)
    requires 0 < k <= |t| && AllDigits(t[..k]) && (k == |t| || t[k] == ':')
    ensures TakeUntil(t, ':') == t[..k]
  {
    var run := t[..k];
    NoColon(run);
    if k == |t| {
      assert run == t;
      TakeUntilAbsent(t, ':');
    } else {
      var rest := t[k + 1..];
      assert t == run + [':'] + rest by {
        assert t == t[..k] + t[k..];
        assert t[k..] == [':'] + rest;
      }
      TakeUntilFirst(run, ':', rest);
    }
  }

  lemma NoColon(s: string)
    requires AllDigits(s)
    ensures forall i :: 0 <= i < |s| ==> s[i] != ':'
  {
  }

  /** The time's hour part names an hour of the day, so it has a bucket; any other crashes the source. */
  predicate Plottable(acts: seq<Activity>) {
    forall i :: 0 <= i < |acts| ==> HourOf(acts[i].time).Some? && HourOf(acts[i].time).value < 24
  }

  function InHour(h: nat): Activity -> bool {
    (a: Activity) => HourOf(a.time) == Some(h)
  }

  /** The reference content of the 24 buckets: bucket `h` lists, in order, the activities of hour `h`. */
  function Buckets(acts: seq<Activity>): (bs: seq<seq<Activity>>)
    ensures |bs| == 24
  {
    seq(24, h requires 0 <= h < 24 => Filter(acts, InHour(h)))
  }

  /** `hours[hourNum].push(activity)` over the list: the scan fills exactly the reference buckets. */
  method BucketByHour(acts: seq<Activity>) returns (buckets: seq<seq<Activity>>)
    requires Plottable(acts)
    ensures buckets == Buckets(acts)
  {
    buckets := seq(24, h => []);
    var i := 0;
    while i < |acts|
      invariant 0 <= i <= |acts|
      invariant |buckets| == 24
      invariant forall h :: 0 <= h < 24 ==> buckets[h] == Filter(acts[..i], InHour(h))
    {
      var a := acts[i];
      var hour := HourOf(a.time).value;
      assert acts[..i + 1] == acts[..i] + [a];
      forall h | 0 <= h < 24 {
        FilterAppend(acts[..i], [a], InHour(h));
      }
      buckets := buckets[hour := buckets[hour] + [a]];
      i := i + 1;
    }
    assert acts[..i] == acts;
  }

  function TotalSize(bs: seq<seq<Activity>>): nat
    decreases |bs|
  {
    if |bs| == 0 then 0 else |bs[0]| + TotalSize(bs[1..])
  }

  lemma {:induction false} TotalSizeGrow(bs: seq<seq<Activity>>, k: nat, a: Activity)
    requires k < |bs|
    ensures TotalSize(bs[k := bs[k] + [a]]) == TotalSize(bs) + 1
    decreases |bs|
  {
    if k > 0 {
      TotalSizeGrow(bs[1..], k - 1, a);
      assert bs[k := bs[k] + [a]][1..] == bs[1..][k - 1 := bs[k] + [a]];
    }
  }

  /** The buckets partition the list: their sizes add up to the number of activities. */
  lemma {:induction false} BucketsPartition(acts: seq<Activity>)
    requires Plottable(acts)
    ensures TotalSize(Buckets(acts)) == |acts|
    decreases |acts|
  {
    if |acts| == 0 {
      EmptyBucketsSize(Buckets(acts));
    } else {
      var prefix, a := acts[..|acts| - 1], acts[|acts| - 1];
      assert acts == prefix + [a];
      assert Plottable(prefix);
      BucketsPartition(prefix);
      var k := HourOf(a.time).value;
      forall h | 0 <= h < 24
        ensures Buckets(acts)[h] == Buckets(prefix)[k := Buckets(prefix)[k] + [a]][h]
      {
        FilterAppend(prefix, [a], InHour(h));
      }
      assert Buckets(acts) == Buckets(prefix)[k := Buckets(prefix)[k] + [a]];
      TotalSizeGrow(Buckets(prefix), k, a);
    }
  }

  lemma {:induction false} EmptyBucketsSize(bs: seq<seq<Activity>>)
    requires forall h :: 0 <= h < |bs| ==> bs[h] == []
    ensures TotalSize(bs) == 0
    decreases |bs|
  {
    if |bs| > 0 {
      EmptyBucketsSize(bs[1..]);
    }
  }

  /** Each activity sits in the bucket of its own hour and in no other. */
  lemma BucketOfActivity(acts: seq<Activity>, i: nat, h: nat)
    requires Plottable(acts)
    requires i < |acts| && h < 24
    ensures acts[i] in Buckets(acts)[h] <==> h == HourOf(acts[i].time).value
  {
  }

  /** `h` written the 12-hour way: 0 is "12 AM", 1-11 "h AM", 12 "12 PM", 13-23 "(h-12) PM". */
  function HourLabel(h: nat): (r: string)
    requires h < 24
    ensures |r| >= 4
    ensures r[|r| - 3..] == (if h < 12 then " AM" else " PM")
    ensures var k := ReadNat(r[..|r| - 3]); k.Some? && 1 <= k.value <= 12 && k.value % 12 == h % 12
  {
    if h == 0 then
      TwelveText();
      assert "12 AM"[..2] == "12";
      "12 AM"
    else if h < 12 then
      ReadNatToString(h);
      assert (NatToString(h) + " AM")[..|NatToString(h)|] == NatToString(h);
      NatToString(h) + " AM"
    else if h == 12 then
      TwelveText();
      assert "12 PM"[..2] == "12";
      "12 PM"
    else
      ReadNatToString(h - 12);
      assert (NatToString(h - 12) + " PM")[..|NatToString(h - 12)|] == NatToString(h - 12);
      NatToString(h - 12) + " PM"
  }

  lemma TwelveText()
    ensures ReadNat("12") == Some(12)
  {
    ReadNatToString(12);
    assert NatToString(12) == [DigitChar(1), DigitChar(2)];
    assert DigitChar(1) == '1' && DigitChar(2) == '2';
  }

  /** Reads a 12-hour label back as an hour of the day; the number must be written without padding. */
  function LabelHour(s: string): (r: Option<nat>)
    ensures r.Some? ==> r.value < 24
  {
    if |s| < 4 then None
    else
      var suffix := s[|s| - 3..];
      match ReadNat(s[..|s| - 3])
      case Some(k) =>
        if 1 <= k <= 12 && suffix == " AM" then Some(k % 12)
        else if 1 <= k <= 12 && suffix == " PM" then Some(k % 12 + 12)
        else None
      case None => None
  }

  /** Every label reads back as its own hour, so the 24 labels are distinct. */
  lemma LabelHourRoundTrip(h: nat)
    requires h < 24
    ensures LabelHour(HourLabel(h)) == Some(h)
  {
  }

  /** A label names its hour and nothing else: the one text that reads as `h` is `HourLabel(h)`. */
  lemma LabelHourExact(s: string, h: nat)
    requires h < 24
    ensures LabelHour(s) == Some(h) <==> s == HourLabel(h)
  {
    if LabelHour(s) == Some(h) {
      LabelHourOnly(s, h);
    } else {
      LabelHourRoundTrip(h);
    }
  }

  /** A label that reads as `h` is written as `HourLabel(h)` is: same number text, same suffix. */
  lemma LabelHourOnly(s: string, h: nat)
    requires h < 24 && LabelHour(s) == Some(h)
    ensures s == HourLabel(h)
  {
    var r := HourLabel(h);
    var p, q := s[..|s| - 3], r[..|r| - 3];
    LabelParts(s, h);
    assert p == q by {
      NatToStringOfRead(p);
      NatToStringOfRead(q);
    }
    assert s == p + s[|s| - 3..];
    assert r == q + r[|r| - 3..];
  }

  /** The number and suffix of a label that reads as `h` are those of `HourLabel(h)`. */
  lemma LabelParts(s: string, h: nat)
    requires h < 24 && LabelHour(s) == Some(h)
    ensures var r := HourLabel(h);
      && s[|s| - 3..] == r[|r| - 3..]
      && ReadNat(s[..|s| - 3]) == ReadNat(r[..|r| - 3])
  {
    var r := HourLabel(h);
    var k, k' := ReadNat(s[..|s| - 3]).value, ReadNat(r[..|r| - 3]).value;
    assert 1 <= k <= 12 && k % 12 == h % 12;
    SameOnTheDial(k, k');
  }

  /** Two numbers from 1 to 12 that agree modulo 12 are equal. */
  lemma SameOnTheDial(k: nat, k': nat)
    requires 1 <= k <= 12 && 1 <= k' <= 12 && k % 12 == k' % 12
    ensures k == k'
  {
  }

  /** One row of the grid: an hour's label and the activities shown as dots in it. */
  datatype Row = Row(heading: string, activities: seq<Activity>)

  /** What the timeline container shows. */
  datatype View = EmptyState | Grid(rows: seq<Row>)

  /** `renderTimeline`: the empty state for no activities, else one row per hour from 0 to 23. */
  function TimelineView(acts: seq<Activity>): (v: View)
    requires Plottable(acts)
    ensures v.EmptyState? <==> |acts| == 0
    ensures v.Grid? ==> |v.rows| == 24
    ensures v.Grid? ==> forall h :: 0 <= h < 24 ==> LabelHour(v.rows[h].heading) == Some(h)
    ensures v.Grid? ==> forall h :: 0 <= h < 24 ==> v.rows[h].heading == HourLabel(h)
    ensures v.Grid? ==> forall h :: 0 <= h < 24 ==> v.rows[h].activities == Filter(acts, InHour(h))
  {
    if |acts| == 0 then EmptyState
    else
      assert forall h :: 0 <= h < 24 ==> LabelHour(HourLabel(h)) == Some(h) by {
        forall h | 0 <= h < 24 {
          LabelHourRoundTrip(h);
        }
      }
      Grid(seq(24, h requires 0 <= h < 24 => Row(HourLabel(h), Buckets(acts)[h])))
  }
}
