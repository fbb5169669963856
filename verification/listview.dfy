/**
  The order of the activity list view: `activities.sort((a, b) =>
  a.time.localeCompare(b.time))`, a stable sort by the `time` string that
  runs in place on the manager's own array.
*/
module ListView {
  import opened Wrappers
  import opened Activities
  import opened TextOrder
  import opened Seqs
  import opened Persistence
  import opened ActivityStore

  predicate SortedByTime(s: seq<Activity>) {
    forall i, j :: 0 <= i < j < |s| ==> Precedes(s[i].time, s[j].time)
  }

  function TimeIs(t: string): Activity -> bool {
    (a: Activity) => a.time == t
  }

  /** Places `x` after every record of `s` whose time is not later than its own. */
  function Insert(x: Activity, s: seq<Activity>): (r: seq<Activity>)
    ensures multiset(r) == multiset(s) + multiset{x}
    decreases |s|
  {
    if |s| == 0 then [x]
    else if !Precedes(s[0].time, x.time) then [x] + s
    else
      assert s == [s[0]] + s[1..];
      [s[0]] + Insert(x, s[1..])
  }

  lemma {:induction false} InsertKeepsSorted(x: Activity, s: seq<Activity>)
    requires SortedByTime(s)
    ensures SortedByTime(Insert(x, s))
    decreases |s|
  {
    var r := Insert(x, s);
    if |s| == 0 {
    } else if !Precedes(s[0].time, x.time) {
      PrecedesTotal(s[0].time, x.time);
      forall j | 0 < j < |r|
        ensures Precedes(x.time, r[j].time)
      {
        if j > 1 {
          PrecedesTransitive(x.time, s[0].time, s[j - 1].time);
        }
      }
    } else {
      InsertKeepsSorted(x, s[1..]);
      var rest := Insert(x, s[1..]);
      forall k | 0 <= k < |rest|
        ensures Precedes(s[0].time, rest[k].time)
      {
        assert rest[k] in multiset(rest);
        if rest[k] != x {
          assert rest[k] in multiset(s[1..]);
          var j :| 0 <= j < |s[1..]| && s[1..][j] == rest[k];
          assert s[j + 1] == rest[k];
        }
      }
    }
  }

  /**
    The list view's order: a stable insertion sort by `time`. Any stable
    sort by the same comparison yields this same sequence (`StableSortUnique`).
  */
  function SortByTime(s: seq<Activity>): (r: seq<Activity>)
    ensures SortedByTime(r)
    ensures multiset(r) == multiset(s)
    decreases |s|
  {
    if |s| == 0 then []
    else
      var sorted := SortByTime(s[..|s| - 1]);
      InsertKeepsSorted(s[|s| - 1], sorted);
      assert s == s[..|s| - 1] + [s[|s| - 1]];
      assert multiset(s) == multiset(s[..|s| - 1]) + multiset{s[|s| - 1]};
      Insert(s[|s| - 1], sorted)
  }

  /** Inserting `x` appends it to the records of its own time and leaves the other times alone. */
  lemma {:induction false} InsertAtTime(x: Activity, s: seq<Activity>, t: string)
    requires SortedByTime(s)
    ensures Filter(Insert(x, s), TimeIs(t)) == Filter(s, TimeIs(t)) + (if x.time == t then [x] else [])
    decreases |s|
  {
    if |s| == 0 {
      assert Filter([x], TimeIs(t)) == (if x.time == t then [x] else []);
    } else if !Precedes(s[0].time, x.time) {
      assert ([x] + s)[1..] == s;
      if x.time == t {
        forall j | 0 <= j < |s|
          ensures !TimeIs(t)(s[j])
        {
          if j == 0 {
            PrecedesReflexive(s[0].time);
          }
        }
        FilterDropsAll(s, TimeIs(t));
      }
    } else {
      InsertAtTime(x, s[1..], t);
      assert ([s[0]] + Insert(x, s[1..]))[1..] == Insert(x, s[1..]);
    }
  }

  /** The sort is stable: the records of each time keep their relative order. */
  lemma {:induction false} SortStable(s: seq<Activity>, t: string)
    ensures Filter(SortByTime(s), TimeIs(t)) == Filter(s, TimeIs(t))
    decreases |s|
  {
    if |s| > 0 {
      var prefix, last := s[..|s| - 1], s[|s| - 1];
      var tail := if last.time == t then [last] else [];
      var sorted := SortByTime(prefix);
      assert SortByTime(s) == Insert(last, sorted);
      assert Filter(SortByTime(s), TimeIs(t)) == Filter(sorted, TimeIs(t)) + tail by {
        InsertAtTime(last, sorted, t);
      }
      assert Filter(sorted, TimeIs(t)) == Filter(prefix, TimeIs(t)) by {
        SortStable(prefix, t);
      }
      assert Filter(s, TimeIs(t)) == Filter(prefix, TimeIs(t)) + tail by {
        SplitLast(s);
        FilterAppend(prefix, [last], TimeIs(t));
        assert Filter([last], TimeIs(t)) == tail;
      }
    }
  }

  lemma FirstTimeIsPresent(r: seq<Activity>)
    requires |r| > 0
    ensures Filter(r, TimeIs(r[0].time)) != []
  {
  }

  /**
    Two non-empty time-sorted sequences that agree on the records of every
    time start with the same record.
  */
  lemma SortedHeadsAgree(r1: seq<Activity>, r2: seq<Activity>)
    requires |r1| > 0 && |r2| > 0
    requires SortedByTime(r1) && SortedByTime(r2)
    requires forall t :: Filter(r1, TimeIs(t)) == Filter(r2, TimeIs(t))
    ensures r1[0] == r2[0]
  {
    var t1, t2 := r1[0].time, r2[0].time;
    assert r1[0] in Filter(r2, TimeIs(t1));
    assert r2[0] in Filter(r1, TimeIs(t2));
    var i :| 0 <= i < |r2| && r2[i] == r1[0];
    var j :| 0 <= j < |r1| && r1[j] == r2[0];
    if i == 0 || j == 0 {
      PrecedesReflexive(t1);
    }
    assert Precedes(t2, t1) && Precedes(t1, t2);
    PrecedesAntisymmetric(t1, t2);
    assert Filter(r1, TimeIs(t1))[0] == r1[0];
    assert Filter(r2, TimeIs(t1))[0] == r2[0];
  }

  /**
    Two time-sorted sequences that agree on the records of every time are
    equal: a stable sort's output is fully determined by its input.
  */
  lemma {:induction false} StableSortUnique(r1: seq<Activity>, r2: seq<Activity>)
    requires SortedByTime(r1) && SortedByTime(r2)
    requires forall t :: Filter(r1, TimeIs(t)) == Filter(r2, TimeIs(t))
    ensures r1 == r2
    decreases |r1| + |r2|
  {
    if |r1| == 0 && |r2| == 0 {
    } else if |r1| == 0 {
      FirstTimeIsPresent(r2);
      assert false;
    } else if |r2| == 0 {
      FirstTimeIsPresent(r1);
      assert false;
    } else {
      SortedHeadsAgree(r1, r2);
      forall t
        ensures Filter(r1[1..], TimeIs(t)) == Filter(r2[1..], TimeIs(t))
      {
        assert Filter(r1, TimeIs(t)) == Filter(r2, TimeIs(t));
        if r1[0].time == t {
          assert Filter(r1[1..], TimeIs(t)) == Filter(r1, TimeIs(t))[1..];
          assert Filter(r2[1..], TimeIs(t)) == Filter(r2, TimeIs(t))[1..];
        }
      }
      StableSortUnique(r1[1..], r2[1..]);
      assert r1 == [r1[0]] + r1[1..];
      assert r2 == [r2[0]] + r2[1..];
    }
  }

  /**
    `renderActivitiesList` sorts the manager's own array: afterwards the
    store holds the list view's order, while the slot still holds the order
    of the last save.
  */
  function ShowList(s: Store): (r: Store)
    ensures r.slot == s.slot
    ensures SortedByTime(r.activities)
    ensures multiset(r.activities) == multiset(s.activities)
  {
    Store(SortByTime(s.activities), s.slot)
  }

  /** After the list view, the slot still reads back as the same records, possibly in another order. */
  lemma ShowListKeepsSlot(s: Store)
    requires Synced(s)
    ensures Load(ShowList(s).slot).Success?
    ensures multiset(Load(ShowList(s).slot).value) == multiset(ShowList(s).activities)
  {
  }

  /** The next add persists the list view's order followed by the new record. */
  lemma AddAfterShowList(s: Store, d: Draft, now: int, iso: string)
    ensures Load(Add(ShowList(s), d, now, iso).0.slot) == Success(SortByTime(s.activities) + [Stamp(d, now, iso)])
  {
    var r := Add(ShowList(s), d, now, iso).0;
    assert r.activities == SortByTime(s.activities) + [Stamp(d, now, iso)];
  }
}
