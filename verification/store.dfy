/**
  `ActivityManager`: the in-memory activity list, the storage slot it is
  mirrored to, and the derived "today" list and balance score. The clock
  readings the source takes itself (`Date.now()`, `toISOString()`,
  `toDateString()`) are parameters here.
*/
module ActivityStore {
  import opened Wrappers
  import opened Activities
  import opened Seqs
  import opened Persistence

  /** The manager's state: its list and the slot under `lifeflow_activities`. */
  datatype Store = Store(activities: seq<Activity>, slot: Slot)

  /** The slot reads back as exactly the in-memory list. */
  predicate Synced(s: Store) {
    Load(s.slot) == Success(s.activities)
  }

  /** No two records share an id. */
  predicate UniqueIds(acts: seq<Activity>) {
    forall i, j :: 0 <= i < j < |acts| ==> acts[i].id != acts[j].id
  }

  function IdIs(id: int): Activity -> bool {
    (a: Activity) => a.id == id
  }

  function IdIsNot(id: int): Activity -> bool {
    (a: Activity) => a.id != id
  }

  function CreatedOn(dayOf: string -> string, day: string): Activity -> bool {
    (a: Activity) => dayOf(a.createdAt) == day
  }

  function CreatedOff(dayOf: string -> string, day: string): Activity -> bool {
    (a: Activity) => dayOf(a.createdAt) != day
  }

  /**
    The constructor: the list is whatever the slot holds, and an empty slot
    gives an empty list. A stored value that is not a list of complete
    activities is an error here, where the source keeps it.
  */
  function Open(slot: Slot): (r: Result<Store, DecodeError>)
    ensures r.Success? ==> Synced(r.value) && r.value.slot == slot
    ensures slot.Absent? ==> r == Success(Store([], Absent))
    ensures r.Failure? ==> Load(slot) == Failure(r.error)
  {
    match Load(slot)
    case Success(acts) => Success(Store(acts, slot))
    case Failure(e) => Failure(e)
  }

  /** Replaces the list and writes all of it to the slot (`saveActivities`). */
  function Persist(acts: seq<Activity>): (r: Store)
    ensures r.activities == acts
    ensures Synced(r)
  {
    Store(acts, Save(acts))
  }

  /**
    `addActivity`: stamps the draft, appends the record after every existing
    one, saves the whole list and returns the record it appended.
  */
  function Add(s: Store, d: Draft, now: int, iso: string): (r: (Store, Activity))
    ensures |r.0.activities| == |s.activities| + 1
    ensures r.0.activities[..|s.activities|] == s.activities
    ensures r.0.activities[|s.activities|] == r.1
    ensures r.1 == Stamp(d, now, iso)
    ensures Synced(r.0)
  {
    var a := Stamp(d, now, iso);
    (Persist(s.activities + [a]), a)
  }

  /**
    `deleteActivity`: keeps, in order, exactly the records whose id differs
    from `id`, and saves the result even when nothing was removed.
  */
  function Delete(s: Store, id: int): (r: Store)
    ensures forall a :: a in r.activities ==> a in s.activities && a.id != id
    ensures forall a :: a in s.activities && a.id != id ==> a in r.activities
    ensures IsSubsequence(r.activities, s.activities)
    ensures |r.activities| + |Filter(s.activities, IdIs(id))| == |s.activities|
    ensures (forall a :: a in s.activities ==> a.id != id) ==> r.activities == s.activities
    ensures Synced(r)
  {
    var kept := Filter(s.activities, IdIsNot(id));
    FilterIsSubsequence(s.activities, IdIsNot(id));
    FilterPartition(s.activities, IdIsNot(id), IdIs(id));
    assert (forall a :: a in s.activities ==> a.id != id) ==> kept == s.activities by {
      if forall a :: a in s.activities ==> a.id != id {
        FilterKeepsAll(s.activities, IdIsNot(id));
      }
    }
    Persist(kept)
  }

  /**
    `getActivitiesToday`: the records whose creation stamp falls on `today`,
    in list order. `dayOf` stands for `new Date(x).toDateString()`; the
    scheduled `time` plays no part.
  */
  function Today(s: Store, dayOf: string -> string, today: string): (r: seq<Activity>)
    ensures forall a :: a in r <==> a in s.activities && dayOf(a.createdAt) == today
    ensures IsSubsequence(r, s.activities)
    ensures |r| + |Filter(s.activities, CreatedOff(dayOf, today))| == |s.activities|
  {
    FilterIsSubsequence(s.activities, CreatedOn(dayOf, today));
    FilterPartition(s.activities, CreatedOn(dayOf, today), CreatedOff(dayOf, today));
    Filter(s.activities, CreatedOn(dayOf, today))
  }

  /**
    An add extends today's list by the new record exactly when its stamp
    falls on that day, and leaves the list as it was otherwise.
  */
  lemma TodayAfterAdd(s: Store, d: Draft, now: int, iso: string, dayOf: string -> string, today: string)
    ensures var (s', a) := Add(s, d, now, iso);
      Today(s', dayOf, today) == Today(s, dayOf, today) + (if dayOf(iso) == today then [a] else [])
  {
    var a := Stamp(d, now, iso);
    FilterAppend(s.activities, [a], CreatedOn(dayOf, today));
  }

  /** A delete removes from today's list exactly the records carrying that id. */
  lemma TodayAfterDelete(s: Store, id: int, dayOf: string -> string, today: string)
    ensures Today(Delete(s, id), dayOf, today) == Filter(Today(s, dayOf, today), IdIsNot(id))
  {
    FilterCommute(s.activities, IdIsNot(id), CreatedOn(dayOf, today));
  }

  function Min(a: int, b: int): int {
    if a <= b then a else b
  }

  /** `calculateBalance` for a list of `count` records: a base of 45 plus 5 per record, capped at 100. */
  function BalanceScore(count: nat): (score: int)
    ensures 45 <= score <= 100
    ensures count <= 11 ==> score == 45 + 5 * count
    ensures count >= 11 ==> score == 100
  {
    var increment := Min(count * 5, 55);
    Min(45 + increment, 100)
  }

  /** `calculateBalance`: the score depends on the number of records alone. */
  function Balance(s: Store): (score: int)
    ensures 45 <= score <= 100
    ensures |s.activities| <= 11 ==> score == 45 + 5 * |s.activities|
    ensures |s.activities| >= 11 ==> score == 100
  {
    BalanceScore(|s.activities|)
  }

  /** More records never lower the score. */
  lemma BalanceMonotone(m: nat, n: nat)
    requires m <= n
    ensures BalanceScore(m) <= BalanceScore(n)
  {
  }

  /** Deleting the record just added, under a fresh timestamp, restores the previous list. */
  lemma DeleteUndoesAdd(s: Store, d: Draft, now: int, iso: string)
    requires d.id.None?
    requires forall a :: a in s.activities ==> a.id != now
    ensures Delete(Add(s, d, now, iso).0, now).activities == s.activities
  {
    var a := Stamp(d, now, iso);
    FilterAppend(s.activities, [a], IdIsNot(now));
    FilterKeepsAll(s.activities, IdIsNot(now));
    assert Filter([a], IdIsNot(now)) == [];
  }

  /** Adding under a timestamp no record carries keeps ids unique. */
  lemma AddKeepsIdsUnique(s: Store, d: Draft, now: int, iso: string)
    requires UniqueIds(s.activities)
    requires d.id.None?
    requires forall a :: a in s.activities ==> a.id != now
    ensures UniqueIds(Add(s, d, now, iso).0.activities)
  {
    var acts := Add(s, d, now, iso).0.activities;
    forall i, j | 0 <= i < j < |acts|
      ensures acts[i].id != acts[j].id
    {
      if j == |s.activities| {
        assert acts[i] in s.activities;
      }
    }
  }

  /**
    Two adds within the same millisecond stamp the same id, and deleting
    that id then removes both records.
  */
  lemma SameMillisecondAdds(s: Store, d1: Draft, d2: Draft, now: int, iso1: string, iso2: string)
    requires d1.id.None? && d2.id.None?
    ensures var s2 := Add(Add(s, d1, now, iso1).0, d2, now, iso2).0;
      && s2.activities[|s.activities|].id == s2.activities[|s.activities| + 1].id
      && Delete(s2, now).activities == Delete(s, now).activities
  {
    var a1, a2 := Stamp(d1, now, iso1), Stamp(d2, now, iso2);
    var s1 := Add(s, d1, now, iso1).0;
    var s2 := Add(s1, d2, now, iso2).0;
    assert s2.activities == s.activities + [a1, a2] by {
      AddAppends(s, d1, now, iso1);
      AddAppends(s1, d2, now, iso2);
      assert s.activities + [a1] + [a2] == s.activities + [a1, a2];
    }
    assert Filter(s2.activities, IdIsNot(now)) == Filter(s.activities, IdIsNot(now)) by {
      FilterAppend(s.activities, [a1, a2], IdIsNot(now));
      FilterDropsAll([a1, a2], IdIsNot(now));
    }
    DeleteFilters(s2, now);
    DeleteFilters(s, now);
  }

  lemma AddAppends(s: Store, d: Draft, now: int, iso: string)
    ensures Add(s, d, now, iso).0.activities == s.activities + [Stamp(d, now, iso)]
  {
  }

  lemma DeleteFilters(s: Store, id: int)
    ensures Delete(s, id).activities == Filter(s.activities, IdIsNot(id))
  {
  }

  /** With unique ids, at most one record carries a given id. */
  lemma {:induction false} AtMostOneWithId(acts: seq<Activity>, id: int)
    requires UniqueIds(acts)
    ensures |Filter(acts, IdIs(id))| <= 1
    decreases |acts|
  {
    if |acts| > 0 {
      assert UniqueIds(acts[1..]);
      if acts[0].id == id {
        FilterDropsAll(acts[1..], IdIs(id));
      } else {
        AtMostOneWithId(acts[1..], id);
      }
    }
  }

  /** With unique ids, a delete removes at most one record. */
  lemma DeleteRemovesAtMostOne(s: Store, id: int)
    requires UniqueIds(s.activities)
    ensures |Delete(s, id).activities| >= |s.activities| - 1
  {
    AtMostOneWithId(s.activities, id);
  }

  /**
    A run from an empty slot: adding "Run" at 07:00 gives one record, a score
    of 50 and a "today" list holding it; deleting it by its id leaves no
    records and a score of 45.
  */
  lemma RunScenario(now: int, iso: string, dayOf: string -> string)
    ensures Open(Absent).Success?
    ensures var (s1, a) := Add(Open(Absent).value, FromForm("Run", "07:00", 30, Categories.Outdoor, ""), now, iso);
      && |s1.activities| == 1
      && Balance(s1) == 50
      && a in Today(s1, dayOf, dayOf(iso))
      && Delete(s1, a.id).activities == []
      && Balance(Delete(s1, a.id)) == 45
  {
    var (s1, a) := Add(Open(Absent).value, FromForm("Run", "07:00", 30, Categories.Outdoor, ""), now, iso);
    assert s1.activities == [a];
  }
}
