/**
  The storage slot `lifeflow_activities` and the serialised form of the
  activity list. The slot holds a JSON value (the tree `JSON.stringify`
  writes and `JSON.parse` reads back), not its text.
*/
module Persistence {
  import opened Wrappers
  import opened Categories
  import opened Activities

  datatype Json =
    | JNull
    | JBool(b: bool)
    | JNumber(n: int)
    | JString(s: string)
    | JArray(items: seq<Json>)
    | JObject(members: seq<Member>)

  /** One `"key": value` pair of an object, in the order written. */
  datatype Member = Member(key: string, value: Json)

  /** Why a stored value is not a list of activities. Indices are positions in the stored array. */
  datatype DecodeError =
    | NotAList
    | MalformedRecord(index: nat)
    | UnknownCategory(index: nat, key: string)

  /** The single storage slot: empty until the first save, then the last saved value. */
  datatype Slot = Absent | Holds(stored: Json)

  /** An object's value under `key`; with duplicated keys the last one wins, as with `JSON.parse`. */
  function Lookup(ms: seq<Member>, key: string): (r: Option<Json>)
    ensures r.Some? ==> exists i :: 0 <= i < |ms| && ms[i] == Member(key, r.value)
    ensures r.None? ==> forall i :: 0 <= i < |ms| ==> ms[i].key != key
    decreases |ms|
  {
    if |ms| == 0 then None
    else if ms[|ms| - 1].key == key then Some(ms[|ms| - 1].value)
    else Lookup(ms[..|ms| - 1], key)
  }

  /** The number stored under `key`, if the value there is a number. */
  function NumberField(ms: seq<Member>, key: string): Option<int> {
    match Lookup(ms, key)
    case Some(JNumber(n)) => Some(n)
    case _ => None
  }

  /** The string stored under `key`, if the value there is a string. */
  function StringField(ms: seq<Member>, key: string): Option<string> {
    match Lookup(ms, key)
    case Some(JString(t)) => Some(t)
    case _ => None
  }

  /** One activity as `JSON.stringify` lays it out: id first, the form's fields, then `createdAt`. */
  function Encode(a: Activity): (j: Json)
    ensures j.JObject? && |j.members| == 7
  {
    JObject([
      Member("id", JNumber(a.id)),
      Member("name", JString(a.name)),
      Member("time", JString(a.time)),
      Member("duration", JNumber(a.duration)),
      Member("category", JString(Key(a.category))),
      Member("note", JString(a.note)),
      Member("createdAt", JString(a.createdAt))
    ])
  }

  function EncodeAll(acts: seq<Activity>): (items: seq<Json>)
    ensures |items| == |acts|
  {
    seq(|acts|, i requires 0 <= i < |acts| => Encode(acts[i]))
  }

  /** Reads the record at position `index` of the stored array. */
  function DecodeRecord(j: Json, index: nat): (r: Result<Activity, DecodeError>)
    ensures r.Failure? ==> r.error.MalformedRecord? || r.error.UnknownCategory?
    ensures r.Failure? ==> r.error.index == index
    ensures r.Failure? && r.error.UnknownCategory? ==> ParseCategory(r.error.key).None?
  {
    match j
    case JObject(ms) =>
      var id, name, time := NumberField(ms, "id"), StringField(ms, "name"), StringField(ms, "time");
      var duration, key := NumberField(ms, "duration"), StringField(ms, "category");
      var note, createdAt := StringField(ms, "note"), StringField(ms, "createdAt");
      if id.Some? && name.Some? && time.Some? && duration.Some? && key.Some? && note.Some? && createdAt.Some? then
        match ParseCategory(key.value)
        case Some(c) => Success(Activity(id.value, name.value, time.value, duration.value, c, note.value, createdAt.value))
        case None => Failure(UnknownCategory(index, key.value))
      else
        Failure(MalformedRecord(index))
    case _ => Failure(MalformedRecord(index))
  }

  /**
    Reads the stored array whose first element sits at position `base`:
    it succeeds exactly when every record reads, and otherwise reports the
    error of a record that does not (the first one, by `DecodeListFirstFailure`).
  */
  function DecodeList(items: seq<Json>, base: nat): (r: Result<seq<Activity>, DecodeError>)
    ensures r.Success? <==> forall i :: 0 <= i < |items| ==> DecodeRecord(items[i], base + i).Success?
    ensures r.Success? ==> |r.value| == |items|
    ensures r.Success? ==> forall i :: 0 <= i < |items| ==> r.value[i] == DecodeRecord(items[i], base + i).value
    ensures r.Failure? ==> exists k :: 0 <= k < |items| && DecodeRecord(items[k], base + k) == Failure(r.error)
  {
    Collect(Outcomes(items, base))
  }

  /** What reading each record of a stored array gives, in order; `base` is the first record's position. */
  function Outcomes(items: seq<Json>, base: nat): (rs: seq<Result<Activity, DecodeError>>)
    ensures |rs| == |items|
    ensures forall i :: 0 <= i < |items| ==> rs[i] == DecodeRecord(items[i], base + i)
  {
    seq(|items|, i requires 0 <= i < |items| => DecodeRecord(items[i], base + i))
  }

  /**
    Every value when all outcomes succeed, and otherwise the error of a
    failing one: the first, since the scan stops there.
  */
  function Collect<T(==), E(==)>(rs: seq<Result<T, E>>): (r: Result<seq<T>, E>)
    ensures r.Success? <==> forall i :: 0 <= i < |rs| ==> rs[i].Success?
    ensures r.Success? ==> |r.value| == |rs| && forall i :: 0 <= i < |rs| ==> r.value[i] == rs[i].value
    ensures r.Failure? ==> exists k :: 0 <= k < |rs| && rs[k] == Failure(r.error)
    decreases |rs|
  {
    if |rs| == 0 then Success([])
    else
      var tail := rs[1..];
      assert forall i :: 0 < i < |rs| ==> rs[i] == tail[i - 1];
      match rs[0]
      case Failure(e) => Failure(e)
      case Success(a) =>
        match Collect(tail)
        case Failure(e) => Failure(e)
        case Success(rest) => Success([a] + rest)
  }

  /** Some outcome fails with `e`, and every outcome before it is a success. */
  predicate FirstFailureIs<T(==), E(==)>(rs: seq<Result<T, E>>, e: E) {
    exists k :: 0 <= k < |rs| && rs[k] == Failure(e) && forall j :: 0 <= j < k ==> rs[j].Success?
  }

  /** A failed read reports the first record that does not read: every record before it reads. */
  lemma DecodeListFirstFailure(items: seq<Json>, base: nat)
    requires DecodeList(items, base).Failure?
    ensures FirstFailureIs(Outcomes(items, base), DecodeList(items, base).error)
  {
    CollectFirstFailure(Outcomes(items, base));
  }

  lemma {:induction false} CollectFirstFailure<T, E>(rs: seq<Result<T, E>>)
    requires Collect(rs).Failure?
    ensures FirstFailureIs(rs, Collect(rs).error)
    decreases |rs|
  {
    var e := Collect(rs).error;
    if rs[0].Failure? {
      assert rs[0] == Failure(e);
    } else {
      CollectFirstFailure(rs[1..]);
      FailureInTail(rs, e);
    }
  }

  /** A failure after a success is still the first failure. */
  lemma FailureInTail<T, E>(rs: seq<Result<T, E>>, e: E)
    requires |rs| > 0 && rs[0].Success?
    requires FirstFailureIs(rs[1..], e)
    ensures FirstFailureIs(rs, e)
  {
  }

  /** `loadActivities`: an empty slot is an empty list; a stored value must be an array of records. */
  function Load(slot: Slot): (r: Result<seq<Activity>, DecodeError>)
    ensures slot.Absent? ==> r == Success([])
    ensures slot.Holds? && slot.stored.JArray? ==> r == DecodeList(slot.stored.items, 0)
    ensures slot.Holds? && !slot.stored.JArray? ==> r == Failure(NotAList)
  {
    match slot
    case Absent => Success([])
    case Holds(JArray(items)) => DecodeList(items, 0)
    case Holds(_) => Failure(NotAList)
  }

  /** `saveActivities`: the slot is overwritten with the whole list, which loads back unchanged. */
  function Save(acts: seq<Activity>): (r: Slot)
    ensures Load(r) == Success(acts)
  {
    DecodeEncodeAll(acts);
    Holds(JArray(EncodeAll(acts)))
  }

  /** With a repeated key the last member wins: the value found sits at a position no later member's key repeats. */
  lemma {:induction false} LookupLastWins(ms: seq<Member>, key: string)
    requires Lookup(ms, key).Some?
    ensures exists i :: 0 <= i < |ms| && ms[i] == Member(key, Lookup(ms, key).value) && forall j :: i < j < |ms| ==> ms[j].key != key
    decreases |ms|
  {
    var n := |ms| - 1;
    if ms[n].key == key {
      assert ms[n] == Member(key, Lookup(ms, key).value);
    } else {
      var prefix := ms[..n];
      LookupLastWins(prefix, key);
      var i :| 0 <= i < |prefix| && prefix[i] == Member(key, Lookup(prefix, key).value)
        && forall j :: i < j < |prefix| ==> prefix[j].key != key;
      assert ms[i] == prefix[i];
      forall j | i < j < |ms|
        ensures ms[j].key != key
      {
        if j < n {
          assert ms[j] == prefix[j];
        }
      }
    }
  }

  /** A key that no later member repeats is found at its own position. */
  lemma {:induction false} LookupFinds(ms: seq<Member>, key: string, i: nat)
    requires i < |ms| && ms[i].key == key
    requires forall j :: i < j < |ms| ==> ms[j].key != key
    ensures Lookup(ms, key) == Some(ms[i].value)
    decreases |ms|
  {
    if i < |ms| - 1 {
      LookupFinds(ms[..|ms| - 1], key, i);
    }
  }

  /** No key appears twice in a saved record, so which duplicate wins never matters for it. */
  lemma EncodedKeysDistinct(a: Activity)
    ensures forall i, k :: 0 <= i < k < |Encode(a).members| ==> Encode(a).members[i].key != Encode(a).members[k].key
  {
  }

  /** Each field of an encoded record is found under its own key, with its own type. */
  lemma EncodedFields(a: Activity)
    ensures NumberField(Encode(a).members, "id") == Some(a.id)
    ensures StringField(Encode(a).members, "name") == Some(a.name)
    ensures StringField(Encode(a).members, "time") == Some(a.time)
    ensures NumberField(Encode(a).members, "duration") == Some(a.duration)
    ensures StringField(Encode(a).members, "category") == Some(Key(a.category))
    ensures StringField(Encode(a).members, "note") == Some(a.note)
    ensures StringField(Encode(a).members, "createdAt") == Some(a.createdAt)
  {
    var ms := Encode(a).members;
    assert NumberField(ms, "id") == Some(a.id) by {
      LookupFinds(ms, "id", 0);
    }
    assert StringField(ms, "name") == Some(a.name) by {
      LookupFinds(ms, "name", 1);
    }
    assert StringField(ms, "time") == Some(a.time) by {
      LookupFinds(ms, "time", 2);
    }
    assert NumberField(ms, "duration") == Some(a.duration) by {
      LookupFinds(ms, "duration", 3);
    }
    assert StringField(ms, "category") == Some(Key(a.category)) by {
      LookupFinds(ms, "category", 4);
    }
    assert StringField(ms, "note") == Some(a.note) by {
      LookupFinds(ms, "note", 5);
    }
    assert StringField(ms, "createdAt") == Some(a.createdAt) by {
      LookupFinds(ms, "createdAt", 6);
    }
  }

  /** A record that reads is an object whose seven fields are, each under its own key, the activity's fields. */
  lemma DecodeRecordFields(j: Json, index: nat)
    requires DecodeRecord(j, index).Success?
    ensures var a := DecodeRecord(j, index).value;
      && j.JObject?
      && NumberField(j.members, "id") == Some(a.id)
      && StringField(j.members, "name") == Some(a.name)
      && StringField(j.members, "time") == Some(a.time)
      && NumberField(j.members, "duration") == Some(a.duration)
      && StringField(j.members, "category") == Some(Key(a.category))
      && StringField(j.members, "note") == Some(a.note)
      && StringField(j.members, "createdAt") == Some(a.createdAt)
  {
  }

  /**
    The converse: an object whose seven fields are present with their types,
    in any order and alongside any other members, and whose category key is
    in the table, reads as the activity those fields name.
  */
  lemma DecodeRecordAccepts(ms: seq<Member>, index: nat)
    requires NumberField(ms, "id").Some? && StringField(ms, "name").Some? && StringField(ms, "time").Some?
    requires NumberField(ms, "duration").Some? && StringField(ms, "note").Some? && StringField(ms, "createdAt").Some?
    requires StringField(ms, "category").Some? && ParseCategory(StringField(ms, "category").value).Some?
    ensures DecodeRecord(JObject(ms), index) == Success(Activity(
      NumberField(ms, "id").value, StringField(ms, "name").value, StringField(ms, "time").value,
      NumberField(ms, "duration").value, ParseCategory(StringField(ms, "category").value).value,
      StringField(ms, "note").value, StringField(ms, "createdAt").value))
  {
  }

  /** Every field of a record survives encoding and decoding. */
  lemma DecodeEncode(a: Activity, index: nat)
    ensures DecodeRecord(Encode(a), index) == Success(a)
  {
    EncodedFields(a);
    ParseKey(a.category);
  }

  /** Every encoded record reads back as itself, at every position. */
  lemma DecodeEncodeAll(acts: seq<Activity>)
    ensures DecodeList(EncodeAll(acts), 0) == Success(acts)
  {
    var items := EncodeAll(acts);
    forall i | 0 <= i < |items|
      ensures DecodeRecord(items[i], i) == Success(acts[i])
    {
      DecodeEncode(acts[i], i);
    }
    var r := DecodeList(items, 0);
    assert r.Success?;
    assert r.value == acts;
  }

  /** Loading what was just saved yields the same list, field for field. */
  lemma LoadAfterSave(acts: seq<Activity>)
    ensures Load(Save(acts)) == Success(acts)
  {
  }

  /** Two lists that save to the same slot are the same list. */
  lemma SaveInjective(a: seq<Activity>, b: seq<Activity>)
    requires Save(a) == Save(b)
    ensures a == b
  {
  }
}
