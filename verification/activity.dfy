/** The activity record and the stamping `addActivity` applies to a caller's field bag. */
module Activities {
  import opened Wrappers
  import opened Categories

  /** One stored activity; `id` is a millisecond timestamp and `createdAt` an ISO-8601 string. */
  datatype Activity = Activity(
    id: int,
    name: string,
    time: string,
    duration: int,
    category: Category,
    note: string,
    createdAt: string)

  /**
    The object handed to `addActivity`. The form supplies name, time,
    duration, category and note; `id` and `createdAt` are present only if a
    caller puts them there.
  */
  datatype Draft = Draft(
    id: Option<int>,
    name: string,
    time: string,
    duration: int,
    category: Category,
    note: string,
    createdAt: Option<string>)

  /** The field bag the form's submit handler builds: the five form fields and neither `id` nor `createdAt`. */
  function FromForm(name: string, time: string, duration: int, category: Category, note: string): (d: Draft)
    ensures d.id.None? && d.createdAt.None?
    ensures d.name == name && d.time == time && d.duration == duration && d.category == category && d.note == note
  {
    Draft(None, name, time, duration, category, note, None)
  }

  /**
    `{ id: now, ...draft, createdAt: iso }`: the spread comes after the id,
    so a caller's own `id` replaces the timestamp; `createdAt` is written
    last, so the stamp replaces any `createdAt` the caller passed.
  */
  function Stamp(d: Draft, now: int, iso: string): (a: Activity)
    ensures a.createdAt == iso
    ensures d.id.None? ==> a.id == now
    ensures d.id.Some? ==> a.id == d.id.value
    ensures a.name == d.name && a.time == d.time && a.duration == d.duration
    ensures a.category == d.category && a.note == d.note
  {
    Activity(d.id.GetOr(now), d.name, d.time, d.duration, d.category, d.note, iso)
  }

  /** An activity created from the form always carries the clock's id. */
  lemma FormActivityId(name: string, time: string, duration: int, category: Category, note: string, now: int, iso: string)
    ensures Stamp(FromForm(name, time, duration, category, note), now, iso).id == now
  {
  }
}
