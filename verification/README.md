# LifeFlow activity planner — verified model of its activity store and views

LifeFlow is a single-page browser planner. A user logs activities, each with
a name, an "HH:MM" time, a duration in minutes, a category, a note and a
creation stamp. The `ActivityManager` keeps the activity list in memory. It
mirrors the whole list to one browser storage slot after every change. It
also derives the activities created today and a "life balance" score. The
views read that list in three ways. The list view sorts it by time. The
timeline sorts it into 24 hour buckets under 12-hour labels. The metrics
panel shows the planned count, the outdoor time (formatted by
`formatDuration`) and a progress bar coloured by the score. The header
clock shows the time and two hour-of-day captions.

This project models that logic in Dafny as immutable datatypes and pure
functions, and proves what the code promises:

| file | module | models |
|---|---|---|
| `wrappers.dfy` | `Wrappers` | `Option` and `Result` |
| `numerals.dfy` | `Numerals` | `${n}`, `parseInt` on digit runs, `padStart(2, '0')` |
| `textorder.dfy` | `TextOrder` | character-code order of strings, as used for `time` |
| `seqs.dfy` | `Seqs` | `filter`, a summing `reduce`, `split(c)[0]` |
| `categories.dfy` | `Categories` | the `CATEGORY_COLORS` table, as a closed datatype |
| `activity.dfy` | `Activities` | the activity record and `addActivity`'s stamping |
| `persistence.dfy` | `Persistence` | the storage slot and the stored array's layout |
| `store.dfy` | `ActivityStore` | `ActivityManager`: load, add, delete, today, balance |
| `listview.dfy` | `ListView` | the list view's in-place sort by `time` |
| `timeline.dfy` | `Timeline` | hour bucketing, hour labels, the timeline grid |
| `metrics.dfy` | `Metrics` | duration sums, count text, progress colour, `formatDuration` |
| `clock.dfy` | `Clock` | the "HH:MM" clock text, shift and energy captions |

Inputs the source reads from the environment become parameters:
- `Date.now()` is `now`.
- `new Date().toISOString()` is `iso`.
- `toDateString()` is a function `dayOf` together with the current day `today`.
- `getHours()` and `getMinutes()` are `h` and `m`.

The storage slot holds the JSON value tree that `JSON.stringify` writes, not
its text. `Load` reads it back and `Save` writes it.

`getActivitiesToday` selects records by the day of their creation stamp,
not by their scheduled `time`. The model keeps that behaviour as written:
a record created yesterday for a time today is not in today's list.

The model is stricter than the code in three places:
- A stored value that is not an array is a load error here (`NotAList`).
  The code keeps whatever `JSON.parse` returns (script.js:21). No non-array
  value has a `sort` method, so the list view throws at script.js:121.
- A stored record that is not an object, lacks one of the seven fields, or
  has a field of the wrong type is a load error here (`MalformedRecord`).
  The code keeps such a record, and what happens next depends on the field:
  - A `null` record, or one whose `time` is missing or not a string, makes
    the timeline throw at `split` (script.js:166). A `null` record also
    makes the list view throw: at script.js:121 when the sort compares it,
    otherwise at the first field the template reads (script.js:129). A
    record whose `time` is missing or a number may make the list view throw
    at `localeCompare` (script.js:121), depending on which side of the
    comparison the record falls. As the left operand it throws. As the right
    operand its time is converted to text and the sort completes.
  - A missing `category` makes the table lookups throw (script.js:135 and
    178).
  - A missing `duration` shows as "undefinedm" in the list (script.js:134).
    It turns the outdoor total into "NaNh" when the record's category is
    `outdoor` (script.js:216 and 245-249).
  - A missing `note` shows nothing (script.js:137).
  - A missing `createdAt` is read only by `getActivitiesToday`
    (script.js:44-50), which no view calls.
- A stored category key outside the table is a load error here
  (`UnknownCategory`). The code loads such a record. A view throws when it
  looks the key up in the table (script.js:135 and 178), except for keys
  that every object inherits, such as `constructor` or `toString`. There the
  lookup finds the inherited value and the view renders without throwing.

## Model

| member | source | states |
|---|---|---|
| `Categories.ParseCategory` | script.js:2-10 | A key reads as a category exactly when it is one of the seven table keys, and the category read has that key. |
| `Categories.ParseKey` | script.js:2-10 | Every category's key reads back as that category. |
| `Categories.TableColumnsInjective` | script.js:2-10 | Distinct categories differ in key, display name, hex colour and rgb colour. |
| `Activities.Stamp` | script.js:29-33 | The stamp always sets `createdAt`. A caller-supplied `id` overrides the timestamp because the spread comes after it. The other fields are the caller's. |
| `Activities.FromForm` | script.js:305-311 | The form's field bag carries the five form fields and neither an id nor a creation stamp. |
| `Activities.FormActivityId` | script.js:305-313 | The form never passes an id, so a record added from the form carries the timestamp as its id. |
| `Persistence.Lookup` | script.js:21 | A key found in a stored object is one of its members, and a key that is not found matches no member. |
| `Persistence.LookupLastWins` | script.js:21 | With a repeated key the last member wins, as in `JSON.parse`: the value found sits at a position whose key no later member repeats. |
| `Persistence.LookupFinds` | script.js:21 | Conversely, a member whose key no later member repeats is the one found. |
| `Persistence.Encode` | script.js:25 | A saved record is an object of seven members. |
| `Persistence.EncodedKeysDistinct` | script.js:25 | No key appears twice in a saved record. |
| `Persistence.EncodedFields` | script.js:25 | Each field of a saved record is found under its own key, with its own type. |
| `Persistence.DecodeRecord` | script.js:21 | A record that does not read is reported at its own position, as malformed or as carrying a key outside the category table. |
| `Persistence.DecodeRecordFields` | script.js:21 | A record that reads is an object whose seven fields, each under its own key, are the fields of the activity read. |
| `Persistence.DecodeRecordAccepts` | script.js:21 | Conversely, an object that has the seven fields with their types, in any order and among any other members, and whose category key is in the table, reads as exactly the activity those fields name. |
| `Persistence.DecodeList` | script.js:21 | A stored array loads exactly when every record reads. The result then has one activity per record, in order. Otherwise the error is that of a record that does not read. |
| `Persistence.Collect` | script.js:21 | All values when every record reads, in order, and otherwise the error of a failing record. |
| `Persistence.DecodeListFirstFailure` | script.js:21 | A failed load reports the first record that does not read: every record before it reads. |
| `Persistence.Load` | script.js:19-22 | An empty slot loads as the empty list. A stored array is read record by record. Any other stored value is an error. |
| `Persistence.DecodeEncode` | script.js:25 | Every field of a record survives saving and loading. |
| `Persistence.Save` | script.js:24-26 | `saveActivities` overwrites the slot with a value that loads back as exactly the saved list. |
| `Persistence.DecodeEncodeAll` | script.js:21-25 | The saved array of records reads back record by record, each at its own position, as the list it was written from. |
| `Persistence.LoadAfterSave` | script.js:19-26 | Loading the slot right after a save gives back the saved list, field for field. |
| `Persistence.SaveInjective` | script.js:24-26 | Different lists never save to the same slot contents. |
| `ActivityStore.Open` | script.js:15-22 | The constructor's list is whatever the slot holds. An empty slot gives the empty list. A slot that cannot be read gives the load's error. After opening, the slot and the list agree. |
| `ActivityStore.Persist` | script.js:24-26 | After a save, the list is unchanged and the slot reads back as exactly that list. |
| `ActivityStore.Add` | script.js:28-37 | The list grows by exactly one record, and the earlier records are unchanged. The new record is last and is the one returned. Its fields are the stamped draft. The whole list is then written to the slot. |
| `ActivityStore.Delete` | script.js:39-42 | Delete keeps exactly the records whose id differs, as a subsequence in the original order. The number removed is the number of records with that id. An absent id leaves the list unchanged. The result is written to the slot. |
| `ActivityStore.Today` | script.js:44-50 | A record is listed exactly when its creation stamp falls on the given day, whatever its scheduled time. Records keep their list order. Every record of that day is kept, duplicates included: today's count plus the other days' count is the list length. |
| `ActivityStore.TodayAfterAdd` | script.js:28-50 | An add appends the new record to today's list exactly when its stamp falls on that day, and leaves the list as it was otherwise. |
| `ActivityStore.TodayAfterDelete` | script.js:39-50 | After a delete, today's list is the old one without the records carrying that id. |
| `ActivityStore.Balance` | script.js:52-57 | The score of a store lies in [45, 100]. It is 45 + 5 per record up to 11 records and 100 from 11 records on, whatever the records hold. |
| `ActivityStore.BalanceScore` | script.js:52-57 | The score always lies in [45, 100]. It is 45 + 5·n up to 11 records and 100 from 11 records on. |
| `ActivityStore.BalanceMonotone` | script.js:52-57 | More records never lower the score. |
| `ActivityStore.DeleteUndoesAdd` | script.js:28-42 | Adding a form record under a fresh timestamp and then deleting that id gives back the previous list. |
| `ActivityStore.AddKeepsIdsUnique` | script.js:28-37 | Adding under a timestamp that no record carries keeps ids unique. |
| `ActivityStore.SameMillisecondAdds` | script.js:28-42 | Two adds within one millisecond share an id, and deleting that id removes both records. |
| `ActivityStore.AtMostOneWithId` | script.js:40 | When ids are unique, at most one record has a given id. |
| `ActivityStore.DeleteRemovesAtMostOne` | script.js:39-42 | When ids are unique, a delete removes at most one record. |
| `ActivityStore.RunScenario` | script.js:28-57 | Start from an empty slot and add "Run" at 07:00 (30 minutes, outdoor). The list then holds one record, the score is 50, and today's list contains the record. Deleting it by id leaves no records and a score of 45. |
| `ListView.Insert` | script.js:121 | Insertion adds exactly the one record: the result is a permutation of the old list plus that record. |
| `ListView.InsertKeepsSorted` | script.js:121 | Inserting into a list sorted by time keeps it sorted. |
| `ListView.SortByTime` | script.js:121 | The list view's order is sorted by `time` and is a permutation of the activities. |
| `ListView.InsertAtTime` | script.js:121 | An inserted record goes after every record with the same time, and the records of other times keep their order. |
| `ListView.SortStable` | script.js:121 | The sort is stable: for every time, the records with that time appear in the same relative order as before. |
| `ListView.StableSortUnique` | script.js:121 | Two sequences sorted by time that agree on each time's records are equal. So any stable sort by the same comparison gives exactly this order. |
| `ListView.ShowList` | script.js:119-121 | The sort runs in place. Afterwards the store holds the sorted order of the same records, and the slot is untouched. |
| `ListView.ShowListKeepsSlot` | script.js:121 | After the list view, the slot still reads back as the same records, possibly in an older order. |
| `ListView.AddAfterShowList` | script.js:121 | The next add saves the list view's order, followed by the new record. |
| `Timeline.HourOf` | script.js:166-167 | A time that gives an hour at all starts with a digit. |
| `Timeline.HourOfDigitRun` | script.js:166-167 | A run of digits that ends at the first ':' or at the end of the text is read as the value it spells. |
| `Timeline.BucketByHour` | script.js:159-169 | The scan over the list fills bucket h with exactly the activities of hour h, in list order, for each of the 24 hours. |
| `Timeline.BucketsPartition` | script.js:159-169 | The 24 bucket sizes add up to the number of activities. |
| `Timeline.BucketOfActivity` | script.js:165-169 | Each activity lies in the bucket of its own hour and in no other. |
| `Timeline.HourLabel` | script.js:175 | The label ends in " AM" for hours 0-11 and " PM" for 12-23. Its number is written without padding, is between 1 and 12, and equals the hour modulo 12, with 12 standing for 0. |
| `Timeline.LabelHour` | script.js:175 | Reading a label gives an hour of the day (0-23). A padded number such as "01 AM" does not read. |
| `Timeline.LabelHourRoundTrip` | script.js:175 | Every label reads back as its own hour, so the 24 labels are distinct. |
| `Timeline.LabelHourExact` | script.js:175 | A text reads as hour h exactly when it is the label written for h. |
| `Timeline.TimelineView` | script.js:149-191 | An empty list shows the empty state. Otherwise the grid has 24 rows in hour order, each with its hour's label and its hour's activities. Row h's heading is the label of h and reads back as h. |
| `Metrics.OutdoorDuration` | script.js:215-216 | Only outdoor records count: with none the sum is 0, and when every record is outdoor it is the total duration. |
| `Metrics.OutdoorShare` | script.js:214-216 | Outdoor time plus the time of all other categories equals the total duration. |
| `Metrics.OutdoorWithinTotal` | script.js:214-216 | When no duration is negative, outdoor time lies between zero and the total. |
| `Metrics.CountText` | script.js:219-224 | Both branches write "N planned", and N reads back as the count. |
| `Metrics.ProgressColour` | script.js:236-242 | The bar is red below 50, amber from 50 up to 74 and green from 75. |
| `Metrics.BarBackground` | script.js:236-242 | The bar's background is the red gradient exactly below 50, the amber one exactly from 50 to 74, and the green one exactly from 75. |
| `Metrics.ColourMonotone` | script.js:236-242 | A higher score never gets a lower colour. |
| `Metrics.ColourOfCount` | script.js:230-242 | Through the balance score, the bar is red for no records, amber for one to five and green from six on. |
| `Metrics.FormatDuration` | script.js:245-250 | The text ends in 'h' exactly for whole hours of an hour or more, and in 'm' otherwise. |
| `Metrics.FormatDurationShape` | script.js:245-250 | Below 60 the text is the minute count, sign included and without padding, then 'm', with no hour part. From 60 on it shows the whole hours (minutes div 60) and the leftover minutes (minutes mod 60, below 60), as "Xh Ym", or as "Xh" exactly when the leftover is 0. |
| `Metrics.FormatDurationRoundTrip` | script.js:245-250 | Reading the text back gives the same number of minutes: hours·60 plus the leftover minutes rebuild the input. |
| `Metrics.FormatDurationInjective` | script.js:245-250 | Different minute counts never give the same text. |
| `Numerals.PadTwo` | script.js:259-260 | A number below 100, padded, is exactly two digits. |
| `Numerals.PadTwoDigits` | script.js:351-352 | The padded text is the tens digit followed by the units digit. |
| `Numerals.NatToStringOfRead` | script.js:175 | Canonical digit text is the text of the number it reads as, so no other spelling names that number. |
| `Clock.ClockText` | script.js:259-261 | The clock text has five characters: two digits, a ':', then two digits. |
| `Clock.ClockTextHour` | script.js:350-353 | The form's default time lands in the timeline bucket of the current hour. |
| `Clock.ClockTextOrder` | script.js:351-353 | Comparing two padded "HH:MM" texts character by character orders them as the times of day they name. |
| `Clock.HourContext` | script.js:264-271 | Counting from 18:00, the day is twelve hours "During your shift", then eight hours "Recovery time", then four hours "Free time". |
| `Clock.ContextCaption` | script.js:264-271 | The caption is "During your shift" exactly from 18:00 to 05:59, "Recovery time" exactly from 06:00 to 13:59, and "Free time" exactly from 14:00 to 17:59. |
| `Clock.HourEnergy` | script.js:279-285 | Counting from 22:00, the day is six hours of low energy, then six of high, then twelve of medium. |
| `Clock.EnergyCaption` | script.js:279-285 | The stat reads "Energy: Low" exactly from 22:00 to 03:59, "Energy: High" exactly from 04:00 to 09:59, and "Energy: Medium" exactly from 10:00 to 21:59. |

## Left out

- DOM work is not modelled: modals, toasts, section navigation, `innerHTML` templates, inline styles, event listeners, and the list view's empty-state text. It is UI plumbing with no logic of its own.
- `escapeHtml` is not modelled, because it depends on a DOM element's text serialisation.
- `Persistence.DecodeRecord` rejects records the code keeps: non-objects, records with missing or wrongly typed fields, and unknown category keys. A record here always has all seven fields with their types. So the views' handling of such records ("undefinedm", "NaNh", the throws listed above) is not modelled. Other members of a stored record are dropped when it loads, so the next save no longer writes them. The code keeps them in the parsed object, and `JSON.stringify` writes them back on every save (script.js:25).
- `localStorage` and the text of `JSON.stringify`/`JSON.parse` are foreign calls. The slot holds the JSON value tree instead. Quota and access errors on save are not modelled.
- A slot holding the empty string loads as an empty list in the source, because `""` is falsy. Saves never write it, and a value tree cannot express it.
- `Date`, `toISOString`, `toDateString` and `getHours` depend on the time zone and locale. They are parameters here.
- `setTimeout`, `setInterval` and `confirm` are timers and user interaction, so they are not modelled.
- `Timeline.HourOf` reads only an all-digit hour part. `parseInt` also accepts leading spaces, a sign, a `0x` hex prefix ("0x10:00" goes into hour 16) and trailing junk ("7abc"). Hour parts other than 0-23 crash the source, so `Timeline.Plottable` is a precondition.
- `ListView.SortByTime` compares by character code, not `localeCompare`. The two agree on zero-padded "HH:MM" strings (`Clock.ClockTextOrder`), because ':' always sits at the same place and so is never compared with a digit.
- `Activities.Stamp`: the draft lists only the form's fields plus optional `id` and `createdAt`. Other keys a caller might spread in are not modelled.
- Durations and ids are unbounded integers. JavaScript numbers are doubles, and a `NaN` duration from an empty input is not modelled.
- The progress bar's width (`${balanceScore}%`) and the score text (script.js:231-232) are plain text output.
