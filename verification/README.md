# Lodge attendance store — a Dafny model

This project models the core of a small attendance tracker for a lodge's weekly
Friday meetings. Members are kept in a roster. For each meeting date, a list of
member ids records who is excused ("giustificato") that day. Some members are
permanently excused ("fissi") and count as excused on every date. The app
derives the names to show, an excused total, and a plain-text list to share.

The model follows `App.tsx`, `constants.ts` and `types.ts`:

- `types.dfy` (module `Types`) holds the records: `Member` (id, name,
  permanent flag, optional role), `AttendanceRecord` (a map from a date key to
  a list of ids) and `Snapshot` (the persisted state after parsing).
- `seqs.dfy` (module `Seqs`) holds `Array.prototype.filter` as `Filter`, with
  the facts the rest relies on.
- `jstext.dfy` (module `JsText`) holds the parts of the JavaScript string
  library that the code uses:
  - `String.prototype.trim`, with ECMAScript's whitespace set;
  - the decimal rendering of a number in a template literal;
  - a code-point order standing in for `localeCompare`.
- `roster.dfy` (module `Roster`) models the save-member action (the add and
  edit branches), deletion, and the split into permanent members and active
  members. Active members are sorted by name with a stable sort.
- `attendance.dfy` (module `Attendance`) models reading a date's list (a
  missing date reads as the empty list) and toggling one id on one date.
- `derived.dfy` (module `Derived`) models the excused names, the permanent
  names, the excused total and the lines of the copied list.
- `calendar.dfy` (module `Calendar`) models the calendar cursor. A date is a
  day number counted from 1970-01-01 (a Thursday), so `getDay()` is
  `(day + 4) % 7`. It covers the Friday snap at start-up, the jump to the next
  Friday and the ±7-day steps.
- `constants.dfy` (module `Constants`) holds the 32-member seed roster, the
  storage key `"lodgekeeper_data_v2"` and the three roles the member form
  offers.
- `persistence.dfy` (module `Persistence`) models the start-up fallback over
  an optional parsed snapshot and the snapshot written after each change.
- `session.dfy` (module `Session`) holds the class `LodgeSession`. Its fields
  are the roster, the per-date lists and the cursor. Its methods are the
  user's actions, each stated against the functions above.

Some behaviours of the code that the model keeps as written:

- `parsed.members || INITIAL_MEMBERS` keeps an empty stored roster, because an
  empty array is truthy; only a missing roster falls back to the seed.
- Deleting a member leaves its id in every date's list.
- Nothing in App.tsx keeps ids unique (a loaded roster is taken as it is). If an
  active member shares a permanent member's id, toggling the active member puts
  that id in the list, so keeping permanent ids out holds only for unique ids.
- The total counts the raw length of the date's list, stale and repeated ids
  included.
- The heading lines of the copied list are the characters `App.tsx` holds,
  which are the mis-decoded bytes of three emoji (code points U+F8FF U+FC U+E8 U+F5 U+D4 U+220F U+E8,
  U+F8FF U+FC U+F5 U+B0 U+D4 U+220F U+E8, and U+201A U+FA U+E7 U+D4 U+220F U+E8).

## Model

| member | source | states |
|---|---|---|
| `JsText.Trim` | App.tsx:121 | The trimmed name is blank exactly when every character is whitespace; otherwise it has no whitespace at either end |
| `JsText.TrimIsInfix` | App.tsx:127 | The trimmed name is the middle of the typed name, between a whitespace prefix and a whitespace suffix |
| `JsText.TrimIdempotent` | App.tsx:135 | Trimming an already trimmed name changes nothing |
| `JsText.TrimFixesTrimmed` | App.tsx:121 | A name with no whitespace at either end is its own trim |
| `JsText.NatToString` | App.tsx:185 | The rendered total is digits only, with a leading zero only for 0 |
| `JsText.ParseNatToString` | App.tsx:185 | Reading the rendered total back gives the total |
| `JsText.LexTotal` | App.tsx:162 | The name order relates every two names |
| `JsText.LexTransitive` | App.tsx:162 | The name order is transitive |
| `JsText.LexAntisymmetric` | App.tsx:162 | Two names ordered both ways are equal |
| `Seqs.Filter` | App.tsx:151 | The filter keeps exactly the elements that pass the test, and is no longer than its input |
| `Seqs.FilterConcat` | App.tsx:151 | Filtering keeps the relative order of the kept elements |
| `Roster.Edited` | App.tsx:125-130 | Editing keeps the length, each id and each position; members with the edited id get the new name, role and flag; every other member is unchanged |
| `Roster.EditedKeepsIds` | App.tsx:125-130 | Editing leaves the id list unchanged, so unique ids stay unique |
| `Roster.EditedUnknownId` | App.tsx:125 | Editing an id not in the roster changes nothing |
| `Roster.EditedIdempotent` | App.tsx:125-130 | Saving the same edit twice equals saving it once |
| `Roster.Added` | App.tsx:133-139 | Adding appends exactly one member at the end with the given id, name, role and flag; earlier members are unchanged |
| `Roster.AddedFresh` | App.tsx:134 | Adding under a fresh id keeps ids unique, and the new id occurs exactly once |
| `Roster.Removed` | App.tsx:150-152 | After deleting, no member has the id; each member with another id occurs as often as before |
| `Roster.RemovedPiecewise` | App.tsx:151 | Deleting keeps the relative order of the remaining members |
| `Roster.RemovedIdempotent` | App.tsx:151 | Deleting twice equals deleting once; deleting an absent id changes nothing |
| `Roster.SaveRoster` | App.tsx:120-140 | A blank trimmed name leaves the roster unchanged; with a non-empty editing id it edits; otherwise it adds under the fresh id |
| `Roster.SaveRosterKeepsUniqueIds` | App.tsx:120-140 | Saving keeps ids unique when the id given for an add is fresh |
| `Roster.SaveRosterStoresTrimmedName` | App.tsx:127-135 | Every member written or rewritten by saving carries the trimmed name, which is non-blank and trimmed |
| `Roster.PermanentMembers` | App.tsx:157 | The permanent members are exactly the roster members with the flag set, and no more than the roster |
| `Roster.PermanentMembersEmpty` | App.tsx:157 | The permanent list is empty exactly when no roster member is permanent |
| `Roster.NoPermanentMembers` | App.tsx:157 | A roster without permanent members has an empty permanent list |
| `Roster.InsertByName` | App.tsx:162 | Inserting by name adds exactly the one member |
| `Roster.SortByName` | App.tsx:162 | Sorting by name is a permutation of its input |
| `Roster.InsertByNameSorted` | App.tsx:162 | Inserting into a name-sorted list keeps it sorted |
| `Roster.SortByNameSorted` | App.tsx:162 | The sorted list is ordered by name |
| `Roster.InsertByNameStable` | App.tsx:162 | An inserted member goes before the members that share its name |
| `Roster.SortByNameStable` | App.tsx:162 | Members sharing a name keep their relative order through the sort |
| `Roster.ActiveMembers` | App.tsx:159-163 | The active members are a permutation of the roster's non-permanent members, sorted by name |
| `Roster.RosterPartition` | App.tsx:157-163 | Permanent and active members partition the roster by the flag, and the active members are sorted by name |
| `Roster.ActiveMembersStable` | App.tsx:159-163 | Active members with equal names appear in roster order |
| `Attendance.DayList` | App.tsx:90 | A date with an entry reads as its stored list; a date without one reads as the empty list |
| `Attendance.RemoveAll` | App.tsx:95 | Removing drops every occurrence of the id and keeps every other id with its count |
| `Attendance.Toggled` | App.tsx:90-98 | The id ends up listed exactly when it was not; an absent id is appended; other ids keep their counts |
| `Attendance.ToggleAt` | App.tsx:100 | A toggle adds only the current date's key and keeps every other date's entry |
| `Attendance.ToggleAtReadsBack` | App.tsx:88-101 | Read through the missing-is-empty rule, only the toggled date changes |
| `Attendance.ToggledTwiceAbsent` | App.tsx:88-101 | Toggling an absent id twice restores the list |
| `Attendance.ToggledTwicePresent` | App.tsx:88-101 | Toggling a present id twice moves it to the end and drops its extra copies; without duplicates the ids are the same as before |
| `Attendance.OccursOnce` | App.tsx:91 | In a duplicate-free list, a listed id occurs exactly once |
| `Attendance.ToggledNoDup` | App.tsx:94-98 | Toggling keeps a duplicate-free list duplicate-free |
| `Attendance.ToggleAtTwice` | App.tsx:88-101 | Toggling an unlisted id twice restores the store, except that a date that had no entry keeps an empty one |
| `Attendance.ToggleScenario` | App.tsx:88-101 | On an empty store, one toggle excuses the id and a second toggle leaves an empty list |
| `Derived.JustifiedNames` | App.tsx:165-169 | There are never more excused names than roster members |
| `Derived.JustifiedNamesMembers` | App.tsx:165-169 | A name is listed exactly when a roster member with that name has a listed id |
| `Derived.JustifiedNamesRosterOrder` | App.tsx:166-168 | The excused names follow roster order |
| `Derived.JustifiedNamesIgnoreUnlisted` | App.tsx:167 | Stale ids, repeated ids and the order of the list do not change the excused names |
| `Derived.PermanentNames` | App.tsx:171 | The permanent names are the permanent members' names, one per member, in roster order |
| `Derived.PermanentNamesMembers` | App.tsx:171 | A name is a permanent name exactly when some permanent member of the roster carries it |
| `Derived.ToggleKeepsWellFormed` | App.tsx:88-101 | Toggling an active member keeps the list duplicate-free and made only of active members' ids |
| `Derived.ToggleKeepsPermanentOut` | components/MemberCard.tsx:26 | When ids are unique, toggling an active member's id never puts a permanent member's id into a list |
| `Derived.ActiveIdNotPermanent` | components/MemberCard.tsx:26 | When ids are unique, an active member's id is no permanent member's id |
| `Derived.SharedIdEntersList` | components/MemberCard.tsx:26 | An example roster in which an active and a permanent member share an id: the guard lets the toggle through and the permanent member's id enters the list |
| `Derived.ExcusedWithinRoster` | App.tsx:173 | On a list kept by the toggle path, the total never exceeds the roster size |
| `Derived.TotalJustified` | App.tsx:173 | The total is at least the list's length and at most that plus the roster size; it equals the list's length exactly when no member is permanent |
| `Derived.TotalJustifiedCountsPermanentTwice` | App.tsx:173 | An example roster of one excused member shows the double count: after an edit to permanent the total is 2 for a roster of 1 |
| `Derived.EditToPermanentCountsTwice` | App.tsx:173 | Editing a listed, non-permanent member with a unique id into a permanent one puts its id among the permanent ids and raises the total by one |
| `Derived.DeleteKeepsTotal` | App.tsx:173 | Deleting a non-permanent member leaves every date's total unchanged, because the stale id is still counted |
| `Derived.Bullets` | App.tsx:180 | There is one "- name" line per name, in order |
| `Derived.SimpleListLines` | App.tsx:175-186 | The list has seven fixed lines, plus one line per permanent name, plus one line per excused name or one placeholder |
| `Derived.SimpleListLayout` | App.tsx:175-186 | The title, the permanent section, today's section and the total appear in that order; "Nessuno" appears exactly when nobody is excused |
| `Calendar.Weekday` | App.tsx:50 | The weekday lies in 0..6 |
| `Calendar.WeekdayShift` | App.tsx:76 | Moving j days moves the weekday j places round the week |
| `Calendar.WeekStepKeepsWeekday` | App.tsx:222-234 | Stepping by whole weeks keeps the weekday |
| `Calendar.ChangeDate` | App.tsx:74-78 | Changing the date moves the cursor by exactly the given number of days, moves the weekday as many places round the week, and keeps it for whole weeks |
| `Calendar.InitialCursor` | App.tsx:47-56 | The start-up offset lies in 0..6, lands on a Friday, and is 0 exactly when today is a Friday |
| `Calendar.InitialCursorNearest` | App.tsx:52 | No Friday lies between today and the start-up cursor |
| `Calendar.NextFriday` | App.tsx:80-85 | The jump offset lies in 1..7 and lands on a Friday |
| `Calendar.NextFridayNearest` | App.tsx:83 | The jump reaches the first Friday strictly after the cursor |
| `Calendar.InitialCursorVersusNextFriday` | App.tsx:49-83 | The two searches differ only on a Friday: start-up stays, the jump moves 7 days |
| `Calendar.WednesdayScenario` | App.tsx:51-52 | On a Wednesday the start-up cursor moves two days on |
| `Calendar.DateKey` | App.tsx:65 | Every day has a non-empty key |
| `Calendar.DateKeyInjective` | App.tsx:65 | Different days have different keys |
| `Constants.SeedIds` | constants.ts:4-37 | The seed roster has 32 members, with ids "1" to "32" in order |
| `Constants.SeedIdsUnique` | constants.ts:5-36 | No two seed members share an id |
| `Constants.SeedHasNoPermanent` | constants.ts:5-36 | No seed member is permanent |
| `Constants.SeedTotalIsZero` | constants.ts:5-36 | A fresh seed roster with no lists has a total of 0 on every date |
| `Constants.SeedRolesOffered` | constants.ts:5-36 | Every seed role is one of the three roles the member form offers |
| `Constants.SeedNamesTrimmed` | constants.ts:5-36 | Every seed name is non-blank and trimmed, so it would pass the form's check |
| `Persistence.Load` | App.tsx:37-45 | A stored roster is used whenever present, and the seed roster exactly when nothing or no roster is stored; the stored lists likewise, or none |
| `Persistence.Save` | App.tsx:59-62 | The saved snapshot carries exactly the given roster and the given lists |
| `Persistence.LoadSaveRoundTrip` | App.tsx:37-62 | Loading a saved snapshot gives back the same roster and lists, including an empty roster |
| `Persistence.LoadMissingRoster` | App.tsx:41-42 | A snapshot without a roster gives the seed roster and keeps its lists |
| `Persistence.LoadMissingAttendance` | App.tsx:41-42 | A snapshot without lists keeps its roster, an empty one included, and starts with no lists |
| `Session.LodgeSession.constructor` | App.tsx:36-57 | Start-up loads the snapshot and puts the cursor on the nearest Friday, 0 to 6 days ahead |
| `Session.LodgeSession.JustifiedIds` | App.tsx:155 | The viewed date's ids are its stored list, or none when the date has no entry |
| `Session.LodgeSession.ToggleJustification` | App.tsx:88-101 | Toggles an active member's id on the viewed date only; other dates, the roster and the cursor are unchanged; when ids are unique, permanent ids stay out of the list |
| `Session.LodgeSession.SaveMember` | App.tsx:120-148 | Sets the roster to the saved roster (unchanged for a blank name); the lists and the cursor are unchanged |
| `Session.LodgeSession.DeleteMember` | App.tsx:150-152 | Removes every member with the id and leaves the lists untouched |
| `Session.LodgeSession.ChangeDate` | App.tsx:74-78 | Moves the cursor by the given number of days and changes nothing else |
| `Session.LodgeSession.JumpToNextFriday` | App.tsx:80-85 | Moves the cursor 1 to 7 days on, to a Friday, and changes nothing else |
| `Session.LodgeSession.CopySimpleList` | App.tsx:175-186 | Builds the list from the permanent names, the excused names and the total of the viewed date |
| `Session.LodgeSession.Persist` | App.tsx:59-62 | Writes under the key "lodgekeeper_data_v2" a snapshot that loads back to the current roster and lists |

## Left out

- Reading and writing browser storage, and `JSON.parse`/`JSON.stringify` (App.tsx:38-40, App.tsx:61), are I/O. `Load` starts from an already parsed snapshot. A parse failure, or a stored `null`, makes the code throw; that is not modelled.
- The save effect also runs once at mount, before the loaded state is applied (App.tsx:59-62). That ordering of effects is not modelled; `Persist` gives the snapshot for the current state.
- The date key is `toISOString().split('T')[0]`, and the display date comes from `Intl.DateTimeFormat` (App.tsx:65-72). Both depend on the time zone, the locale and the JavaScript Date API. A date is a day number instead, and `Calendar.DateKey` is an injective decimal rendering of it. The display date is a parameter of `CopySimpleList`.
- New ids come from `Date.now().toString()` (App.tsx:134), which is a clock. They are a `freshId` parameter; freshness is a premise of `AddedFresh` and `SaveRosterKeepsUniqueIds`.
- `localeCompare` (App.tsx:162) is locale-dependent collation. The sort uses code-point order (`LexLeq`), so its tie-breaking and the order of accented names can differ from a browser's.
- JavaScript strings are UTF-16. The model's strings are sequences of code points, and `Trim` is stated on code points.
- Joining the lines with newlines, the clipboard write and the alert (App.tsx:187-188) are side effects. The model stops at the lines.
- The modal form state, the open-add and open-edit handlers (including the `'Maestro'` default role), and all JSX and styling (App.tsx:26-34, App.tsx:104-118, App.tsx:191-396) are presentation. The form's values are parameters of `SaveMember`.
- The generated report (components/AIReportModal.tsx, services/geminiService.ts) is an external text service and is not part of this model.
- components/MemberCard.tsx is presentation. Toggling is offered only on the cards of active members (App.tsx:296-301), and the card's click guard (line 26) checks that member's own flag. Together they become the precondition of `ToggleJustification`: the id is the id of a member that is not permanent.
