/**
 * The session state of App.tsx: the roster, the per-date lists and the
 * calendar cursor, replaced one step at a time by the user's actions.
 */
module Session {
  import opened Types
  import opened JsText
  import opened Seqs
  import opened Roster
  import opened Attendance
  import opened Derived
  import opened Calendar
  import opened Constants
  import opened Persistence

  class LodgeSession {
    /** The roster, in the order members were added. */
    var members: seq<Member>
    /** The excused ids per date key. */
    var attendance: AttendanceRecord
    /** The date being viewed, as a day number. */
    var currentDay: int

    /** Start-up: load the stored snapshot (or the seed) and put the cursor on the nearest Friday. */
    constructor (stored: Option<Snapshot>, today: int)
      ensures (members, attendance) == Load(stored)
      ensures currentDay == InitialCursor(today)
      ensures Weekday(currentDay) == Friday && 0 <= currentDay - today <= 6
    {
      var loaded := Load(stored);
      members := loaded.0;
      attendance := loaded.1;
      currentDay := InitialCursor(today);
    }

    /** The key of the viewed date. */
    function CurrentKey(): string
      reads this
    {
      DateKey(currentDay)
    }

    /** The ids excused on the viewed date (none when the date has no entry). */
    function JustifiedIds(): (r: seq<string>)
      reads this
      ensures CurrentKey() in attendance ==> r == attendance[CurrentKey()]
      ensures CurrentKey() !in attendance ==> r == []
    {
      DayList(attendance, CurrentKey())
    }

    /**
     * Toggles one member on the viewed date. Only the cards of members that
     * are not permanent offer this, so `id` is the id of such a member.
     */
    method ToggleJustification(id: string)
      requires id in Ids(Filter(members, IsActiveMember))
      modifies this
      ensures members == old(members) && currentDay == old(currentDay)
      ensures attendance == ToggleAt(old(attendance), CurrentKey(), id)
      ensures id in JustifiedIds() <==> id !in old(JustifiedIds())
      ensures forall k :: k != CurrentKey() ==> DayList(attendance, k) == DayList(old(attendance), k)
      ensures UniqueIds(members) && (forall x :: x in old(JustifiedIds()) ==> x !in Ids(PermanentMembers(members))) ==>
                forall x :: x in JustifiedIds() ==> x !in Ids(PermanentMembers(members))
    {
      attendance := ToggleAt(attendance, CurrentKey(), id);
      if UniqueIds(members) {
        ActiveIdNotPermanent(members, id);
      }
    }

    /**
     * Saves the member form: nothing happens for a blank name; otherwise the
     * member being edited is rewritten, or a new member is appended under
     * `freshId` (the clock reading App.tsx uses as id).
     */
    method SaveMember(editingId: Option<string>, name: string, role: string, isPermanent: bool, freshId: string)
      modifies this
      ensures members == SaveRoster(old(members), editingId, name, role, isPermanent, freshId)
      ensures attendance == old(attendance) && currentDay == old(currentDay)
      ensures Trim(name) == [] ==> members == old(members)
    {
      members := SaveRoster(members, editingId, name, role, isPermanent, freshId);
    }

    /** Deletes every member with this id; the per-date lists keep the id. */
    method DeleteMember(id: string)
      modifies this
      ensures members == Removed(old(members), id)
      ensures id !in Ids(members)
      ensures attendance == old(attendance) && currentDay == old(currentDay)
    {
      members := Removed(members, id);
    }

    /** Moves the cursor by `days` (the arrows pass -7 and 7). */
    method ChangeDate(days: int)
      modifies this
      ensures currentDay == old(currentDay) + days
      ensures members == old(members) && attendance == old(attendance)
    {
      currentDay := Calendar.ChangeDate(currentDay, days);
    }

    /** Moves the cursor to the next Friday strictly after it. */
    method JumpToNextFriday()
      modifies this
      ensures currentDay == NextFriday(old(currentDay))
      ensures Weekday(currentDay) == Friday && 1 <= currentDay - old(currentDay) <= 7
      ensures members == old(members) && attendance == old(attendance)
    {
      currentDay := NextFriday(currentDay);
    }

    /** The lines of the plain-text list for the viewed date, given its display form. */
    method CopySimpleList(formattedDate: string) returns (lines: seq<string>)
      ensures lines == SimpleListLines(formattedDate, PermanentNames(members),
                                       JustifiedNames(members, JustifiedIds()),
                                       TotalJustified(members, JustifiedIds()))
      ensures |lines| >= 7 + |PermanentMembers(members)|
    {
      var ids := JustifiedIds();
      lines := SimpleListLines(formattedDate, PermanentNames(members),
                               JustifiedNames(members, ids), TotalJustified(members, ids));
    }

    /** What the save-on-change effect writes, and where: loading it restores this state. */
    method Persist() returns (key: string, snapshot: Snapshot)
      ensures key == STORAGE_KEY
      ensures Load(Some(snapshot)) == (members, attendance)
    {
      key := STORAGE_KEY;
      snapshot := Save(members, attendance);
    }
  }
}
