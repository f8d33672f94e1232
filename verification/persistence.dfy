/**
 * The start-up load and the save-on-change of App.tsx, over an already parsed
 * snapshot: reading and writing the storage slot and JSON are not modelled.
 */
module Persistence {
  import opened Types
  import opened Constants

  /**
   * The state at start-up. Nothing stored gives the seed roster and no lists;
   * a stored snapshot supplies whichever fields it has. An empty stored roster
   * is kept: only a missing roster falls back to the seed.
   */
  function Load(stored: Option<Snapshot>): (r: (seq<Member>, AttendanceRecord))
    ensures stored.None? ==> r == (INITIAL_MEMBERS, map[])
    ensures stored.Some? && stored.value.members.Some? ==> r.0 == stored.value.members.value
    ensures (stored.None? || stored.value.members.None?) ==> r.0 == INITIAL_MEMBERS
    ensures stored.Some? && stored.value.attendance.Some? ==> r.1 == stored.value.attendance.value
    ensures (stored.None? || stored.value.attendance.None?) ==> r.1 == map[]
  {
    match stored
    case None => (INITIAL_MEMBERS, map[])
    case Some(s) =>
      (if s.members.Some? then s.members.value else INITIAL_MEMBERS,
       if s.attendance.Some? then s.attendance.value else map[])
  }

  /** The snapshot written after every change of the roster or the lists. */
  function Save(members: seq<Member>, attendance: AttendanceRecord): (s: Snapshot)
    ensures s.members == Some(members) && s.attendance == Some(attendance)
  {
    Snapshot(Some(members), Some(attendance))
  }

  /** Loading what was saved gives back the same roster and lists, an empty roster included. */
  lemma LoadSaveRoundTrip(members: seq<Member>, attendance: AttendanceRecord)
    ensures Load(Some(Save(members, attendance))) == (members, attendance)
  {
  }

  /** A snapshot without lists keeps its roster, an empty one included, and starts with no lists. */
  lemma LoadMissingAttendance(members: seq<Member>)
    ensures Load(Some(Snapshot(Some(members), None))) == (members, map[])
  {
  }

  /** A snapshot without a roster falls back to the seed roster and keeps its lists. */
  lemma LoadMissingRoster(attendance: AttendanceRecord)
    ensures Load(Some(Snapshot(None, Some(attendance)))) == (INITIAL_MEMBERS, attendance)
  {
  }
}
