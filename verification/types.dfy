/** The records shared by the attendance store (types.ts). */
module Types {

  /** An optional value: `undefined`/`null` in types.ts and App.tsx become None. */
  datatype Option<T> = None | Some(value: T)

  /** One member of the lodge roster. Identity is the `id`; `role` is optional in types.ts. */
  datatype Member = Member(id: string, name: string, isPermanent: bool, role: Option<string>)

  /** The per-date excused store: a date key maps to the ids of the members excused on that date. */
  type AttendanceRecord = map<string, seq<string>>

  /**
   * The persisted application state after parsing. Either field may be missing
   * (or null) in what was read back, hence the options.
   */
  datatype Snapshot = Snapshot(members: Option<seq<Member>>, attendance: Option<AttendanceRecord>)
}
