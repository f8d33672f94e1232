/**
 * The member roster of App.tsx: saving a member from the edit form (add or
 * edit), deleting a member, and splitting the roster into the permanently
 * excused members and the other (active) members sorted by name.
 */
module Roster {
  import opened Types
  import opened Seqs
  import opened JsText

  /** The ids of a roster, in roster order. */
  function Ids(ms: seq<Member>): (r: seq<string>)
    ensures |r| == |ms|
    ensures forall i :: 0 <= i < |ms| ==> r[i] == ms[i].id
  {
    seq(|ms|, i requires 0 <= i < |ms| => ms[i].id)
  }

  /** The names of a list of members, in list order. */
  function Names(ms: seq<Member>): (r: seq<string>)
    ensures |r| == |ms|
    ensures forall i :: 0 <= i < |ms| ==> r[i] == ms[i].name
  {
    seq(|ms|, i requires 0 <= i < |ms| => ms[i].name)
  }

  /** No two members share an id. */
  predicate UniqueIds(ms: seq<Member>) {
    forall i, j :: 0 <= i < j < |ms| ==> ms[i].id != ms[j].id
  }

  lemma IdsInRoster(ms: seq<Member>, id: string)
    ensures id in Ids(ms) <==> exists m :: m in ms && m.id == id
  {
    if id in Ids(ms) {
      var i :| 0 <= i < |ms| && Ids(ms)[i] == id;
      assert ms[i] in ms;
    }
  }

  // ---------------------------------------------------------------------
  // Edit, add, delete

  /**
   * Editing: every member with id `id` gets the new name, role and permanent
   * flag; its id and position stay; every other member is left as it is.
   */
  function Edited(ms: seq<Member>, id: string, name: string, role: string, isPermanent: bool): (r: seq<Member>)
    ensures |r| == |ms|
    ensures forall i :: 0 <= i < |ms| && ms[i].id != id ==> r[i] == ms[i]
    ensures forall i :: 0 <= i < |ms| && ms[i].id == id ==>
              r[i] == Member(id, name, isPermanent, Some(role))
  {
    seq(|ms|, i requires 0 <= i < |ms| =>
      if ms[i].id == id then ms[i].(name := name, role := Some(role), isPermanent := isPermanent) else ms[i])
  }

  /** Editing never changes the ids, so it keeps them unique. */
  lemma EditedKeepsIds(ms: seq<Member>, id: string, name: string, role: string, isPermanent: bool)
    ensures Ids(Edited(ms, id, name, role, isPermanent)) == Ids(ms)
    ensures UniqueIds(ms) ==> UniqueIds(Edited(ms, id, name, role, isPermanent))
  {
  }

  /** Editing an id that is not in the roster leaves it unchanged. */
  lemma EditedUnknownId(ms: seq<Member>, id: string, name: string, role: string, isPermanent: bool)
    requires id !in Ids(ms)
    ensures Edited(ms, id, name, role, isPermanent) == ms
  {
    var r := Edited(ms, id, name, role, isPermanent);
    forall i | 0 <= i < |ms| ensures r[i] == ms[i] {
      assert Ids(ms)[i] == ms[i].id;
    }
  }

  /** Saving the same edit twice is saving it once. */
  lemma EditedIdempotent(ms: seq<Member>, id: string, name: string, role: string, isPermanent: bool)
    ensures Edited(Edited(ms, id, name, role, isPermanent), id, name, role, isPermanent)
         == Edited(ms, id, name, role, isPermanent)
  {
  }

  /** Adding: the new member goes at the end. */
  function Added(ms: seq<Member>, id: string, name: string, role: string, isPermanent: bool): (r: seq<Member>)
    ensures |r| == |ms| + 1 && r[..|ms|] == ms
    ensures r[|ms|] == Member(id, name, isPermanent, Some(role))
  {
    ms + [Member(id, name, isPermanent, Some(role))]
  }

  /** Adding under a fresh id keeps ids unique, and the new id then occurs exactly once. */
  lemma AddedFresh(ms: seq<Member>, id: string, name: string, role: string, isPermanent: bool)
    requires id !in Ids(ms)
    ensures UniqueIds(ms) ==> UniqueIds(Added(ms, id, name, role, isPermanent))
    ensures multiset(Ids(Added(ms, id, name, role, isPermanent)))[id] == 1
  {
    var r := Added(ms, id, name, role, isPermanent);
    assert Ids(r) == Ids(ms) + [id];
    assert multiset(Ids(ms))[id] == 0;
    if UniqueIds(ms) {
      forall i, j | 0 <= i < j < |r| ensures r[i].id != r[j].id {
        if j == |ms| {
          assert Ids(ms)[i] == r[i].id;
        }
      }
    }
  }

  /** The test used to drop a member by id. */
  function HasOtherId(id: string): Member -> bool {
    (m: Member) => m.id != id
  }

  /** Deleting: drop every member with that id, keeping the others in order. */
  function Removed(ms: seq<Member>, id: string): (r: seq<Member>)
    ensures id !in Ids(r)
    ensures forall m :: m in r <==> m in ms && m.id != id
    ensures forall m: Member :: m.id != id ==> multiset(r)[m] == multiset(ms)[m]
  {
    var r := Filter(ms, HasOtherId(id));
    FilterCounts(ms, HasOtherId(id));
    assert forall k :: 0 <= k < |r| ==> r[k] in r;
    r
  }

  /** Deleting keeps the relative order: it works piecewise on any split of the roster. */
  lemma RemovedPiecewise(a: seq<Member>, b: seq<Member>, id: string)
    ensures Removed(a + b, id) == Removed(a, id) + Removed(b, id)
  {
    FilterConcat(a, b, HasOtherId(id));
  }

  /** Deleting twice is deleting once, and deleting an absent id changes nothing. */
  lemma RemovedIdempotent(ms: seq<Member>, id: string)
    ensures Removed(Removed(ms, id), id) == Removed(ms, id)
    ensures id !in Ids(ms) ==> Removed(ms, id) == ms
  {
    FilterIdempotent(ms, HasOtherId(id));
    if id !in Ids(ms) {
      IdsInRoster(ms, id);
      FilterKeepsAll(ms, HasOtherId(id));
    }
  }

  /** The form's save action: ignored for a blank name, otherwise an edit or an add. */
  function SaveRoster(ms: seq<Member>, editingId: Option<string>, rawName: string, role: string,
                      isPermanent: bool, freshId: string): (r: seq<Member>)
    ensures Trim(rawName) == [] ==> r == ms
    ensures Trim(rawName) != [] && editingId.Some? && editingId.value != "" ==>
              r == Edited(ms, editingId.value, Trim(rawName), role, isPermanent)
    ensures Trim(rawName) != [] && !(editingId.Some? && editingId.value != "") ==>
              r == Added(ms, freshId, Trim(rawName), role, isPermanent)
  {
    var name := Trim(rawName);
    if name == [] then ms
    else if editingId.Some? && editingId.value != "" then Edited(ms, editingId.value, name, role, isPermanent)
    else Added(ms, freshId, name, role, isPermanent)
  }

  /** Saving keeps ids unique when the id handed to an add is fresh. */
  lemma SaveRosterKeepsUniqueIds(ms: seq<Member>, editingId: Option<string>, rawName: string, role: string,
                                 isPermanent: bool, freshId: string)
    requires freshId !in Ids(ms) && UniqueIds(ms)
    ensures UniqueIds(SaveRoster(ms, editingId, rawName, role, isPermanent, freshId))
  {
    var name := Trim(rawName);
    if name != [] {
      if editingId.Some? && editingId.value != "" {
        EditedKeepsIds(ms, editingId.value, name, role, isPermanent);
      } else {
        AddedFresh(ms, freshId, name, role, isPermanent);
      }
    }
  }

  /** Every member that saving writes or rewrites carries the trimmed name, which is non-blank and trimmed. */
  lemma SaveRosterStoresTrimmedName(ms: seq<Member>, editingId: Option<string>, rawName: string, role: string,
                                    isPermanent: bool, freshId: string, i: nat)
    requires var r := SaveRoster(ms, editingId, rawName, role, isPermanent, freshId);
             i < |r| && (i >= |ms| || r[i] != ms[i])
    ensures var r := SaveRoster(ms, editingId, rawName, role, isPermanent, freshId);
            r[i].name == Trim(rawName) && r[i].name != [] && Trim(r[i].name) == r[i].name
  {
    var name := Trim(rawName);
    assert name != [];
    var r := SaveRoster(ms, editingId, rawName, role, isPermanent, freshId);
    if editingId.Some? && editingId.value != "" {
      assert r == Edited(ms, editingId.value, name, role, isPermanent);
      assert ms[i].id == editingId.value;
      assert r[i].name == name;
    } else {
      assert r == Added(ms, freshId, name, role, isPermanent);
      assert r[i].name == name;
    }
    TrimIdempotent(rawName);
  }

  // ---------------------------------------------------------------------
  // Permanent and active members

  predicate IsPermanentMember(m: Member) {
    m.isPermanent
  }

  predicate IsActiveMember(m: Member) {
    !m.isPermanent
  }

  /** The permanently excused members, in roster order. */
  function PermanentMembers(ms: seq<Member>): (r: seq<Member>)
    ensures |r| <= |ms|
    ensures forall m :: m in r <==> m in ms && m.isPermanent
  {
    Filter(ms, IsPermanentMember)
  }

  /** The permanent list is empty exactly when no member of the roster is permanent. */
  lemma PermanentMembersEmpty(ms: seq<Member>)
    ensures PermanentMembers(ms) == [] <==> forall m :: m in ms ==> !m.isPermanent
  {
    if forall m :: m in ms ==> !m.isPermanent {
      NoPermanentMembers(ms);
    }
  }

  /** A roster with no permanent member has no permanent list. */
  lemma {:induction false} NoPermanentMembers(ms: seq<Member>)
    requires forall m :: m in ms ==> !m.isPermanent
    ensures PermanentMembers(ms) == []
  {
    if ms != [] {
      assert ms[0] in ms;
      NoPermanentMembers(ms[1..]);
    }
  }

  /** The members whose attendance is recorded per date, sorted by name. */
  function ActiveMembers(ms: seq<Member>): (r: seq<Member>)
    ensures multiset(r) == multiset(Filter(ms, IsActiveMember))
    ensures SortedByName(r)
  {
    SortByNameSorted(Filter(ms, IsActiveMember));
    SortByName(Filter(ms, IsActiveMember))
  }

  /** Sorted by name: every member's name is at most the names after it. */
  predicate SortedByName(s: seq<Member>) {
    forall i, j :: 0 <= i < j < |s| ==> LexLeq(s[i].name, s[j].name)
  }

  /** Inserts `m` before the first member whose name is not below `m`'s. */
  function InsertByName(m: Member, s: seq<Member>): (r: seq<Member>)
    ensures multiset(r) == multiset(s) + multiset{m}
  {
    if s == [] || LexLeq(m.name, s[0].name) then [m] + s
    else
      assert s == [s[0]] + s[1..];
      [s[0]] + InsertByName(m, s[1..])
  }

  /** A stable sort by name (Array.prototype.sort is stable). */
  function SortByName(s: seq<Member>): (r: seq<Member>)
    ensures multiset(r) == multiset(s)
  {
    if s == [] then []
    else
      assert s == [s[0]] + s[1..];
      InsertByName(s[0], SortByName(s[1..]))
  }

  lemma {:induction false} InsertByNameSorted(m: Member, s: seq<Member>)
    requires SortedByName(s)
    ensures SortedByName(InsertByName(m, s))
  {
    if s == [] {
    } else if LexLeq(m.name, s[0].name) {
      SortedBound(m.name, s);
      SortedCons(m, s);
    } else {
      var tail := s[1..];
      SortedSplit(s);
      InsertByNameSorted(m, tail);
      LexTotal(m.name, s[0].name);
      InsertByNameBound(s[0].name, m, tail);
      SortedCons(s[0], InsertByName(m, tail));
      assert InsertByName(m, s) == [s[0]] + InsertByName(m, tail);
    }
  }

  /** Every member of `s` has a name at least `lo`. */
  predicate NamesAtLeast(lo: string, s: seq<Member>) {
    forall k :: 0 <= k < |s| ==> LexLeq(lo, s[k].name)
  }

  /** A sorted list splits into its first member, a lower bound for the rest, and a sorted rest. */
  lemma SortedSplit(s: seq<Member>)
    requires s != [] && SortedByName(s)
    ensures NamesAtLeast(s[0].name, s[1..]) && SortedByName(s[1..])
  {
    var tail := s[1..];
    forall k | 0 <= k < |tail| ensures LexLeq(s[0].name, tail[k].name) {
      assert tail[k] == s[k + 1];
    }
    forall i, j | 0 <= i < j < |tail| ensures LexLeq(tail[i].name, tail[j].name) {
      assert tail[i] == s[i + 1] && tail[j] == s[j + 1];
    }
  }

  /** A name at most the first name of a sorted list bounds the whole list. */
  lemma SortedBound(lo: string, s: seq<Member>)
    requires s != [] && SortedByName(s) && LexLeq(lo, s[0].name)
    ensures NamesAtLeast(lo, s)
  {
    forall k | 0 <= k < |s| ensures LexLeq(lo, s[k].name) {
      if k > 0 {
        LexTransitive(lo, s[0].name, s[k].name);
      }
    }
  }

  /** Inserting a member whose name is at least `lo` keeps `lo` a lower bound. */
  lemma InsertByNameBound(lo: string, m: Member, s: seq<Member>)
    requires LexLeq(lo, m.name) && NamesAtLeast(lo, s)
    ensures NamesAtLeast(lo, InsertByName(m, s))
  {
    var r := InsertByName(m, s);
    forall k | 0 <= k < |r| ensures LexLeq(lo, r[k].name) {
      assert r[k] in multiset(r);
      if r[k] != m {
        assert r[k] in multiset(s);
        var j :| 0 <= j < |s| && s[j] == r[k];
      }
    }
  }

  /** A member in front of a sorted list bounded below by its name gives a sorted list. */
  lemma SortedCons(x: Member, s: seq<Member>)
    requires SortedByName(s) && NamesAtLeast(x.name, s)
    ensures SortedByName([x] + s)
  {
    var r := [x] + s;
    forall i, j | 0 <= i < j < |r| ensures LexLeq(r[i].name, r[j].name) {
      assert r[j] == s[j - 1];
      if i > 0 {
        assert r[i] == s[i - 1];
      }
    }
  }

  lemma {:induction false} SortByNameSorted(s: seq<Member>)
    ensures SortedByName(SortByName(s))
  {
    if s != [] {
      SortByNameSorted(s[1..]);
      InsertByNameSorted(s[0], SortByName(s[1..]));
    }
  }

  /** The test selecting the members with a given name. */
  function HasName(name: string): Member -> bool {
    (m: Member) => m.name == name
  }

  /** `m` lands before every member of `s` with the same name. */
  lemma {:induction false} InsertByNameStable(m: Member, s: seq<Member>, name: string)
    ensures Filter(InsertByName(m, s), HasName(name))
         == (if m.name == name then [m] else []) + Filter(s, HasName(name))
  {
    var p := HasName(name);
    if s == [] || LexLeq(m.name, s[0].name) {
      FilterCons(m, s, p);
    } else {
      var tail := s[1..];
      InsertByNameStable(m, tail, name);
      if m.name == name {
        LexReflexive(m.name);
      }
      FilterConsShift(s[0], tail, InsertByName(m, tail), if m.name == name then [m] else [], p);
      assert s == [s[0]] + tail;
    }
  }

  /** Sorting is stable: the members sharing any one name keep their relative order. */
  lemma {:induction false} SortByNameStable(s: seq<Member>, name: string)
    ensures Filter(SortByName(s), HasName(name)) == Filter(s, HasName(name))
  {
    if s != [] {
      SortByNameStable(s[1..], name);
      InsertByNameStable(s[0], SortByName(s[1..]), name);
      FilterConcat([s[0]], s[1..], HasName(name));
      assert s == [s[0]] + s[1..];
    }
  }

  /**
   * The permanent members and the active members partition the roster: each
   * member lands on exactly one side, according to its flag, and the active
   * side is sorted by name.
   */
  lemma RosterPartition(ms: seq<Member>)
    ensures multiset(PermanentMembers(ms)) + multiset(ActiveMembers(ms)) == multiset(ms)
    ensures |PermanentMembers(ms)| + |ActiveMembers(ms)| == |ms|
    ensures forall m :: m in PermanentMembers(ms) <==> m in ms && m.isPermanent
    ensures forall m :: m in ActiveMembers(ms) <==> m in ms && !m.isPermanent
    ensures SortedByName(ActiveMembers(ms))
  {
    var active := Filter(ms, IsActiveMember);
    FilterSplit(ms, IsPermanentMember, IsActiveMember);
    SortByNameSorted(active);
    assert |ActiveMembers(ms)| == |active| by {
      assert |multiset(ActiveMembers(ms))| == |multiset(active)|;
    }
    forall m ensures m in ActiveMembers(ms) <==> m in active {
      assert m in ActiveMembers(ms) <==> m in multiset(ActiveMembers(ms));
    }
  }

  /** Active members with equal names appear in roster order. */
  lemma ActiveMembersStable(ms: seq<Member>, name: string)
    ensures Filter(ActiveMembers(ms), HasName(name)) == Filter(Filter(ms, IsActiveMember), HasName(name))
  {
    SortByNameStable(Filter(ms, IsActiveMember), name);
  }
}
