/**
 * The values App.tsx derives from the roster and the current date's list:
 * the excused names, the permanent names, the excused total and the lines of
 * the plain-text list that is copied for sharing.
 */
module Derived {
  import opened Types
  import opened Seqs
  import opened JsText
  import opened Roster
  import opened Attendance

  /** The test selecting the members whose id is listed. */
  function IdIn(ids: seq<string>): Member -> bool {
    (m: Member) => m.id in ids
  }

  /** The names of the roster members whose id is in the date's list, in roster order. */
  function JustifiedNames(ms: seq<Member>, ids: seq<string>): (r: seq<string>)
    ensures |r| <= |ms|
  {
    Names(Filter(ms, IdIn(ids)))
  }

  /** A name is listed exactly when some roster member with that name has a listed id. */
  lemma JustifiedNamesMembers(ms: seq<Member>, ids: seq<string>, n: string)
    ensures n in JustifiedNames(ms, ids) <==> exists m :: m in ms && m.id in ids && m.name == n
  {
    var f := Filter(ms, IdIn(ids));
    if n in JustifiedNames(ms, ids) {
      var i :| 0 <= i < |f| && Names(f)[i] == n;
      assert f[i] in f;
    }
    if exists m :: m in ms && m.id in ids && m.name == n {
      var m :| m in ms && m.id in ids && m.name == n;
      assert m in f;
      var i :| 0 <= i < |f| && f[i] == m;
      assert Names(f)[i] == n;
    }
  }

  /** The names follow roster order: the list of a split roster is the lists of its parts. */
  lemma JustifiedNamesRosterOrder(a: seq<Member>, b: seq<Member>, ids: seq<string>)
    ensures JustifiedNames(a + b, ids) == JustifiedNames(a, ids) + JustifiedNames(b, ids)
  {
    FilterConcat(a, b, IdIn(ids));
  }

  /**
   * Only which roster ids are listed matters: stale ids, repeated ids and the
   * order of the list do not change the names.
   */
  lemma JustifiedNamesIgnoreUnlisted(ms: seq<Member>, ids: seq<string>, ids': seq<string>)
    requires forall m :: m in ms ==> (m.id in ids <==> m.id in ids')
    ensures JustifiedNames(ms, ids) == JustifiedNames(ms, ids')
  {
    FilterCongruent(ms, IdIn(ids), IdIn(ids'));
  }

  /** The names of the permanent members, in roster order. */
  function PermanentNames(ms: seq<Member>): (r: seq<string>)
    ensures |r| == |PermanentMembers(ms)|
    ensures forall i :: 0 <= i < |r| ==> r[i] == PermanentMembers(ms)[i].name
  {
    Names(PermanentMembers(ms))
  }

  /** A name is a permanent name exactly when some permanent member carries it. */
  lemma PermanentNamesMembers(ms: seq<Member>, n: string)
    ensures n in PermanentNames(ms) <==> exists m :: m in ms && m.isPermanent && m.name == n
  {
    var perm := PermanentMembers(ms);
    if n in PermanentNames(ms) {
      var i :| 0 <= i < |perm| && PermanentNames(ms)[i] == n;
      assert perm[i] in perm;
    }
    if m :| m in ms && m.isPermanent && m.name == n {
      var i :| 0 <= i < |perm| && perm[i] == m;
      assert PermanentNames(ms)[i] == n;
    }
  }

  /**
   * The headline total: every permanent member plus every entry of the date's
   * list. It is the list's length exactly when nobody is permanent.
   */
  function TotalJustified(ms: seq<Member>, ids: seq<string>): (r: nat)
    ensures |ids| <= r <= |ms| + |ids|
    ensures r == |ids| <==> forall m :: m in ms ==> !m.isPermanent
  {
    PermanentMembersEmpty(ms);
    |PermanentMembers(ms)| + |ids|
  }

  /** A date's list as the toggle path keeps it: no repeats, only ids of active roster members. */
  predicate WellFormedDay(ms: seq<Member>, ids: seq<string>) {
    NoDup(ids) && forall x :: x in ids ==> x in Ids(Filter(ms, IsActiveMember))
  }

  /** Toggling an active member keeps the date's list well formed. */
  lemma ToggleKeepsWellFormed(ms: seq<Member>, ids: seq<string>, id: string)
    requires WellFormedDay(ms, ids) && id in Ids(Filter(ms, IsActiveMember))
    ensures WellFormedDay(ms, Toggled(ids, id))
  {
    ToggledNoDup(ids, id);
  }

  /**
   * With unique ids, toggling an active member never puts a permanent
   * member's id into a list that had none.
   */
  lemma ToggleKeepsPermanentOut(ms: seq<Member>, ids: seq<string>, id: string)
    requires UniqueIds(ms) && id in Ids(Filter(ms, IsActiveMember))
    requires forall x :: x in ids ==> x !in Ids(PermanentMembers(ms))
    ensures forall x :: x in Toggled(ids, id) ==> x !in Ids(PermanentMembers(ms))
  {
    ActiveIdNotPermanent(ms, id);
  }

  /** With unique ids, the id of an active member is no permanent member's id. */
  lemma ActiveIdNotPermanent(ms: seq<Member>, id: string)
    requires UniqueIds(ms) && id in Ids(Filter(ms, IsActiveMember))
    ensures id !in Ids(PermanentMembers(ms))
  {
    IdsInRoster(Filter(ms, IsActiveMember), id);
    IdsInRoster(PermanentMembers(ms), id);
    var a :| a in Filter(ms, IsActiveMember) && a.id == id;
    var i :| 0 <= i < |ms| && ms[i] == a;
    forall p | p in PermanentMembers(ms) ensures p.id != id {
      var j :| 0 <= j < |ms| && ms[j] == p;
      assert ms[i].isPermanent != ms[j].isPermanent;
    }
  }

  /**
   * Without unique ids the card's guard does not keep permanent ids out: an
   * active member sharing a permanent member's id puts that id in the list.
   */
  lemma SharedIdEntersList()
    ensures var ms := [Member("1", "Agus Stefano", true, None), Member("1", "Ambu Pierpaolo", false, None)];
            && "1" in Ids(Filter(ms, IsActiveMember))
            && "1" in Toggled([], "1")
            && "1" in Ids(PermanentMembers(ms))
  {
    var ms := [Member("1", "Agus Stefano", true, None), Member("1", "Ambu Pierpaolo", false, None)];
    assert ms == [ms[0]] + [ms[1]];
    FilterConcat([ms[0]], [ms[1]], IsActiveMember);
    FilterConcat([ms[0]], [ms[1]], IsPermanentMember);
    FilterSingleton(ms[0], IsActiveMember);
    FilterSingleton(ms[1], IsActiveMember);
    FilterSingleton(ms[0], IsPermanentMember);
    FilterSingleton(ms[1], IsPermanentMember);
    assert Toggled([], "1") == ["1"];
    assert Ids(PermanentMembers(ms))[0] == "1";
    assert Ids(Filter(ms, IsActiveMember))[0] == "1";
  }

  /** On a well-formed date nobody is counted twice: the total never exceeds the roster size. */
  lemma ExcusedWithinRoster(ms: seq<Member>, ids: seq<string>)
    requires WellFormedDay(ms, ids)
    ensures TotalJustified(ms, ids) <= |ms|
  {
    var active := Ids(Filter(ms, IsActiveMember));
    DistinctCount(ids);
    DistinctCount(active);
    SubsetCard(set x | x in ids, set x | x in active);
    FilterSplit(ms, IsPermanentMember, IsActiveMember);
  }

  /**
   * The total counts raw list entries: once an excused member is made
   * permanent by an edit, that member is counted twice and the total exceeds
   * the roster.
   */
  lemma TotalJustifiedCountsPermanentTwice()
    ensures var ms := [Member("1", "Agus Stefano", false, Some("Maestro"))];
            var ids := Toggled(DayList(map[], "0"), "1");
            var edited := Edited(ms, "1", "Agus Stefano", "Maestro", true);
            TotalJustified(ms, ids) == 1 && TotalJustified(edited, ids) == 2 > |edited|
  {
    var ms := [Member("1", "Agus Stefano", false, Some("Maestro"))];
    var edited := Edited(ms, "1", "Agus Stefano", "Maestro", true);
    assert Toggled([], "1") == ["1"];
    FilterSingleton(ms[0], IsPermanentMember);
    assert edited == [Member("1", "Agus Stefano", true, Some("Maestro"))];
    FilterSingleton(edited[0], IsPermanentMember);
  }

  /**
   * Editing a listed member who was not permanent into a permanent one raises
   * the total by one: the member is now counted both as permanent and as a
   * list entry.
   */
  lemma {:induction false} EditToPermanentCountsTwice(ms: seq<Member>, i: nat, name: string, role: string,
                                                      ids: seq<string>)
    requires i < |ms| && !ms[i].isPermanent && ms[i].id in ids
    requires forall j :: 0 <= j < |ms| && j != i ==> ms[j].id != ms[i].id
    ensures var edited := Edited(ms, ms[i].id, name, role, true);
            && ms[i].id in Ids(PermanentMembers(edited))
            && TotalJustified(edited, ids) == TotalJustified(ms, ids) + 1
  {
    var id := ms[i].id;
    var edited := Edited(ms, id, name, role, true);
    var x := Member(id, name, true, Some(role));
    var before, after := ms[..i], ms[i + 1..];
    assert ms == before + [ms[i]] + after;
    assert edited == before + [x] + after;
    FilterConcat(before + [ms[i]], after, IsPermanentMember);
    FilterConcat(before, [ms[i]], IsPermanentMember);
    FilterConcat(before + [x], after, IsPermanentMember);
    FilterConcat(before, [x], IsPermanentMember);
    FilterSingleton(ms[i], IsPermanentMember);
    FilterSingleton(x, IsPermanentMember);
    IdsInRoster(PermanentMembers(edited), id);
  }

  /**
   * Deleting a member who is not permanent leaves the total of every date
   * unchanged: the deleted member's id stays in the lists and is still counted.
   */
  lemma DeleteKeepsTotal(ms: seq<Member>, id: string, ids: seq<string>)
    requires forall m :: m in ms && m.id == id ==> !m.isPermanent
    ensures TotalJustified(Removed(ms, id), ids) == TotalJustified(ms, ids)
  {
    FilterAbsorb(ms, HasOtherId(id), IsPermanentMember);
  }

  // ---------------------------------------------------------------------
  // The plain-text list

  /**
   * The fixed lines of the list, character for character as App.tsx writes
   * them: each heading starts with the mis-decoded bytes of an emoji.
   */
  const TitlePrefix: string := "\U{F8FF}\U{FC}\U{E8}\U{F5}\U{D4}\U{220F}\U{E8} *Tavola Giustificati - "
  const FixedHeading: string := "\U{F8FF}\U{FC}\U{F5}\U{B0}\U{D4}\U{220F}\U{E8} *Fissi:*"
  const TodayHeading: string := "\U{201A}\U{FA}\U{E7}\U{D4}\U{220F}\U{E8} *Odierni:*"
  const Placeholder: string := "Nessuno"
  const TotalPrefix: string := "Totale: "

  /** One "- name" line per name. */
  function Bullets(names: seq<string>): (r: seq<string>)
    ensures |r| == |names|
    ensures forall i :: 0 <= i < |names| ==> r[i] == "- " + names[i]
  {
    seq(|names|, i requires 0 <= i < |names| => "- " + names[i])
  }

  /** The lines of the plain-text list, in their fixed order. */
  function SimpleListLines(formattedDate: string, permanentNames: seq<string>,
                           justifiedNames: seq<string>, total: nat): (r: seq<string>)
    ensures |r| == 7 + |permanentNames| + if justifiedNames == [] then 1 else |justifiedNames|
  {
    [TitlePrefix + formattedDate + "*", "", FixedHeading]
      + Bullets(permanentNames)
      + ["", TodayHeading]
      + (if |justifiedNames| > 0 then Bullets(justifiedNames) else [Placeholder])
      + ["", TotalPrefix + NatToString(total)]
  }

  /**
   * The layout of the list: title, permanent section, today's section and
   * total; today's section is the placeholder exactly when nobody is excused.
   */
  lemma SimpleListLayout(formattedDate: string, permanentNames: seq<string>,
                         justifiedNames: seq<string>, total: nat)
    ensures var r := SimpleListLines(formattedDate, permanentNames, justifiedNames, total);
            var p := |permanentNames|;
            && r[0] == TitlePrefix + formattedDate + "*"
            && r[1] == "" && r[2] == FixedHeading
            && r[3..3 + p] == Bullets(permanentNames)
            && r[3 + p] == "" && r[4 + p] == TodayHeading
            && (r[5 + p] == Placeholder <==> justifiedNames == [])
            && (justifiedNames != [] ==> r[5 + p..5 + p + |justifiedNames|] == Bullets(justifiedNames))
            && r[|r| - 2] == ""
            && r[|r| - 1] == TotalPrefix + NatToString(total)
  {
    var r := SimpleListLines(formattedDate, permanentNames, justifiedNames, total);
    var p := |permanentNames|;
    var today := if |justifiedNames| > 0 then Bullets(justifiedNames) else [Placeholder];
    var head := [TitlePrefix + formattedDate + "*", "", FixedHeading] + Bullets(permanentNames) + ["", TodayHeading];
    assert r == head + today + ["", TotalPrefix + NatToString(total)];
    assert r[5 + p] == today[0];
    if justifiedNames != [] {
      assert today[0] == "- " + justifiedNames[0];
      assert today[0][0] == '-' != Placeholder[0];
      assert r[5 + p..5 + p + |justifiedNames|] == today;
    }
  }
}
