/** The built-in data of constants.ts: the seed roster and the storage key. */
module Constants {
  import opened Types
  import opened JsText
  import opened Roster
  import opened Attendance
  import opened Derived

  /**
   * The seed roster used when no roster was stored: the 32 entries of
   * constants.ts in their order, written in four blocks of eight so that the
   * facts about each block are proved on their own.
   */
  const INITIAL_MEMBERS: seq<Member> := SeedBlock1 + SeedBlock2 + SeedBlock3 + SeedBlock4

  const SeedBlock1: seq<Member> := [
    Member("1", "Agus Stefano", false, Some("Maestro")),
    Member("2", "Ambu Pierpaolo", false, Some("Maestro")),
    Member("3", "Balia Giuseppe", false, Some("Maestro")),
    Member("4", "Concu Mauro", false, Some("Maestro")),
    Member("5", "Concu Pierluigi", false, Some("Compagno")),
    Member("6", "Corda Gian Paolo", false, Some("Maestro")),
    Member("7", "Deiana Giorgio", false, Some("Maestro")),
    Member("8", "Dessena Efisio", false, Some("Compagno"))
  ]

  const SeedBlock2: seq<Member> := [
    Member("9", "Dore Antonello", false, Some("Apprendista")),
    Member("10", "Gaviano Roberto", false, Some("Maestro")),
    Member("11", "Gravellino Giampaolo", false, Some("Maestro")),
    Member("12", "Longobardi Gennaro", false, Some("Maestro")),
    Member("13", "Mancini Angelo", false, Some("Maestro")),
    Member("14", "Manunza GianLuigi", false, Some("Maestro")),
    Member("15", "Massidda Simone", false, Some("Maestro")),
    Member("16", "Melis Antonello", false, Some("Maestro"))
  ]

  const SeedBlock3: seq<Member> := [
    Member("17", "Melis Giuseppe", false, Some("Maestro")),
    Member("18", "Milonopoulos Konstantinos", false, Some("Maestro")),
    Member("19", "Mossa Jacopo", false, Some("Apprendista")),
    Member("20", "Obino Nicola", false, Some("Maestro")),
    Member("21", "Orrù Giuseppe", false, Some("Apprendista")),
    Member("22", "Pani Michele", false, Some("Maestro")),
    Member("23", "Piras Gabriele", false, Some("Maestro")),
    Member("24", "Podda Marco", false, Some("Maestro"))
  ]

  const SeedBlock4: seq<Member> := [
    Member("25", "Rundeddu Francesco", false, Some("Maestro")),
    Member("26", "Solla Antonio", false, Some("Maestro")),
    Member("27", "Tilocca Pierpaolo", false, Some("Maestro")),
    Member("28", "Tuveri Riccardo", false, Some("Maestro")),
    Member("29", "Zuddas Bruno", false, Some("Maestro")),
    Member("30", "Nugnes Giovanni", false, Some("Maestro")),
    Member("31", "Pusceddu Alberto", false, Some("Apprendista")),
    Member("32", "Trudu Luigi", false, Some("Maestro"))
  ]


  /** The storage slot of the persisted snapshot. */
  const STORAGE_KEY: string := "lodgekeeper_data_v2"

  /** The roles the member form offers. */
  const FormRoles: seq<string> := ["Apprendista", "Compagno", "Maestro"]

  /** A seed entry: not permanent, with a role the form offers and a name framed by letters. */
  predicate SeedEntry(m: Member) {
    && !m.isPermanent
    && m.role.Some? && m.role.value in FormRoles
    && |m.name| > 0 && 'A' <= m.name[0] <= 'Z' && 'a' <= m.name[|m.name| - 1] <= 'z'
  }

  lemma SeedBlock1Ids()
    ensures |SeedBlock1| == 8 && forall i :: 0 <= i < 8 ==> SeedBlock1[i].id == NatToString(1 + i)
  {
  }

  lemma SeedBlock1Entries()
    ensures forall m :: m in SeedBlock1 ==>
              && !m.isPermanent && m.role.Some? && m.role.value in FormRoles
              && |m.name| > 0 && 'A' <= m.name[0] <= 'Z' && 'a' <= m.name[|m.name| - 1] <= 'z'
  {
  }

  lemma SeedBlock2Ids()
    ensures |SeedBlock2| == 8 && forall i :: 0 <= i < 8 ==> SeedBlock2[i].id == NatToString(9 + i)
  {
  }

  lemma SeedBlock2Entries()
    ensures forall m :: m in SeedBlock2 ==>
              && !m.isPermanent && m.role.Some? && m.role.value in FormRoles
              && |m.name| > 0 && 'A' <= m.name[0] <= 'Z' && 'a' <= m.name[|m.name| - 1] <= 'z'
  {
  }

  lemma SeedBlock3Ids()
    ensures |SeedBlock3| == 8 && forall i :: 0 <= i < 8 ==> SeedBlock3[i].id == NatToString(17 + i)
  {
  }

  lemma SeedBlock3Entries()
    ensures forall m :: m in SeedBlock3 ==>
              && !m.isPermanent && m.role.Some? && m.role.value in FormRoles
              && |m.name| > 0 && 'A' <= m.name[0] <= 'Z' && 'a' <= m.name[|m.name| - 1] <= 'z'
  {
  }

  lemma SeedBlock4Ids()
    ensures |SeedBlock4| == 8 && forall i :: 0 <= i < 8 ==> SeedBlock4[i].id == NatToString(25 + i)
  {
  }

  lemma SeedBlock4Entries()
    ensures forall m :: m in SeedBlock4 ==>
              && !m.isPermanent && m.role.Some? && m.role.value in FormRoles
              && |m.name| > 0 && 'A' <= m.name[0] <= 'Z' && 'a' <= m.name[|m.name| - 1] <= 'z'
  {
  }

  /** The seed roster has 32 members, whose ids are "1" to "32" in order. */
  lemma SeedIds()
    ensures |INITIAL_MEMBERS| == 32
    ensures forall i :: 0 <= i < 32 ==> INITIAL_MEMBERS[i].id == NatToString(i + 1)
  {
    SeedBlock1Ids();
    SeedBlock2Ids();
    SeedBlock3Ids();
    SeedBlock4Ids();
    forall i | 0 <= i < 32 ensures INITIAL_MEMBERS[i].id == NatToString(i + 1) {
      if i < 8 {
      } else if i < 16 {
        assert INITIAL_MEMBERS[i] == SeedBlock2[i - 8];
      } else if i < 24 {
        assert INITIAL_MEMBERS[i] == SeedBlock3[i - 16];
      } else {
        assert INITIAL_MEMBERS[i] == SeedBlock4[i - 24];
      }
    }
  }

  /** No two seed members share an id. */
  lemma SeedIdsUnique()
    ensures UniqueIds(INITIAL_MEMBERS)
  {
    SeedIds();
    forall i, j | 0 <= i < j < |INITIAL_MEMBERS| ensures INITIAL_MEMBERS[i].id != INITIAL_MEMBERS[j].id {
      NatToStringInjective(i + 1, j + 1);
    }
  }

  /** Every seed member has the shape of SeedEntry. */
  lemma SeedEntries()
    ensures forall m :: m in INITIAL_MEMBERS ==> SeedEntry(m)
  {
    SeedBlock1Entries();
    SeedBlock2Entries();
    SeedBlock3Entries();
    SeedBlock4Entries();
  }

  /** No seed member is permanent. */
  lemma SeedHasNoPermanent()
    ensures forall m :: m in INITIAL_MEMBERS ==> !m.isPermanent
  {
    SeedEntries();
  }

  /** A fresh seed roster with no lists therefore has a total of 0 on every date. */
  lemma SeedTotalIsZero(key: string)
    ensures PermanentMembers(INITIAL_MEMBERS) == []
    ensures TotalJustified(INITIAL_MEMBERS, DayList(map[], key)) == 0
  {
    SeedHasNoPermanent();
    NoPermanentMembers(INITIAL_MEMBERS);
  }

  /** Every seed role is one the form offers. */
  lemma SeedRolesOffered()
    ensures forall m :: m in INITIAL_MEMBERS ==> m.role.Some? && m.role.value in FormRoles
  {
    SeedEntries();
  }

  /** Every seed name is non-blank and already trimmed, so it would pass the form's check. */
  lemma SeedNamesTrimmed()
    ensures forall m :: m in INITIAL_MEMBERS ==> m.name != [] && Trim(m.name) == m.name
  {
    SeedEntries();
    forall m | m in INITIAL_MEMBERS ensures m.name != [] && Trim(m.name) == m.name {
      TrimmedByLetters(m.name);
    }
  }

  /** A name framed by letters is its own trim. */
  lemma TrimmedByLetters(n: string)
    requires |n| > 0 && 'A' <= n[0] <= 'Z' && 'a' <= n[|n| - 1] <= 'z'
    ensures Trim(n) == n
  {
    LetterIsNotWhitespace(n[0]);
    LetterIsNotWhitespace(n[|n| - 1]);
    TrimFixesTrimmed(n);
  }
}
