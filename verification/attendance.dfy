/**
 * The per-date excused store of App.tsx: reading a date's list (a missing
 * date reads as the empty list) and toggling one member id on one date.
 */
module Attendance {
  import opened Types
  import opened Seqs

  /** The ids excused on `key`; a date with no entry reads as the empty list. */
  function DayList(att: AttendanceRecord, key: string): (r: seq<string>)
    ensures key in att ==> r == att[key]
    ensures key !in att ==> r == []
  {
    if key in att then att[key] else []
  }

  /** The test used to drop an id from a list. */
  function IsOtherId(id: string): string -> bool {
    (x: string) => x != id
  }

  /** The list without any occurrence of `id`, other entries in order. */
  function RemoveAll(list: seq<string>, id: string): (r: seq<string>)
    ensures id !in r
    ensures forall x :: x != id ==> (x in r <==> x in list)
    ensures forall x :: x != id ==> multiset(r)[x] == multiset(list)[x]
  {
    FilterCounts(list, IsOtherId(id));
    Filter(list, IsOtherId(id))
  }

  /**
   * Toggling one id in a list: an id already there is removed (every
   * occurrence), an id not there is appended; no other id is affected.
   */
  function Toggled(list: seq<string>, id: string): (r: seq<string>)
    ensures id in r <==> id !in list
    ensures forall x :: x != id ==> multiset(r)[x] == multiset(list)[x]
    ensures id !in list ==> r == list + [id]
  {
    if id in list then RemoveAll(list, id) else list + [id]
  }

  /** Toggling `id` on date `key`: that date's entry is rewritten and every other entry is kept. */
  function ToggleAt(att: AttendanceRecord, key: string, id: string): (r: AttendanceRecord)
    ensures r.Keys == att.Keys + {key}
    ensures forall k :: k in att && k != key ==> r[k] == att[k]
  {
    att[key := Toggled(DayList(att, key), id)]
  }

  /** Read through DayList, a toggle changes the toggled date only. */
  lemma ToggleAtReadsBack(att: AttendanceRecord, key: string, id: string, k: string)
    ensures DayList(ToggleAt(att, key, id), k)
         == if k == key then Toggled(DayList(att, key), id) else DayList(att, k)
  {
  }

  /** Toggling an absent id twice gives back the original list. */
  lemma ToggledTwiceAbsent(list: seq<string>, id: string)
    requires id !in list
    ensures Toggled(Toggled(list, id), id) == list
  {
    var p := IsOtherId(id);
    FilterConcat(list, [id], p);
    FilterKeepsAll(list, p);
    FilterSingleton(id, p);
  }

  /** Toggling a present id twice moves it to the end, dropping any extra copies. */
  lemma ToggledTwicePresent(list: seq<string>, id: string)
    requires id in list
    ensures Toggled(Toggled(list, id), id) == RemoveAll(list, id) + [id]
    ensures NoDup(list) ==> multiset(Toggled(Toggled(list, id), id)) == multiset(list)
  {
    if NoDup(list) {
      var r := Toggled(Toggled(list, id), id);
      OccursOnce(list, id);
      forall x ensures multiset(r)[x] == multiset(list)[x] {
      }
    }
  }

  /** In a duplicate-free list an element that occurs, occurs once. */
  lemma {:induction false} OccursOnce(s: seq<string>, x: string)
    requires NoDup(s) && x in s
    ensures multiset(s)[x] == 1
  {
    var tail := s[1..];
    assert s == [s[0]] + tail;
    assert NoDup(tail) by {
      forall i, j | 0 <= i < j < |tail| ensures tail[i] != tail[j] {
        assert tail[i] == s[i + 1] && tail[j] == s[j + 1];
      }
    }
    if s[0] == x {
      assert x !in tail by {
        forall k | 0 <= k < |tail| ensures tail[k] != x {
          assert tail[k] == s[k + 1];
        }
      }
    } else {
      OccursOnce(tail, x);
    }
  }

  /** Toggling keeps a duplicate-free list duplicate-free. */
  lemma ToggledNoDup(list: seq<string>, id: string)
    requires NoDup(list)
    ensures NoDup(Toggled(list, id))
  {
    if id in list {
      FilterNoDup(list, IsOtherId(id));
    }
  }

  /**
   * Toggling the same id twice on the same date, starting from a date where
   * it is not excused, restores that date's entry, except that a date with no
   * entry is left with an empty one.
   */
  lemma ToggleAtTwice(att: AttendanceRecord, key: string, id: string)
    requires id !in DayList(att, key)
    ensures ToggleAt(ToggleAt(att, key, id), key, id) == if key in att then att else att[key := []]
  {
    ToggledTwiceAbsent(DayList(att, key), id);
    var twice := ToggleAt(ToggleAt(att, key, id), key, id);
    if key in att {
      assert twice == att;
    }
  }

  /** The toggle scenario: one id on an empty store is excused, then no longer. */
  lemma ToggleScenario()
    ensures ToggleAt(map[], "2024-02-02", "3") == map["2024-02-02" := ["3"]]
    ensures ToggleAt(ToggleAt(map[], "2024-02-02", "3"), "2024-02-02", "3") == map["2024-02-02" := []]
  {
    assert Toggled([], "3") == ["3"];
    ToggleAtTwice(map[], "2024-02-02", "3");
  }
}
