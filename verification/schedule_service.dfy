/** The conflict listing of the schedule service (`checkConflicts`): the
    stored rows of one run grouped under the string keys
    `${guru_id}-${hari}-${jam_ke}` and `${ruang_id}-${hari}-${jam_ke}`, and
    every key held by more than one row reported with its rows. */
module ScheduleService {
  import opened Common
  import opened JsString
  import opened Grouping

  /** A stored timetable row (`jadwal_slot`). */
  datatype ScheduleSlot = ScheduleSlot(id: int, gaRunId: int, kelasId: int, guruId: int, mapelId: int,
                                       ruangId: int, hari: string, jamKe: int, createdAt: string)

  /** One reported conflict: the shared key and the rows filed under it. */
  datatype Conflict = Conflict(key: string, slots: seq<ScheduleSlot>)

  datatype ConflictReport = ConflictReport(teacherConflicts: seq<Conflict>, roomConflicts: seq<Conflict>)

  function TeacherKey(s: ScheduleSlot): string { KeyString(s.guruId, s.hari, s.jamKe) }
  function RoomKey(s: ScheduleSlot): string { KeyString(s.ruangId, s.hari, s.jamKe) }

  /** `cs` lists exactly the keys of `slots` held by two rows or more, each
      once, and each with all the rows under it in row order. */
  predicate ListsClashes(cs: seq<Conflict>, slots: seq<ScheduleSlot>, key: ScheduleSlot -> string) {
    && (forall i :: 0 <= i < |cs| ==> |cs[i].slots| >= 2 && cs[i].slots == Members(slots, key, cs[i].key))
    && (forall i, j :: 0 <= i < j < |cs| ==> cs[i].key != cs[j].key)
    && (forall s :: s in slots ==>
          (Count(Keys(slots, key), key(s)) > 1 <==> exists i :: 0 <= i < |cs| && cs[i].key == key(s)))
  }

  /** One grouping pass: fill a `Map` from key to rows, then keep the
      entries with more than one row, in the map's order. */
  function ConflictsBy(slots: seq<ScheduleSlot>, key: ScheduleSlot -> string): (cs: seq<Conflict>)
    ensures |cs| == |Clashes(Keys(slots, key))|
    ensures forall i :: 0 <= i < |cs| ==> cs[i].key == Clashes(Keys(slots, key))[i]
  {
    var ks := Clashes(Keys(slots, key));
    seq(|ks|, i requires 0 <= i < |ks| => Conflict(ks[i], Members(slots, key, ks[i])))
  }

  lemma {:induction false} ConflictsByExact(slots: seq<ScheduleSlot>, key: ScheduleSlot -> string)
    ensures ListsClashes(ConflictsBy(slots, key), slots, key)
  {
    ClashesExact(Keys(slots, key));
    EntriesCrowded(slots, key);
    EntriesCover(slots, key);
  }

  lemma {:induction false} EntriesCrowded(slots: seq<ScheduleSlot>, key: ScheduleSlot -> string)
    ensures var cs := ConflictsBy(slots, key);
            forall i :: 0 <= i < |cs| ==> |cs[i].slots| >= 2 && cs[i].slots == Members(slots, key, cs[i].key)
  {
    var cs := ConflictsBy(slots, key);
    ClashesExact(Keys(slots, key));
    forall i | 0 <= i < |cs| ensures |cs[i].slots| >= 2 && cs[i].slots == Members(slots, key, cs[i].key) {
      MembersCount(slots, key, cs[i].key);
    }
  }

  lemma {:induction false} EntriesCover(slots: seq<ScheduleSlot>, key: ScheduleSlot -> string)
    ensures var cs := ConflictsBy(slots, key);
            forall s :: s in slots ==>
              (Count(Keys(slots, key), key(s)) > 1 <==> exists i :: 0 <= i < |cs| && cs[i].key == key(s))
  {
    var cs := ConflictsBy(slots, key);
    var ks := Keys(slots, key);
    ClashesExact(ks);
    forall s | s in slots
      ensures Count(ks, key(s)) > 1 <==> exists i :: 0 <= i < |cs| && cs[i].key == key(s)
    {
      if Count(ks, key(s)) > 1 {
        var i :| 0 <= i < |Clashes(ks)| && Clashes(ks)[i] == key(s);
        assert cs[i].key == key(s);
      }
    }
  }

  /** `checkConflicts` on the rows the query returned; a missing result
      (`slots?.forEach` on null) reports nothing. */
  function CheckConflicts(rows: Option<seq<ScheduleSlot>>): (r: ConflictReport)
    ensures rows.None? ==> r.teacherConflicts == [] && r.roomConflicts == []
    ensures rows.Some? ==> ListsClashes(r.teacherConflicts, rows.value, TeacherKey)
                           && ListsClashes(r.roomConflicts, rows.value, RoomKey)
  {
    match rows
    case None => ConflictReport([], [])
    case Some(slots) =>
      ConflictsByExact(slots, TeacherKey);
      ConflictsByExact(slots, RoomKey);
      ConflictReport(ConflictsBy(slots, TeacherKey), ConflictsBy(slots, RoomKey))
  }

  /** Two rows with one teacher at one day and period end up in one reported
      entry. */
  lemma {:induction false} SharedTeacherSlotReported(rows: seq<ScheduleSlot>, i: int, j: int)
    requires 0 <= i < j < |rows|
    requires rows[i].guruId == rows[j].guruId && rows[i].hari == rows[j].hari && rows[i].jamKe == rows[j].jamKe
    ensures exists k :: 0 <= k < |CheckConflicts(Some(rows)).teacherConflicts|
              && rows[i] in CheckConflicts(Some(rows)).teacherConflicts[k].slots
              && rows[j] in CheckConflicts(Some(rows)).teacherConflicts[k].slots
  {
    assert CheckConflicts(Some(rows)).teacherConflicts == ConflictsBy(rows, TeacherKey);
    SharedKeyReported(rows, TeacherKey, i, j);
  }

  /** Two rows in one room at one day and period end up in one reported
      entry. */
  lemma {:induction false} SharedRoomSlotReported(rows: seq<ScheduleSlot>, i: int, j: int)
    requires 0 <= i < j < |rows|
    requires rows[i].ruangId == rows[j].ruangId && rows[i].hari == rows[j].hari && rows[i].jamKe == rows[j].jamKe
    ensures exists k :: 0 <= k < |CheckConflicts(Some(rows)).roomConflicts|
              && rows[i] in CheckConflicts(Some(rows)).roomConflicts[k].slots
              && rows[j] in CheckConflicts(Some(rows)).roomConflicts[k].slots
  {
    assert CheckConflicts(Some(rows)).roomConflicts == ConflictsBy(rows, RoomKey);
    SharedKeyReported(rows, RoomKey, i, j);
  }

  lemma {:induction false} SharedKeyReported(rows: seq<ScheduleSlot>, key: ScheduleSlot -> string, i: int, j: int)
    requires 0 <= i < j < |rows| && key(rows[i]) == key(rows[j])
    ensures exists k :: 0 <= k < |ConflictsBy(rows, key)|
              && rows[i] in ConflictsBy(rows, key)[k].slots && rows[j] in ConflictsBy(rows, key)[k].slots
  {
    var cs := ConflictsBy(rows, key);
    var ks := Keys(rows, key);
    ConflictsByExact(rows, key);
    RepeatedCount(ks, i, j);
    assert rows[i] in rows;
    var k :| 0 <= k < |cs| && cs[k].key == key(rows[i]);
    assert rows[i] in Members(rows, key, cs[k].key);
    assert rows[j] in Members(rows, key, cs[k].key);
  }

  /** A row lands in at most one teacher entry. */
  lemma {:induction false} TeacherEntryUnique(rows: seq<ScheduleSlot>)
    ensures var cs := CheckConflicts(Some(rows)).teacherConflicts;
            forall k, k2, s :: 0 <= k < |cs| && 0 <= k2 < |cs| && s in cs[k].slots && s in cs[k2].slots ==> k == k2
  {
    var cs := CheckConflicts(Some(rows)).teacherConflicts;
    forall k, k2, s | 0 <= k < |cs| && 0 <= k2 < |cs| && s in cs[k].slots && s in cs[k2].slots ensures k == k2 {
      assert TeacherKey(s) == cs[k].key && TeacherKey(s) == cs[k2].key;
    }
  }

  /** A row lands in at most one room entry. */
  lemma {:induction false} RoomEntryUnique(rows: seq<ScheduleSlot>)
    ensures var cs := CheckConflicts(Some(rows)).roomConflicts;
            forall k, k2, s :: 0 <= k < |cs| && 0 <= k2 < |cs| && s in cs[k].slots && s in cs[k2].slots ==> k == k2
  {
    var cs := CheckConflicts(Some(rows)).roomConflicts;
    forall k, k2, s | 0 <= k < |cs| && 0 <= k2 < |cs| && s in cs[k].slots && s in cs[k2].slots ensures k == k2 {
      assert RoomKey(s) == cs[k].key && RoomKey(s) == cs[k2].key;
    }
  }

  /** The rows of one teacher entry share teacher, day and period, given
      readable keys. */
  lemma {:induction false} TeacherEntryShared(rows: seq<ScheduleSlot>)
    requires KeysReadable(rows)
    ensures var cs := CheckConflicts(Some(rows)).teacherConflicts;
            forall k, a, b :: 0 <= k < |cs| && a in cs[k].slots && b in cs[k].slots ==>
              a.guruId == b.guruId && a.hari == b.hari && a.jamKe == b.jamKe
  {
    var cs := CheckConflicts(Some(rows)).teacherConflicts;
    forall k, a, b | 0 <= k < |cs| && a in cs[k].slots && b in cs[k].slots
      ensures a.guruId == b.guruId && a.hari == b.hari && a.jamKe == b.jamKe
    {
      assert a in rows && TeacherKey(a) == cs[k].key;
      assert b in rows && TeacherKey(b) == cs[k].key;
      KeyStringInjective(a.guruId, a.hari, a.jamKe, b.guruId, b.hari, b.jamKe);
    }
  }

  /** The rows of one room entry share room, day and period, given readable
      keys. */
  lemma {:induction false} RoomEntryShared(rows: seq<ScheduleSlot>)
    requires KeysReadable(rows)
    ensures var cs := CheckConflicts(Some(rows)).roomConflicts;
            forall k, a, b :: 0 <= k < |cs| && a in cs[k].slots && b in cs[k].slots ==>
              a.ruangId == b.ruangId && a.hari == b.hari && a.jamKe == b.jamKe
  {
    var cs := CheckConflicts(Some(rows)).roomConflicts;
    forall k, a, b | 0 <= k < |cs| && a in cs[k].slots && b in cs[k].slots
      ensures a.ruangId == b.ruangId && a.hari == b.hari && a.jamKe == b.jamKe
    {
      assert a in rows && RoomKey(a) == cs[k].key;
      assert b in rows && RoomKey(b) == cs[k].key;
      KeyStringInjective(a.ruangId, a.hari, a.jamKe, b.ruangId, b.hari, b.jamKe);
    }
  }

  /** The keys can be read back: periods are non-negative and day names
      hold no '-'. Ids may have either sign. */
  predicate KeysReadable(rows: seq<ScheduleSlot>) {
    forall s :: s in rows ==> s.jamKe >= 0 && '-' !in s.hari
  }

  predicate TeacherTriplesDistinct(rows: seq<ScheduleSlot>) {
    forall i, j :: 0 <= i < j < |rows| ==>
      (rows[i].guruId, rows[i].hari, rows[i].jamKe) != (rows[j].guruId, rows[j].hari, rows[j].jamKe)
  }

  predicate RoomTriplesDistinct(rows: seq<ScheduleSlot>) {
    forall i, j :: 0 <= i < j < |rows| ==>
      (rows[i].ruangId, rows[i].hari, rows[i].jamKe) != (rows[j].ruangId, rows[j].hari, rows[j].jamKe)
  }

  /** No teacher conflict is reported exactly when no two rows share a
      (teacher, day, period) triple, given readable keys. */
  lemma {:induction false} NoTeacherConflictsIff(rows: seq<ScheduleSlot>)
    requires KeysReadable(rows)
    ensures CheckConflicts(Some(rows)).teacherConflicts == [] <==> TeacherTriplesDistinct(rows)
  {
    assert CheckConflicts(Some(rows)).teacherConflicts == ConflictsBy(rows, TeacherKey);
    NoClashesIff(Keys(rows, TeacherKey));
    if TeacherTriplesDistinct(rows) {
      TeacherKeysDistinct(rows);
    }
  }

  lemma {:induction false} TeacherKeysDistinct(rows: seq<ScheduleSlot>)
    requires KeysReadable(rows) && TeacherTriplesDistinct(rows)
    ensures NoDuplicates(Keys(rows, TeacherKey))
  {
    var ks := Keys(rows, TeacherKey);
    forall i, j | 0 <= i < j < |ks| ensures ks[i] != ks[j] {
      var a, b := rows[i], rows[j];
      assert a in rows && b in rows;
      if ks[i] == ks[j] {
        KeyStringInjective(a.guruId, a.hari, a.jamKe, b.guruId, b.hari, b.jamKe);
      }
    }
  }

  /** No room conflict is reported exactly when no two rows share a
      (room, day, period) triple, given readable keys. */
  lemma {:induction false} NoRoomConflictsIff(rows: seq<ScheduleSlot>)
    requires KeysReadable(rows)
    ensures CheckConflicts(Some(rows)).roomConflicts == [] <==> RoomTriplesDistinct(rows)
  {
    assert CheckConflicts(Some(rows)).roomConflicts == ConflictsBy(rows, RoomKey);
    NoClashesIff(Keys(rows, RoomKey));
    if RoomTriplesDistinct(rows) {
      RoomKeysDistinct(rows);
    }
  }

  lemma {:induction false} RoomKeysDistinct(rows: seq<ScheduleSlot>)
    requires KeysReadable(rows) && RoomTriplesDistinct(rows)
    ensures NoDuplicates(Keys(rows, RoomKey))
  {
    var ks := Keys(rows, RoomKey);
    forall i, j | 0 <= i < j < |ks| ensures ks[i] != ks[j] {
      var a, b := rows[i], rows[j];
      assert a in rows && b in rows;
      if ks[i] == ks[j] {
        KeyStringInjective(a.ruangId, a.hari, a.jamKe, b.ruangId, b.hari, b.jamKe);
      }
    }
  }
}
