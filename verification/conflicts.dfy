/** The engine's conflict report and its final schedule check. */
module Conflicts {
  import opened Common
  import opened JsString
  import opened Grouping
  import opened Entities
  import opened Fitness

  /** `teacher?.nama` inside a template literal: the name of the first
      teacher row with that id, or `undefined`. */
  function TeacherName(teachers: seq<Teacher>, id: int): (name: string)
    ensures (forall t :: t in teachers ==> t.id != id) ==> name == "undefined"
    ensures (exists t :: t in teachers && t.id == id) ==> exists t :: t in teachers && t.id == id && name == t.nama
  {
    match TeacherById(teachers, id)
    case Some(t) => t.nama
    case None => "undefined"
  }

  /** `room?.nama_ruang` inside a template literal. */
  function RoomName(rooms: seq<Room>, id: int): (name: string)
    ensures (forall r :: r in rooms ==> r.id != id) ==> name == "undefined"
    ensures (exists r :: r in rooms && r.id == id) ==> exists r :: r in rooms && r.id == id && name == r.namaRuang
  {
    match RoomById(rooms, id)
    case Some(r) => r.namaRuang
    case None => "undefined"
  }

  /** The description of a (teacher, day, period) group; the group's first
      slot carries the key's teacher id. */
  function TeacherMessage(teachers: seq<Teacher>, slots: seq<Gene>, k: (int, string, int)): string
  {
    "Guru " + TeacherName(teachers, k.0) + " mengajar " + NatToString(Count(TeacherKeys(slots), k))
    + " kelas pada " + KeyString(k.0, k.1, k.2)
  }

  /** The description of a (room, day, period) group. */
  function RoomMessage(rooms: seq<Room>, slots: seq<Gene>, k: (int, string, int)): string
  {
    "Ruang " + RoomName(rooms, k.0) + " digunakan " + NatToString(Count(RoomKeys(slots), k))
    + " kelas pada " + KeyString(k.0, k.1, k.2)
  }

  /** `detectConflicts`: one description per teacher triple held by more than
      one slot, in first-occurrence order, then one per room triple. Class
      triples are not reported. */
  function DetectConflicts(teachers: seq<Teacher>, rooms: seq<Room>, slots: seq<Gene>): (cs: seq<string>)
    ensures |cs| == |Clashes(TeacherKeys(slots))| + |Clashes(RoomKeys(slots))|
    ensures forall i :: 0 <= i < |Clashes(TeacherKeys(slots))| ==>
              cs[i] == TeacherMessage(teachers, slots, Clashes(TeacherKeys(slots))[i])
    ensures forall i :: 0 <= i < |Clashes(RoomKeys(slots))| ==>
              cs[|Clashes(TeacherKeys(slots))| + i] == RoomMessage(rooms, slots, Clashes(RoomKeys(slots))[i])
  {
    var t := TeacherReport(teachers, slots);
    var r := RoomReport(rooms, slots);
    assert forall i :: 0 <= i < |r| ==> (t + r)[|t| + i] == r[i];
    t + r
  }

  /** The teacher part of the report, one description per shared triple. */
  function TeacherReport(teachers: seq<Teacher>, slots: seq<Gene>): (ms: seq<string>)
    ensures |ms| == |Clashes(TeacherKeys(slots))|
    ensures forall i :: 0 <= i < |ms| ==> ms[i] == TeacherMessage(teachers, slots, Clashes(TeacherKeys(slots))[i])
  {
    var tc := Clashes(TeacherKeys(slots));
    seq(|tc|, i requires 0 <= i < |tc| => TeacherMessage(teachers, slots, tc[i]))
  }

  /** The room part of the report. */
  function RoomReport(rooms: seq<Room>, slots: seq<Gene>): (ms: seq<string>)
    ensures |ms| == |Clashes(RoomKeys(slots))|
    ensures forall i :: 0 <= i < |ms| ==> ms[i] == RoomMessage(rooms, slots, Clashes(RoomKeys(slots))[i])
  {
    var rc := Clashes(RoomKeys(slots));
    seq(|rc|, i requires 0 <= i < |rc| => RoomMessage(rooms, slots, rc[i]))
  }

  /** The report is empty exactly when no teacher triple and no room triple
      repeats. */
  lemma {:induction false} ConflictFreeIff(teachers: seq<Teacher>, rooms: seq<Room>, slots: seq<Gene>)
    ensures DetectConflicts(teachers, rooms, slots) == [] <==>
            NoDuplicates(TeacherKeys(slots)) && NoDuplicates(RoomKeys(slots))
  {
    NoClashesIff(TeacherKeys(slots));
    NoClashesIff(RoomKeys(slots));
  }

  /** Each reported teacher group is a triple shared by at least two slots,
      no triple is reported twice, and every shared triple is reported, with
      its slot count. */
  lemma {:induction false} TeacherReportExact(teachers: seq<Teacher>, rooms: seq<Room>, slots: seq<Gene>)
    ensures forall i :: 0 <= i < |Clashes(TeacherKeys(slots))| ==>
              Count(TeacherKeys(slots), Clashes(TeacherKeys(slots))[i]) >= 2
    ensures NoDuplicates(Clashes(TeacherKeys(slots)))
    ensures forall i, j :: 0 <= i < j < |slots| && TeacherSlot(slots[i]) == TeacherSlot(slots[j]) ==>
              TeacherMessage(teachers, slots, TeacherSlot(slots[i])) in DetectConflicts(teachers, rooms, slots)
  {
    var ks := TeacherKeys(slots);
    ClashesExact(ks);
    forall i, j | 0 <= i < j < |slots| && TeacherSlot(slots[i]) == TeacherSlot(slots[j])
      ensures TeacherMessage(teachers, slots, TeacherSlot(slots[i])) in DetectConflicts(teachers, rooms, slots)
    {
      RepeatedCount(ks, i, j);
      var k :| 0 <= k < |Clashes(ks)| && Clashes(ks)[k] == ks[i];
      assert DetectConflicts(teachers, rooms, slots)[k] == TeacherMessage(teachers, slots, TeacherSlot(slots[i]));
    }
  }

  /** The same for room groups, which follow the teacher groups. */
  lemma {:induction false} RoomReportExact(teachers: seq<Teacher>, rooms: seq<Room>, slots: seq<Gene>)
    ensures forall i :: 0 <= i < |Clashes(RoomKeys(slots))| ==>
              Count(RoomKeys(slots), Clashes(RoomKeys(slots))[i]) >= 2
    ensures NoDuplicates(Clashes(RoomKeys(slots)))
    ensures forall i, j :: 0 <= i < j < |slots| && RoomSlot(slots[i]) == RoomSlot(slots[j]) ==>
              RoomMessage(rooms, slots, RoomSlot(slots[i])) in DetectConflicts(teachers, rooms, slots)
  {
    var ks := RoomKeys(slots);
    var n := |Clashes(TeacherKeys(slots))|;
    ClashesExact(ks);
    forall i, j | 0 <= i < j < |slots| && RoomSlot(slots[i]) == RoomSlot(slots[j])
      ensures RoomMessage(rooms, slots, RoomSlot(slots[i])) in DetectConflicts(teachers, rooms, slots)
    {
      RepeatedCount(ks, i, j);
      var k :| 0 <= k < |Clashes(ks)| && Clashes(ks)[k] == ks[i];
      assert DetectConflicts(teachers, rooms, slots)[n + k] == RoomMessage(rooms, slots, RoomSlot(slots[i]));
    }
  }

  /** Class double-bookings are charged by the fitness but never reported:
      two slots of one class at one time, with different teachers and rooms,
      produce an empty report yet cost 20 points. */
  lemma {:induction false} ClassClashUnreported(teachers: seq<Teacher>, rooms: seq<Room>, a: Gene, b: Gene)
    requires ClassSlot(a) == ClassSlot(b) && a.guruId != b.guruId && a.ruangId != b.ruangId
    ensures DetectConflicts(teachers, rooms, [a, b]) == []
    ensures CalculateFitness(teachers, [a, b]) <= 80.0
  {
    var slots := [a, b];
    PairKeys(a, b, TeacherSlot);
    PairKeys(a, b, RoomSlot);
    assert NoDuplicates(TeacherKeys(slots));
    assert NoDuplicates(RoomKeys(slots));
    ConflictFreeIff(teachers, rooms, slots);
    ClassClashCosts(teachers, slots, 0, 1);
  }

  lemma {:induction false} PairKeys<K(!new)>(a: Gene, b: Gene, key: Gene -> K)
    ensures Keys([a, b], key) == [key(a), key(b)]
  {
    var ks := Keys([a, b], key);
    assert |ks| == 2 && ks[0] == key(a) && ks[1] == key(b);
  }

  // ----- validate -----

  datatype ValidationResult = ValidationResult(valid: bool, errors: seq<string>)

  /** The number of slots teaching the subject. */
  function SubjectHours(slots: seq<Gene>, mapelId: int): nat
  {
    Count(Keys(slots, MapelOf), mapelId)
  }

  predicate HoursMet(s: Subject, slots: seq<Gene>, classCount: nat) {
    SubjectHours(slots, s.id) == s.jumlahJamPerMinggu * classCount
  }

  function HoursMessage(s: Subject, slots: seq<Gene>, classCount: nat): string
  {
    "Mapel " + s.namaMapel + ": " + NatToString(SubjectHours(slots, s.id)) + " jam (seharusnya "
    + IntToString(s.jumlahJamPerMinggu * classCount) + ")"
  }

  /** The positions of the subjects whose slot count is off. */
  function Failing(subjects: seq<Subject>, slots: seq<Gene>, classCount: nat): set<int>
  {
    set i | 0 <= i < |subjects| && !HoursMet(subjects[i], slots, classCount)
  }

  /** The subjects off their hours are those among all but the last, plus
      the last one when it is off. */
  lemma {:induction false} FailingSplit(subjects: seq<Subject>, slots: seq<Gene>, classCount: nat)
    requires |subjects| > 0
    ensures var n := |subjects| - 1;
            Failing(subjects, slots, classCount) ==
              Failing(subjects[..n], slots, classCount) + (if HoursMet(subjects[n], slots, classCount) then {} else {n})
    ensures |subjects| - 1 !in Failing(subjects[..|subjects| - 1], slots, classCount)
    ensures |Failing(subjects, slots, classCount)| ==
              |Failing(subjects[..|subjects| - 1], slots, classCount)|
              + (if HoursMet(subjects[|subjects| - 1], slots, classCount) then 0 else 1)
  {
    var n := |subjects| - 1;
    var init := subjects[..n];
    forall i | 0 <= i < n ensures init[i] == subjects[i] { }
    assert Failing(subjects, slots, classCount) ==
             Failing(init, slots, classCount) + (if HoursMet(subjects[n], slots, classCount) then {} else {n});
  }

  /** One message per subject, in subject order, whose slot count differs
      from its weekly hours times the number of classes. */
  function HoursErrors(subjects: seq<Subject>, slots: seq<Gene>, classCount: nat): (es: seq<string>)
    ensures |es| <= |subjects|
    ensures es == [] <==> forall s :: s in subjects ==> HoursMet(s, slots, classCount)
    ensures forall m :: m in es ==> exists s :: s in subjects && !HoursMet(s, slots, classCount) && m == HoursMessage(s, slots, classCount)
    ensures forall s :: s in subjects && !HoursMet(s, slots, classCount) ==> HoursMessage(s, slots, classCount) in es
  {
    if |subjects| == 0 then []
    else
      var last := subjects[|subjects| - 1];
      var rest := HoursErrors(subjects[..|subjects| - 1], slots, classCount);
      InitLastMembers(subjects);
      if HoursMet(last, slots, classCount) then rest
      else rest + [HoursMessage(last, slots, classCount)]
  }

  /** There are exactly as many hour messages as subjects off their hours:
      one each, none repeated. */
  lemma {:induction false} HoursErrorsCount(subjects: seq<Subject>, slots: seq<Gene>, classCount: nat)
    ensures |HoursErrors(subjects, slots, classCount)| == |Failing(subjects, slots, classCount)|
    decreases |subjects|
  {
    if |subjects| > 0 {
      HoursErrorsCount(subjects[..|subjects| - 1], slots, classCount);
      FailingSplit(subjects, slots, classCount);
    }
  }

  /** `validate`: the hour-count messages followed by the conflict report;
      valid exactly when there is no message. */
  function Validate(teachers: seq<Teacher>, classes: seq<ClassGroup>, subjects: seq<Subject>, rooms: seq<Room>,
                    schedule: Schedule): (v: ValidationResult)
    ensures v.valid <==> v.errors == []
  {
    var errors := HoursErrors(subjects, schedule.slots, |classes|) + DetectConflicts(teachers, rooms, schedule.slots);
    ValidationResult(errors == [], errors)
  }

  /** The error list starts with the hour-count messages and ends with the
      conflict report. */
  lemma {:induction false} ErrorsLayout(teachers: seq<Teacher>, classes: seq<ClassGroup>, subjects: seq<Subject>,
                                        rooms: seq<Room>, schedule: Schedule)
    ensures var v := Validate(teachers, classes, subjects, rooms, schedule);
            var hours := HoursErrors(subjects, schedule.slots, |classes|);
            |hours| <= |v.errors| && v.errors[..|hours|] == hours
            && v.errors[|hours|..] == DetectConflicts(teachers, rooms, schedule.slots)
  {
    var hours := HoursErrors(subjects, schedule.slots, |classes|);
    var conflicts := DetectConflicts(teachers, rooms, schedule.slots);
    assert (hours + conflicts)[..|hours|] == hours;
    assert (hours + conflicts)[|hours|..] == conflicts;
  }

  /** A schedule is valid exactly when every subject has its weekly hours for
      every class and no teacher or room triple repeats. Class clashes do not
      make it invalid. */
  lemma {:induction false} ValidIff(teachers: seq<Teacher>, classes: seq<ClassGroup>, subjects: seq<Subject>,
                                    rooms: seq<Room>, schedule: Schedule)
    ensures Validate(teachers, classes, subjects, rooms, schedule).valid <==>
            (forall s :: s in subjects ==> SubjectHours(schedule.slots, s.id) == s.jumlahJamPerMinggu * |classes|)
            && NoDuplicates(TeacherKeys(schedule.slots)) && NoDuplicates(RoomKeys(schedule.slots))
  {
    ConflictFreeIff(teachers, rooms, schedule.slots);
  }

  /** A subject that needs hours but has no slot at all is reported as
      having 0 hours; this is how a subject without a teacher surfaces. */
  lemma {:induction false} UnscheduledSubjectReported(teachers: seq<Teacher>, classes: seq<ClassGroup>,
                                                      subjects: seq<Subject>, rooms: seq<Room>,
                                                      schedule: Schedule, s: Subject)
    requires s in subjects && s.jumlahJamPerMinggu * |classes| != 0
    requires forall g :: g in schedule.slots ==> g.mapelId != s.id
    ensures !Validate(teachers, classes, subjects, rooms, schedule).valid
    ensures SubjectHours(schedule.slots, s.id) == 0
    ensures HoursMessage(s, schedule.slots, |classes|) in Validate(teachers, classes, subjects, rooms, schedule).errors
  {
    NoHours(schedule.slots, s.id);
    assert !HoursMet(s, schedule.slots, |classes|);
    HoursMessageReported(teachers, classes, subjects, rooms, schedule, s);
  }

  lemma {:induction false} NoHours(slots: seq<Gene>, mapelId: int)
    requires forall g :: g in slots ==> g.mapelId != mapelId
    ensures SubjectHours(slots, mapelId) == 0
  {
    var ms := Keys(slots, MapelOf);
    forall i | 0 <= i < |ms| ensures ms[i] != mapelId {
      assert slots[i] in slots;
    }
  }

  /** Every subject short of (or over) its hours has its message among the
      errors. */
  lemma {:induction false} HoursMessageReported(teachers: seq<Teacher>, classes: seq<ClassGroup>,
                                                subjects: seq<Subject>, rooms: seq<Room>,
                                                schedule: Schedule, s: Subject)
    requires s in subjects && !HoursMet(s, schedule.slots, |classes|)
    ensures HoursMessage(s, schedule.slots, |classes|) in Validate(teachers, classes, subjects, rooms, schedule).errors
  {
    var v := Validate(teachers, classes, subjects, rooms, schedule);
    var he := HoursErrors(subjects, schedule.slots, |classes|);
    ErrorsLayout(teachers, classes, subjects, rooms, schedule);
    var m := HoursMessage(s, schedule.slots, |classes|);
    var k :| 0 <= k < |he| && he[k] == m;
    assert v.errors[..|he|][k] == m;
  }
}
