/** The records the timetable engine reads and produces: the four entity rows
    (`guru`, `mapel`, `kelas`, `ruang`), the gene, the schedule, the run
    configuration, and the fixed week the engine schedules into. */
module Entities {
  import opened Common
  import opened JsString

  /** A `guru` row: the single subject taught, the weekly hour limit, and the
      free-text list of days the teacher cannot teach (nullable). */
  datatype Teacher = Teacher(id: int, nama: string, mapelId: int, jamMaks: int, hariTidakBisa: Option<string>)

  /** A `mapel` row: weekly hours and an optional special-room label. */
  datatype Subject = Subject(id: int, namaMapel: string, jumlahJamPerMinggu: int, ruangKhusus: Option<string>)

  /** A `kelas` row. */
  datatype ClassGroup = ClassGroup(id: int, namaKelas: string, tingkat: Option<int>, jurusan: Option<string>)

  /** A `ruang` row. */
  datatype Room = Room(id: int, namaRuang: string, kapasitas: int, tipeRuang: string)

  /** One session assignment: class, teacher, subject, room, day and period. */
  datatype Gene = Gene(kelasId: int, guruId: int, mapelId: int, ruangId: int, hari: string, jamKe: int)

  /** A candidate timetable with its (possibly not yet computed) score and
      conflict descriptions. */
  datatype Schedule = Schedule(slots: seq<Gene>, fitness: real, conflicts: seq<string>)

  /** The four entity lists a run reads, as the engine's constructor
      receives them. */
  datatype Problem = Problem(teachers: seq<Teacher>, classes: seq<ClassGroup>, subjects: seq<Subject>, rooms: seq<Room>)

  datatype GAConfig = GAConfig(
    maxGenerations: int,
    populationSize: int,
    eliteSize: int,
    mutationRate: real,
    crossoverRate: real)

  /** Monday to Friday. */
  const Days: seq<string> := ["Senin", "Selasa", "Rabu", "Kamis", "Jumat"]

  const HoursPerDay: nat := 8

  /** A fresh, not yet evaluated schedule. */
  function Unevaluated(slots: seq<Gene>): (s: Schedule)
    ensures s.slots == slots && s.fitness == 0.0 && s.conflicts == []
  {
    Schedule(slots, 0.0, [])
  }

  predicate TeachesSubject(mapelId: int, t: Teacher) {
    t.mapelId == mapelId
  }

  predicate HasId(id: int, t: Teacher) {
    t.id == id
  }

  /** `teachers.find(t => t.mapel_id === subject.id)`. */
  function TeacherFor(teachers: seq<Teacher>, mapelId: int): (r: Option<Teacher>)
    ensures r.Some? ==> r.value in teachers && r.value.mapelId == mapelId
    ensures r.None? <==> forall t :: t in teachers ==> t.mapelId != mapelId
  {
    Find(teachers, t => TeachesSubject(mapelId, t))
  }

  /** `teachers.find(t => t.id === id)`. */
  function TeacherById(teachers: seq<Teacher>, id: int): (r: Option<Teacher>)
    ensures r.Some? ==> r.value in teachers && r.value.id == id
    ensures r.None? <==> forall t :: t in teachers ==> t.id != id
  {
    Find(teachers, t => HasId(id, t))
  }

  predicate RoomHasId(id: int, r: Room) {
    r.id == id
  }

  /** `rooms.find(r => r.id === id)`. */
  function RoomById(rooms: seq<Room>, id: int): (r: Option<Room>)
    ensures r.Some? ==> r.value in rooms && r.value.id == id
    ensures r.None? <==> forall x :: x in rooms ==> x.id != id
  {
    Find(rooms, x => RoomHasId(id, x))
  }

  /** The teacher cannot teach on `day`: the unavailable-day field is set,
      non-empty, and contains `day` as a substring. */
  predicate Unavailable(t: Teacher, day: string) {
    t.hariTidakBisa.Some? && t.hariTidakBisa.value != "" && Includes(t.hariTidakBisa.value, day)
  }

  predicate NameMatches(wanted: string, r: Room) {
    Includes(ToLower(r.namaRuang), ToLower(wanted))
  }

  /** The special room of a subject: when its label is set and non-empty, the
      first room whose name contains the label, ignoring case. */
  function SpecialRoom(s: Subject, rooms: seq<Room>): (r: Option<Room>)
    ensures r.Some? ==> r.value in rooms && s.ruangKhusus.Some? && NameMatches(s.ruangKhusus.value, r.value)
    ensures (s.ruangKhusus.Some? && s.ruangKhusus.value != ""
             && exists x :: x in rooms && NameMatches(s.ruangKhusus.value, x)) ==> r.Some?
  {
    if s.ruangKhusus.Some? && s.ruangKhusus.value != "" then
      Find(rooms, x => NameMatches(s.ruangKhusus.value, x))
    else None
  }

  /** The look-ups return the first matching row, as `find` does: every row
      before the one returned fails the test. */
  lemma TeacherForIsFirst(teachers: seq<Teacher>, mapelId: int)
    ensures var r := TeacherFor(teachers, mapelId);
            r.Some? ==> exists i :: 0 <= i < |teachers| && teachers[i] == r.value &&
                                    forall j :: 0 <= j < i ==> teachers[j].mapelId != mapelId
  {
  }

  lemma TeacherByIdIsFirst(teachers: seq<Teacher>, id: int)
    ensures var r := TeacherById(teachers, id);
            r.Some? ==> exists i :: 0 <= i < |teachers| && teachers[i] == r.value &&
                                    forall j :: 0 <= j < i ==> teachers[j].id != id
  {
  }

  lemma RoomByIdIsFirst(rooms: seq<Room>, id: int)
    ensures var r := RoomById(rooms, id);
            r.Some? ==> exists i :: 0 <= i < |rooms| && rooms[i] == r.value &&
                                    forall j :: 0 <= j < i ==> rooms[j].id != id
  {
  }

  lemma SpecialRoomIsFirst(s: Subject, rooms: seq<Room>)
    ensures var r := SpecialRoom(s, rooms);
            r.Some? ==> exists i :: 0 <= i < |rooms| && rooms[i] == r.value &&
                                    forall j :: 0 <= j < i ==> !NameMatches(s.ruangKhusus.value, rooms[j])
  {
  }

  predicate IsRoomId(rooms: seq<Room>, id: int) {
    exists r :: r in rooms && r.id == id
  }

  // ----- grouping keys -----

  function TeacherSlot(g: Gene): (int, string, int) { (g.guruId, g.hari, g.jamKe) }
  function RoomSlot(g: Gene): (int, string, int) { (g.ruangId, g.hari, g.jamKe) }
  function ClassSlot(g: Gene): (int, string, int) { (g.kelasId, g.hari, g.jamKe) }
  function GuruOf(g: Gene): int { g.guruId }
  function MapelOf(g: Gene): int { g.mapelId }
  function HariOf(g: Gene): string { g.hari }
  function CellOf(g: Gene): (string, int) { (g.hari, g.jamKe) }
  function ClassSubjectOf(g: Gene): (int, int) { (g.kelasId, g.mapelId) }
  function ClassIdOf(c: ClassGroup): int { c.id }
  function SubjectIdOf(s: Subject): int { s.id }

  /** No day name holds '-'. */
  lemma DaysHaveNoDash()
    ensures forall d :: d in Days ==> '-' !in d
  {
  }

  /** For genes on one of the five days with a non-negative period, grouping
      by the `${id}-${hari}-${jam_ke}` strings the source builds is grouping
      by the (id, day, period) triples, whatever the sign of the ids. */
  lemma {:induction false} GeneKeysAgree(g: Gene, g2: Gene)
    requires g.hari in Days && g2.hari in Days && g.jamKe >= 0 && g2.jamKe >= 0
    ensures (KeyString(g.guruId, g.hari, g.jamKe) == KeyString(g2.guruId, g2.hari, g2.jamKe))
            <==> TeacherSlot(g) == TeacherSlot(g2)
    ensures (KeyString(g.ruangId, g.hari, g.jamKe) == KeyString(g2.ruangId, g2.hari, g2.jamKe))
            <==> RoomSlot(g) == RoomSlot(g2)
    ensures (KeyString(g.kelasId, g.hari, g.jamKe) == KeyString(g2.kelasId, g2.hari, g2.jamKe))
            <==> ClassSlot(g) == ClassSlot(g2)
  {
    DaysHaveNoDash();
    if KeyString(g.guruId, g.hari, g.jamKe) == KeyString(g2.guruId, g2.hari, g2.jamKe) {
      KeyStringInjective(g.guruId, g.hari, g.jamKe, g2.guruId, g2.hari, g2.jamKe);
    }
    if KeyString(g.ruangId, g.hari, g.jamKe) == KeyString(g2.ruangId, g2.hari, g2.jamKe) {
      KeyStringInjective(g.ruangId, g.hari, g.jamKe, g2.ruangId, g2.hari, g2.jamKe);
    }
    if KeyString(g.kelasId, g.hari, g.jamKe) == KeyString(g2.kelasId, g2.hari, g2.jamKe) {
      KeyStringInjective(g.kelasId, g.hari, g.jamKe, g2.kelasId, g2.hari, g2.jamKe);
    }
  }

  // ----- random draws -----

  /** `DAYS[Math.floor(Math.random() * DAYS.length)]`. */
  function DrawDay(u: Unit): (d: string)
    ensures d in Days
  {
    Days[PickIndex(u, |Days|)]
  }

  /** `Math.floor(Math.random() * HOURS_PER_DAY) + 1`. */
  function DrawHour(u: Unit): (h: int)
    ensures 1 <= h <= HoursPerDay
  {
    PickIndex(u, HoursPerDay) + 1
  }

  /** `rooms[Math.floor(Math.random() * rooms.length)]`. */
  function DrawRoom(u: Unit, rooms: seq<Room>): (r: Room)
    requires |rooms| > 0
    ensures r in rooms
  {
    rooms[PickIndex(u, |rooms|)]
  }

  // ----- well-formed genes -----

  /** What every gene the engine ever builds satisfies: a weekday, a period
      in 1..8, an existing room, class and subject, and the subject's
      teacher (the first teacher row for that subject). */
  predicate GeneOk(p: Problem, g: Gene) {
    && g.hari in Days
    && 1 <= g.jamKe <= HoursPerDay
    && IsRoomId(p.rooms, g.ruangId)
    && (exists c :: c in p.classes && c.id == g.kelasId)
    && (exists s :: s in p.subjects && s.id == g.mapelId)
    && TeacherFor(p.teachers, g.mapelId).Some?
    && TeacherFor(p.teachers, g.mapelId).value.id == g.guruId
  }

  predicate AllGenesOk(p: Problem, slots: seq<Gene>) {
    forall g :: g in slots ==> GeneOk(p, g)
  }
}
