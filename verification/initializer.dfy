/** Random construction of the initial timetables (`createRandomSchedule`
    and `initializePopulation`). Every draw is read from the random stream at
    the cursor, in the order the engine makes it; each function returns the
    cursor after its last draw. */
module Initializer {
  import opened Common
  import opened Grouping
  import opened Entities

  /** The attempts allowed for placing one session before it is dropped. */
  const MaxAttempts: nat := 200

  /** The state a placement pass threads through: the genes built so far,
      the (day, period) cells the current class occupies, and the cursor. */
  datatype Placement = Placement(genes: seq<Gene>, used: set<(string, int)>, pos: nat)

  /** The room a new session gets: the subject's special room when one
      matches, otherwise the drawn room (which is drawn in any case). */
  function SessionRoom(s: Subject, rooms: seq<Room>, u: Unit): (r: Room)
    requires |rooms| > 0
    ensures r in rooms
    ensures SpecialRoom(s, rooms).Some? ==> r == SpecialRoom(s, rooms).value
    ensures SpecialRoom(s, rooms).None? ==> r == DrawRoom(u, rooms)
  {
    match SpecialRoom(s, rooms)
    case Some(special) => special
    case None => DrawRoom(u, rooms)
  }

  /** What a session placed for class `c`, subject `s` and teacher `t`
      satisfies, whatever the draws: it names them, sits on a weekday period
      the teacher has not excluded, and uses an existing room, which is the
      subject's special room when there is one. */
  predicate Placed(p: Problem, c: ClassGroup, t: Teacher, s: Subject, g: Gene) {
    && g.kelasId == c.id && g.guruId == t.id && g.mapelId == s.id
    && g.hari in Days && 1 <= g.jamKe <= HoursPerDay
    && !Unavailable(t, g.hari)
    && IsRoomId(p.rooms, g.ruangId)
    && (SpecialRoom(s, p.rooms).Some? ==> g.ruangId == SpecialRoom(s, p.rooms).value.id)
  }

  /** The attempt loop for one session: draw a day and a period; retry when
      the class already has that cell or the teacher is unavailable that
      day; otherwise draw a room and place the session. After 200 failed
      attempts the session is dropped. */
  function TryPlace(p: Problem, c: ClassGroup, t: Teacher, s: Subject, used: set<(string, int)>,
                    rng: Random, pos: nat, attempts: nat): (r: (Option<Gene>, nat))
    requires |p.rooms| > 0
    requires attempts <= MaxAttempts
    ensures r.1 >= pos
    ensures r.0.Some? ==> Placed(p, c, t, s, r.0.value) && CellOf(r.0.value) !in used
    decreases MaxAttempts - attempts
  {
    if attempts == MaxAttempts then (None, pos)
    else
      var day := DrawDay(rng(pos));
      var hour := DrawHour(rng(pos + 1));
      if (day, hour) in used || Unavailable(t, day) then
        TryPlace(p, c, t, s, used, rng, pos + 2, attempts + 1)
      else
        var room := SessionRoom(s, p.rooms, rng(pos + 2));
        (Some(Gene(c.id, t.id, s.id, room.id, day, hour)), pos + 3)
  }

  predicate CellsDistinct(genes: seq<Gene>) {
    forall i, j :: 0 <= i < j < |genes| ==> CellOf(genes[i]) != CellOf(genes[j])
  }

  function Cells(genes: seq<Gene>): set<(string, int)> {
    set g | g in genes :: CellOf(g)
  }

  /** The `n` sessions of one subject for one class (`h = 0 .. n-1`). */
  function Sessions(p: Problem, c: ClassGroup, t: Teacher, s: Subject, used: set<(string, int)>,
                    rng: Random, pos: nat, n: nat): (r: Placement)
    requires |p.rooms| > 0
    ensures |r.genes| <= n
    ensures forall g :: g in r.genes ==> Placed(p, c, t, s, g) && CellOf(g) !in used
    ensures CellsDistinct(r.genes)
    ensures r.used == used + Cells(r.genes)
    ensures r.pos >= pos
    decreases n
  {
    if n == 0 then
      assert Cells([]) == {};
      Placement([], used, pos)
    else
      var attempt := TryPlace(p, c, t, s, used, rng, pos, 0);
      if attempt.0.None? then Sessions(p, c, t, s, used, rng, attempt.1, n - 1)
      else
        var g := attempt.0.value;
        var rest := Sessions(p, c, t, s, used + {CellOf(g)}, rng, attempt.1, n - 1);
        SessionsStep(p, c, t, s, used, g, rest);
        Placement([g] + rest.genes, rest.used, rest.pos)
  }

  lemma {:induction false} SessionsStep(p: Problem, c: ClassGroup, t: Teacher, s: Subject, used: set<(string, int)>,
                                        g: Gene, rest: Placement)
    requires Placed(p, c, t, s, g) && CellOf(g) !in used
    requires forall x :: x in rest.genes ==> Placed(p, c, t, s, x) && CellOf(x) !in used + {CellOf(g)}
    requires CellsDistinct(rest.genes)
    requires rest.used == used + {CellOf(g)} + Cells(rest.genes)
    ensures forall x :: x in [g] + rest.genes ==> Placed(p, c, t, s, x) && CellOf(x) !in used
    ensures CellsDistinct([g] + rest.genes)
    ensures rest.used == used + Cells([g] + rest.genes)
  {
    CellsCons(g, rest.genes);
    DistinctCons(g, rest.genes);
    forall x | x in [g] + rest.genes ensures Placed(p, c, t, s, x) && CellOf(x) !in used {
      if x != g { assert x in rest.genes; }
    }
  }

  lemma {:induction false} CellsCons(g: Gene, genes: seq<Gene>)
    ensures Cells([g] + genes) == {CellOf(g)} + Cells(genes)
  {
    var all := [g] + genes;
    assert forall x :: x in all <==> x == g || x in genes;
  }

  lemma {:induction false} DistinctCons(g: Gene, genes: seq<Gene>)
    requires CellsDistinct(genes) && forall x :: x in genes ==> CellOf(x) != CellOf(g)
    ensures CellsDistinct([g] + genes)
  {
    var all := [g] + genes;
    forall i, j | 0 <= i < j < |all| ensures CellOf(all[i]) != CellOf(all[j]) {
      assert all[j] == genes[j - 1];
      if i > 0 { assert all[i] == genes[i - 1]; }
    }
  }

  /** The weekly hours of a subject, as a loop bound (`h < jumlah_jam`). */
  function HoursNeeded(s: Subject): nat {
    if s.jumlahJamPerMinggu > 0 then s.jumlahJamPerMinggu else 0
  }

  /** A session placed for class `c` for one of `subjects`, by that
      subject's teacher. */
  predicate PlacedFor(p: Problem, c: ClassGroup, subjects: seq<Subject>, g: Gene) {
    exists s :: s in subjects && TeacherFor(p.teachers, s.id).Some? && Placed(p, c, TeacherFor(p.teachers, s.id).value, s, g)
  }

  /** The sessions of one class, subject by subject; a subject without a
      teacher contributes nothing. */
  function ClassBlock(p: Problem, c: ClassGroup, subjects: seq<Subject>, used: set<(string, int)>,
                      rng: Random, pos: nat): (r: Placement)
    requires |p.rooms| > 0
    ensures forall g :: g in r.genes ==> PlacedFor(p, c, subjects, g) && CellOf(g) !in used
    ensures CellsDistinct(r.genes)
    ensures r.used == used + Cells(r.genes)
    ensures r.pos >= pos
  {
    if |subjects| == 0 then
      assert Cells([]) == {};
      Placement([], used, pos)
    else
      var s := subjects[0];
      var first := match TeacherFor(p.teachers, s.id)
        case None => Placement([], used, pos)
        case Some(t) => Sessions(p, c, t, s, used, rng, pos, HoursNeeded(s));
      var rest := ClassBlock(p, c, subjects[1..], first.used, rng, first.pos);
      BlockStep(p, c, subjects, used, first, rest);
      Placement(first.genes + rest.genes, rest.used, rest.pos)
  }

  lemma {:induction false} BlockStep(p: Problem, c: ClassGroup, subjects: seq<Subject>, used: set<(string, int)>,
                                     first: Placement, rest: Placement)
    requires |subjects| > 0
    requires forall g :: g in first.genes ==> PlacedFor(p, c, subjects[..1], g) && CellOf(g) !in used
    requires CellsDistinct(first.genes) && first.used == used + Cells(first.genes)
    requires forall g :: g in rest.genes ==> PlacedFor(p, c, subjects[1..], g) && CellOf(g) !in first.used
    requires CellsDistinct(rest.genes) && rest.used == first.used + Cells(rest.genes)
    ensures forall g :: g in first.genes + rest.genes ==> PlacedFor(p, c, subjects, g) && CellOf(g) !in used
    ensures CellsDistinct(first.genes + rest.genes)
    ensures rest.used == used + Cells(first.genes + rest.genes)
  {
    var all := first.genes + rest.genes;
    forall g | g in all ensures PlacedFor(p, c, subjects, g) && CellOf(g) !in used {
      if g in first.genes {
        var s :| s in subjects[..1] && TeacherFor(p.teachers, s.id).Some? && Placed(p, c, TeacherFor(p.teachers, s.id).value, s, g);
        assert s in subjects;
      } else {
        assert g in rest.genes;
        var s :| s in subjects[1..] && TeacherFor(p.teachers, s.id).Some? && Placed(p, c, TeacherFor(p.teachers, s.id).value, s, g);
        assert s in subjects;
      }
    }
    forall i, j | 0 <= i < j < |all| ensures CellOf(all[i]) != CellOf(all[j]) {
      var n := |first.genes|;
      if j < n {
        assert all[i] == first.genes[i] && all[j] == first.genes[j];
      } else if i >= n {
        assert all[i] == rest.genes[i - n] && all[j] == rest.genes[j - n];
      } else {
        assert all[i] == first.genes[i] && all[j] == rest.genes[j - n];
        assert CellOf(all[i]) in Cells(first.genes);
      }
    }
    assert Cells(all) == Cells(first.genes) + Cells(rest.genes) by {
      assert forall x :: x in all <==> x in first.genes || x in rest.genes;
    }
  }

  /** The class blocks of `classes`, in order; each class starts with no
      occupied cell. */
  function ClassBlocks(p: Problem, classes: seq<ClassGroup>, rng: Random, pos: nat): (r: (seq<Gene>, nat))
    requires |p.rooms| > 0
    ensures forall g :: g in r.0 ==> exists c :: c in classes && PlacedFor(p, c, p.subjects, g)
    ensures r.1 >= pos
  {
    if |classes| == 0 then ([], pos)
    else
      var block := ClassBlock(p, classes[0], p.subjects, {}, rng, pos);
      var rest := ClassBlocks(p, classes[1..], rng, block.pos);
      assert forall g :: g in block.genes ==> classes[0] in classes && PlacedFor(p, classes[0], p.subjects, g);
      assert forall g :: g in rest.0 ==> exists c :: c in classes && PlacedFor(p, c, p.subjects, g) by {
        forall g | g in rest.0 ensures exists c :: c in classes && PlacedFor(p, c, p.subjects, g) {
          var c :| c in classes[1..] && PlacedFor(p, c, p.subjects, g);
          assert c in classes;
        }
      }
      (block.genes + rest.0, rest.1)
  }

  /** `createRandomSchedule`: an unevaluated schedule of every class's
      block. */
  function CreateRandomSchedule(p: Problem, rng: Random, pos: nat): (r: (Schedule, nat))
    requires |p.rooms| > 0
    ensures r.0.fitness == 0.0 && r.0.conflicts == []
    ensures AllGenesOk(p, r.0.slots)
    ensures forall g :: g in r.0.slots ==> exists c :: c in p.classes && PlacedFor(p, c, p.subjects, g)
    ensures r.1 >= pos
  {
    var (slots, pos1) := ClassBlocks(p, p.classes, rng, pos);
    PlacedGenesOk(p, slots);
    (Unevaluated(slots), pos1)
  }

  lemma {:induction false} PlacedGenesOk(p: Problem, slots: seq<Gene>)
    requires forall g :: g in slots ==> exists c :: c in p.classes && PlacedFor(p, c, p.subjects, g)
    ensures AllGenesOk(p, slots)
  {
    forall g | g in slots ensures GeneOk(p, g) {
      var c :| c in p.classes && PlacedFor(p, c, p.subjects, g);
      var s :| s in p.subjects && TeacherFor(p.teachers, s.id).Some? && Placed(p, c, TeacherFor(p.teachers, s.id).value, s, g);
      assert s.id == g.mapelId;
    }
  }

  /** `initializePopulation`: `populationSize` independent random schedules. */
  function InitializePopulation(p: Problem, populationSize: int, rng: Random, pos: nat): (r: (seq<Schedule>, nat))
    requires |p.rooms| > 0
    ensures |r.0| == Max(0, populationSize)
    ensures forall i :: 0 <= i < |r.0| ==> r.0[i].fitness == 0.0 && r.0[i].conflicts == [] && AllGenesOk(p, r.0[i].slots)
    ensures r.1 >= pos
    decreases Max(0, populationSize)
  {
    if populationSize <= 0 then ([], pos)
    else
      var (first, pos1) := CreateRandomSchedule(p, rng, pos);
      var (rest, pos2) := InitializePopulation(p, populationSize - 1, rng, pos1);
      ([first] + rest, pos2)
  }

  // ----- structural guarantees of a random schedule -----

  lemma {:induction false} TailKeys<T, K(!new)>(xs: seq<T>, key: T -> K)
    requires |xs| > 0 && NoDuplicates(Keys(xs, key))
    ensures Keys(xs, key) == [key(xs[0])] + Keys(xs[1..], key)
    ensures NoDuplicates(Keys(xs[1..], key)) && key(xs[0]) !in Keys(xs[1..], key)
  {
    var ks := Keys(xs, key);
    var tk := Keys(xs[1..], key);
    assert ks == [key(xs[0])] + tk;
    forall i, j | 0 <= i < j < |tk| ensures tk[i] != tk[j] {
      assert tk[i] == ks[i + 1] && tk[j] == ks[j + 1];
    }
    forall i | 0 <= i < |tk| ensures tk[i] != key(xs[0]) {
      assert tk[i] == ks[i + 1];
    }
  }

  lemma {:induction false} KeyIn<T, K(!new)>(xs: seq<T>, key: T -> K, x: T)
    requires x in xs
    ensures key(x) in Keys(xs, key)
  {
    var i :| 0 <= i < |xs| && xs[i] == x;
    assert Keys(xs, key)[i] == key(x);
  }

  /** The sessions of a class block belong to that class and to one of the
      block's subjects. */
  lemma {:induction false} BlockFacts(p: Problem, c: ClassGroup, subjects: seq<Subject>, used: set<(string, int)>,
                                      rng: Random, pos: nat)
    requires |p.rooms| > 0
    ensures forall g :: g in ClassBlock(p, c, subjects, used, rng, pos).genes ==>
              g.kelasId == c.id && g.mapelId in Keys(subjects, SubjectIdOf)
  {
    forall g | g in ClassBlock(p, c, subjects, used, rng, pos).genes
      ensures g.kelasId == c.id && g.mapelId in Keys(subjects, SubjectIdOf)
    {
      var s :| s in subjects && TeacherFor(p.teachers, s.id).Some? && Placed(p, c, TeacherFor(p.teachers, s.id).value, s, g);
      KeyIn(subjects, SubjectIdOf, s);
    }
  }

  /** The sessions of the class blocks belong to one of the classes. */
  lemma {:induction false} BlocksFacts(p: Problem, classes: seq<ClassGroup>, rng: Random, pos: nat)
    requires |p.rooms| > 0
    ensures forall g :: g in ClassBlocks(p, classes, rng, pos).0 ==> g.kelasId in Keys(classes, ClassIdOf)
  {
    forall g | g in ClassBlocks(p, classes, rng, pos).0 ensures g.kelasId in Keys(classes, ClassIdOf) {
      var c :| c in classes && PlacedFor(p, c, p.subjects, g);
      var s :| s in p.subjects && TeacherFor(p.teachers, s.id).Some? && Placed(p, c, TeacherFor(p.teachers, s.id).value, s, g);
      KeyIn(classes, ClassIdOf, c);
    }
  }

  /** Within one class no two sessions share a (day, period) cell, provided
      class ids are distinct (the occupied-cell set is kept per class
      iteration). */
  lemma {:induction false} ClassCellsDistinct(p: Problem, rng: Random, pos: nat)
    requires |p.rooms| > 0
    requires NoDuplicates(Keys(p.classes, ClassIdOf))
    ensures var slots := CreateRandomSchedule(p, rng, pos).0.slots;
            forall i, j :: 0 <= i < j < |slots| && slots[i].kelasId == slots[j].kelasId ==>
              CellOf(slots[i]) != CellOf(slots[j])
  {
    assert CreateRandomSchedule(p, rng, pos).0.slots == ClassBlocks(p, p.classes, rng, pos).0;
    BlocksCellsDistinct(p, p.classes, rng, pos);
  }

  predicate ClassCellsUnique(slots: seq<Gene>) {
    forall i, j :: 0 <= i < j < |slots| && slots[i].kelasId == slots[j].kelasId ==> CellOf(slots[i]) != CellOf(slots[j])
  }

  lemma {:induction false} BlocksCellsDistinct(p: Problem, classes: seq<ClassGroup>, rng: Random, pos: nat)
    requires |p.rooms| > 0
    requires NoDuplicates(Keys(classes, ClassIdOf))
    ensures ClassCellsUnique(ClassBlocks(p, classes, rng, pos).0)
  {
    if |classes| > 0 {
      var c := classes[0];
      var block := ClassBlock(p, c, p.subjects, {}, rng, pos);
      var tail := classes[1..];
      var rest := ClassBlocks(p, tail, rng, block.pos);
      assert ClassBlocks(p, classes, rng, pos).0 == block.genes + rest.0;
      TailKeys(classes, ClassIdOf);
      BlocksCellsDistinct(p, tail, rng, block.pos);
      BlockFacts(p, c, p.subjects, {}, rng, pos);
      BlocksFacts(p, tail, rng, block.pos);
      JoinCellsUnique(c.id, Keys(tail, ClassIdOf), block.genes, rest.0);
    }
  }

  lemma {:induction false} JoinCellsUnique(id: int, others: seq<int>, a: seq<Gene>, b: seq<Gene>)
    requires id !in others
    requires forall g :: g in a ==> g.kelasId == id
    requires forall g :: g in b ==> g.kelasId in others
    requires CellsDistinct(a) && ClassCellsUnique(b)
    ensures ClassCellsUnique(a + b)
  {
    var slots := a + b;
    var n := |a|;
    forall i, j | 0 <= i < j < |slots| && slots[i].kelasId == slots[j].kelasId
      ensures CellOf(slots[i]) != CellOf(slots[j])
    {
      if j < n {
        assert slots[i] == a[i] && slots[j] == a[j];
      } else if i >= n {
        assert slots[i] == b[i - n] && slots[j] == b[j - n];
      }
    }
  }

  /** Each (class, subject) pair gets at most the subject's weekly hours,
      provided class ids and subject ids are distinct. */
  lemma {:induction false} SessionsPerSubjectBounded(p: Problem, rng: Random, pos: nat)
    requires |p.rooms| > 0
    requires NoDuplicates(Keys(p.classes, ClassIdOf)) && NoDuplicates(Keys(p.subjects, SubjectIdOf))
    ensures var slots := CreateRandomSchedule(p, rng, pos).0.slots;
            forall c, s :: c in p.classes && s in p.subjects ==>
              Count(Keys(slots, ClassSubjectOf), (c.id, s.id)) <= HoursNeeded(s)
  {
    assert CreateRandomSchedule(p, rng, pos).0.slots == ClassBlocks(p, p.classes, rng, pos).0;
    BlocksCount(p, p.classes, rng, pos);
  }

  predicate WithinHours(slots: seq<Gene>, classes: seq<ClassGroup>, subjects: seq<Subject>) {
    forall c, s :: c in classes && s in subjects ==> Count(Keys(slots, ClassSubjectOf), (c.id, s.id)) <= HoursNeeded(s)
  }

  lemma {:induction false} BlocksCount(p: Problem, classes: seq<ClassGroup>, rng: Random, pos: nat)
    requires |p.rooms| > 0
    requires NoDuplicates(Keys(classes, ClassIdOf)) && NoDuplicates(Keys(p.subjects, SubjectIdOf))
    ensures WithinHours(ClassBlocks(p, classes, rng, pos).0, classes, p.subjects)
  {
    if |classes| > 0 {
      var c0 := classes[0];
      var block := ClassBlock(p, c0, p.subjects, {}, rng, pos);
      var tail := classes[1..];
      var rest := ClassBlocks(p, tail, rng, block.pos);
      assert ClassBlocks(p, classes, rng, pos).0 == block.genes + rest.0;
      TailKeys(classes, ClassIdOf);
      BlocksCount(p, tail, rng, block.pos);
      BlockCount(p, c0, p.subjects, {}, rng, pos);
      BlockFacts(p, c0, p.subjects, {}, rng, pos);
      BlocksFacts(p, tail, rng, block.pos);
      JoinWithinHours(c0, tail, classes, p.subjects, block.genes, rest.0);
    }
  }

  lemma {:induction false} JoinWithinHours(c0: ClassGroup, tail: seq<ClassGroup>, classes: seq<ClassGroup>,
                                           subjects: seq<Subject>, a: seq<Gene>, b: seq<Gene>)
    requires classes == [c0] + tail
    requires c0.id !in Keys(tail, ClassIdOf)
    requires forall g :: g in a ==> g.kelasId == c0.id
    requires forall g :: g in b ==> g.kelasId in Keys(tail, ClassIdOf)
    requires forall s :: s in subjects ==> Count(Keys(a, ClassSubjectOf), (c0.id, s.id)) <= HoursNeeded(s)
    requires WithinHours(b, tail, subjects)
    ensures WithinHours(a + b, classes, subjects)
  {
    KeysConcat(a, b, ClassSubjectOf);
    forall c, s | c in classes && s in subjects
      ensures Count(Keys(a + b, ClassSubjectOf), (c.id, s.id)) <= HoursNeeded(s)
    {
      CountConcat(Keys(a, ClassSubjectOf), Keys(b, ClassSubjectOf), (c.id, s.id));
      if c.id == c0.id {
        CountAbsent(b, ClassSubjectOf, (c.id, s.id));
      } else {
        CountAbsent(a, ClassSubjectOf, (c.id, s.id));
        assert c in tail;
      }
    }
  }

  /** Within one class block, each subject gets at most its weekly hours. */
  lemma {:induction false} BlockCount(p: Problem, c: ClassGroup, subjects: seq<Subject>, used: set<(string, int)>,
                                      rng: Random, pos: nat)
    requires |p.rooms| > 0
    requires NoDuplicates(Keys(subjects, SubjectIdOf))
    ensures var genes := ClassBlock(p, c, subjects, used, rng, pos).genes;
            forall s :: s in subjects ==> Count(Keys(genes, ClassSubjectOf), (c.id, s.id)) <= HoursNeeded(s)
  {
    if |subjects| > 0 {
      var s0 := subjects[0];
      var first := match TeacherFor(p.teachers, s0.id)
        case None => Placement([], used, pos)
        case Some(t) => Sessions(p, c, t, s0, used, rng, pos, HoursNeeded(s0));
      var tail := subjects[1..];
      var rest := ClassBlock(p, c, tail, first.used, rng, first.pos);
      assert ClassBlock(p, c, subjects, used, rng, pos).genes == first.genes + rest.genes;
      TailKeys(subjects, SubjectIdOf);
      BlockCount(p, c, tail, first.used, rng, first.pos);
      BlockFacts(p, c, tail, first.used, rng, first.pos);
      assert forall g :: g in first.genes ==> g.mapelId == s0.id;
      assert |first.genes| <= HoursNeeded(s0);
      JoinBlockCount(c, s0, tail, subjects, first.genes, rest.genes);
    }
  }

  lemma {:induction false} JoinBlockCount(c: ClassGroup, s0: Subject, tail: seq<Subject>, subjects: seq<Subject>,
                                          a: seq<Gene>, b: seq<Gene>)
    requires subjects == [s0] + tail
    requires s0.id !in Keys(tail, SubjectIdOf)
    requires forall g :: g in a ==> g.mapelId == s0.id
    requires |a| <= HoursNeeded(s0)
    requires forall g :: g in b ==> g.mapelId in Keys(tail, SubjectIdOf)
    requires forall s :: s in tail ==> Count(Keys(b, ClassSubjectOf), (c.id, s.id)) <= HoursNeeded(s)
    ensures forall s :: s in subjects ==> Count(Keys(a + b, ClassSubjectOf), (c.id, s.id)) <= HoursNeeded(s)
  {
    KeysConcat(a, b, ClassSubjectOf);
    forall s | s in subjects ensures Count(Keys(a + b, ClassSubjectOf), (c.id, s.id)) <= HoursNeeded(s) {
      CountConcat(Keys(a, ClassSubjectOf), Keys(b, ClassSubjectOf), (c.id, s.id));
      if s.id == s0.id {
        CountAbsent(b, ClassSubjectOf, (c.id, s.id));
      } else {
        CountAbsent(a, ClassSubjectOf, (c.id, s.id));
        assert s in tail;
      }
    }
  }

  /** Every session of a random schedule is taught by the first teacher of
      its subject, on a day that teacher has not excluded, and a subject
      with a matching special room always gets that room. */
  lemma {:induction false} AssignmentRules(p: Problem, rng: Random, pos: nat)
    requires |p.rooms| > 0
    ensures var slots := CreateRandomSchedule(p, rng, pos).0.slots;
            forall g :: g in slots ==>
              && TeacherFor(p.teachers, g.mapelId).Some?
              && g.guruId == TeacherFor(p.teachers, g.mapelId).value.id
              && !Unavailable(TeacherFor(p.teachers, g.mapelId).value, g.hari)
              && exists s :: s in p.subjects && s.id == g.mapelId
                   && (SpecialRoom(s, p.rooms).Some? ==> g.ruangId == SpecialRoom(s, p.rooms).value.id)
  {
    var slots := CreateRandomSchedule(p, rng, pos).0.slots;
    forall g | g in slots
      ensures && TeacherFor(p.teachers, g.mapelId).Some?
              && g.guruId == TeacherFor(p.teachers, g.mapelId).value.id
              && !Unavailable(TeacherFor(p.teachers, g.mapelId).value, g.hari)
              && exists s :: s in p.subjects && s.id == g.mapelId
                   && (SpecialRoom(s, p.rooms).Some? ==> g.ruangId == SpecialRoom(s, p.rooms).value.id)
    {
      var c :| c in p.classes && PlacedFor(p, c, p.subjects, g);
      var s :| s in p.subjects && TeacherFor(p.teachers, s.id).Some? && Placed(p, c, TeacherFor(p.teachers, s.id).value, s, g);
      assert s.id == g.mapelId;
    }
  }

  /** A subject without a teacher gets no session at all. */
  lemma {:induction false} NoTeacherNoSessions(p: Problem, rng: Random, pos: nat, s: Subject)
    requires |p.rooms| > 0
    requires TeacherFor(p.teachers, s.id).None?
    ensures forall g :: g in CreateRandomSchedule(p, rng, pos).0.slots ==> g.mapelId != s.id
  {
    var slots := CreateRandomSchedule(p, rng, pos).0.slots;
    forall g | g in slots ensures g.mapelId != s.id {
      assert GeneOk(p, g);
    }
  }
}
