# Timetable engine and entity forms — a Dafny model

This project models the scheduling core of a school timetable generator. The
engine is a genetic algorithm over timetables. A timetable (`Schedule`) is a
sequence of genes `(kelas_id, guru_id, mapel_id, ruang_id, hari, jam_ke)`:
class, teacher, subject, room, day and period. The model covers:

- the engine (`GeneticAlgorithm`):
  - random initial timetables (`createRandomSchedule`, `initializePopulation`);
  - the variation operators (`tournamentSelection`, `crossover`, `mutate`);
  - the score (`calculateFitness`);
  - the conflict report (`detectConflicts`) and the final check (`validate`);
  - the main loop (`evolve`);
- the double-booking listing of the schedule service (`checkConflicts`), over
  the rows a query returned;
- the four entity forms (class, teacher, room, subject): their `validate` and
  the payload their `handleSubmit` hands to `onSave`.

Every `Math.random()` draw is a value of `Unit`, a real in [0, 1). The draws
come from a stream `Random = nat -> Unit` read at a cursor that each operation
threads through, in the source's call order. Each index is
`Floor(u * n)`, as in the source. Every property is therefore proved for
every possible sequence of draws.

Modules:

- `Common`: `Option`, the random stream, `Find`.
- `JsString`: the JavaScript string operations the code relies on:
  - `trim`, `toLowerCase`, `includes`;
  - `parseInt` and `toString`;
  - the `${a}-${b}-${c}` keys.
- `Grouping`: counting and grouping keys. This is what the code's `Map`
  passes compute.
- `Entities`: the rows, the gene and the schedule.
- `Fitness`: the score.
- `Conflicts`: the conflict report and `validate`.
- `Operators`: selection, crossover and mutation.
- `Initializer`: the initial population.
- `Evolution`: the main loop.
- `ScheduleService`: `checkConflicts`.
- `Forms`: what the four forms share.
- `ClassModal`, `TeacherModal`, `RoomModal`, `SubjectModal`: one module per
  form.

Two behaviours of the code are worth knowing before reading the model:

- The conflict report covers teacher and room groups, never class groups.
  `Conflicts.ClassClashUnreported` exhibits a class clash that produces an
  empty report while costing 20 points.
- A crossover child's length follows the second parent. The code builds
  `p1[..cut] + p2[cut..]`, whose length is `cut + max(0, |p2| - cut)`.
  `Operators.CrossoverTakesParent2Length` shows a one-gene first parent
  producing a copy of the whole second parent.

## Model

| member | source | states |
|---|---|---|
| Fitness.CalculateFitness | src/lib/geneticAlgorithm.ts:263-331 | the score always lies in [0, 100] |
| Fitness.FitnessFormula | src/lib/geneticAlgorithm.ts:263-330 | the score is 100, clamped to [0, 100], minus five penalties: 15 per extra slot sharing a (teacher, day, period) triple; 15 per extra slot sharing a (room, day, period) triple; 20 per extra slot sharing a (class, day, period) triple; the overload penalty; and the day-balance penalty. An extra slot is measured as slots minus distinct triples |
| Fitness.ClashPenaltyIsExcess | src/lib/geneticAlgorithm.ts:267-277 | Σ weight·(k−1) over groups of size k > 1 equals weight·(n − number of distinct keys), and is never negative |
| Fitness.PenaltiesNonNegative | src/lib/geneticAlgorithm.ts:264-328 | each of the five penalties, and their sum, is non-negative |
| Fitness.RawScoreAtMost100 | src/lib/geneticAlgorithm.ts:264-330 | before clamping the score never exceeds 100, so the clamp only cuts below 0 |
| Fitness.PerfectScoreIff | src/lib/geneticAlgorithm.ts:263-330 | the score is exactly 100 iff four things hold: no teacher, room or class triple repeats; no listed teacher exceeds `jam_maks`; and every day that occurs holds exactly n/5 slots |
| Fitness.PerfectScorePenalties | src/lib/geneticAlgorithm.ts:263-330 | the score is 100 iff all five penalties are zero |
| Fitness.ClashFreeIff | src/lib/geneticAlgorithm.ts:273-277 | with a positive weight, a clash penalty is zero iff no key repeats |
| Fitness.TeacherClashCosts | src/lib/geneticAlgorithm.ts:266-277 | two slots with one teacher at one day and period cap the score at 85 |
| Fitness.RoomClashCosts | src/lib/geneticAlgorithm.ts:279-290 | two slots in one room at one day and period cap the score at 85 |
| Fitness.ClassClashCosts | src/lib/geneticAlgorithm.ts:292-303 | two slots of one class at one day and period cap the score at 80 |
| Fitness.OverloadWithinLimits | src/lib/geneticAlgorithm.ts:305-316 | when every listed teacher has at most `jam_maks` slots, the overload penalty is zero |
| Fitness.OverloadCharged | src/lib/geneticAlgorithm.ts:311-316 | a listed teacher with h slots adds at least 5·max(0, h − jam_maks) to the penalty |
| Fitness.OverloadZeroIff | src/lib/geneticAlgorithm.ts:305-316 | the overload penalty is zero iff every scheduled teacher who is listed (first row with that id) has at most `jam_maks` slots; unlisted teachers and teachers never scheduled are not charged |
| Fitness.DayBalanceZeroIff | src/lib/geneticAlgorithm.ts:318-328 | the day-balance penalty is zero iff every day that occurs has exactly n/5 slots; days that do not occur are never charged |
| Fitness.DeviationZeroIff | src/lib/geneticAlgorithm.ts:324-328 | the summed deviation over the occurring days is zero iff each of those days has exactly the average count |
| Fitness.EmptyScheduleScores100 | src/lib/geneticAlgorithm.ts:263-330 | an empty schedule scores 100 |
| Fitness.SingleSlotScore | src/lib/geneticAlgorithm.ts:318-330 | a single slot whose teacher is unlisted or may teach at least one hour scores 99.84, not 100. Its day deviates by 0.8 from the average 0.2 |
| Conflicts.TeacherReportExact | src/lib/geneticAlgorithm.ts:340-352 | every reported teacher triple is held by at least two slots; no triple is reported twice; every shared triple is reported |
| Conflicts.RoomReportExact | src/lib/geneticAlgorithm.ts:355-367 | the same three facts for room triples, whose descriptions follow the teacher ones |
| Conflicts.ConflictFreeIff | src/lib/geneticAlgorithm.ts:336-370 | the report is empty iff no teacher triple and no room triple repeats |
| Conflicts.ClassClashUnreported | src/lib/geneticAlgorithm.ts:336-370 | a class double-booking with different teachers and rooms is not reported, yet costs at least 20 points of fitness |
| Conflicts.HoursErrors | src/lib/geneticAlgorithm.ts:379-392 | the message list is empty iff every subject has `jumlah_jam_per_minggu · |classes|` slots. Every message is the message of such an off-hours subject, and every off-hours subject has its message in the list |
| Conflicts.HoursErrorsCount | src/lib/geneticAlgorithm.ts:384-392 | there are exactly as many hour messages as subjects off their hours: one per subject |
| Conflicts.ErrorsLayout | src/lib/geneticAlgorithm.ts:394-396 | the errors are the hour messages followed by the conflict report |
| Conflicts.ValidIff | src/lib/geneticAlgorithm.ts:375-401 | a schedule is valid iff two things hold: every subject has exactly its weekly hours times the number of classes; and no teacher or room triple repeats. Class clashes do not matter |
| Conflicts.UnscheduledSubjectReported | src/lib/geneticAlgorithm.ts:384-391 | a subject that needs hours but has no slot, for example one without a teacher, is reported with 0 hours and makes the schedule invalid |
| Conflicts.HoursMessageReported | src/lib/geneticAlgorithm.ts:384-392 | every subject off its hours has its message among the errors |
| Operators.SortByFitness | src/lib/geneticAlgorithm.ts:77 | the sort returns a permutation of its input in non-increasing fitness order |
| Operators.InsertSorted | src/lib/geneticAlgorithm.ts:77 | inserting into a sorted list keeps it sorted |
| Operators.FirstBest | src/lib/geneticAlgorithm.ts:212-213 | the first fittest member is a member whose fitness is at least every member's |
| Operators.SortHeadIsFirstBest | src/lib/geneticAlgorithm.ts:77 | the stable sort's head is the earliest member of highest fitness |
| Operators.FirstBestIsFirst | src/lib/geneticAlgorithm.ts:212-213 | every member before the chosen one is strictly less fit |
| Operators.TournamentWinner | src/lib/geneticAlgorithm.ts:204-214 | the winner is a population member. Its fitness is at least every drawn member's, and it is the first drawn member of that fitness |
| Operators.CutPoint | src/lib/geneticAlgorithm.ts:220 | the cut lies in [0, |p1|), or is 0 for an empty first parent |
| Operators.Crossover | src/lib/geneticAlgorithm.ts:219-228 | the child is p1's first `cut` genes followed by p2's genes from `cut` on. Its length is `cut + max(0, |p2| − cut)`. It is unevaluated: fitness 0, no conflicts |
| Operators.CrossoverGenes | src/lib/geneticAlgorithm.ts:222-225 | every child gene comes from one of the parents |
| Operators.CrossoverLength | src/lib/geneticAlgorithm.ts:222-225 | when the cut is at most |p2|, the child has p2's length |
| Operators.CrossoverTakesParent2Length | src/lib/geneticAlgorithm.ts:220-225 | a one-gene first parent always yields a copy of the second parent's genes |
| Operators.MutateGene | src/lib/geneticAlgorithm.ts:234-255 | a gene is either kept or changed in exactly one of three fields: the day (to one of the five days), the period (to 1..8) or the room (to a listed room id). Class, teacher and subject never change |
| Operators.Mutate | src/lib/geneticAlgorithm.ts:233-258 | mutation keeps the length, changes every gene only as `MutateGene` allows, and resets the score and conflicts |
| Operators.MutationKeepsGenesOk | src/lib/geneticAlgorithm.ts:233-258 | mutating a schedule of well-formed genes leaves them well-formed |
| Operators.MutationIgnoresAvailability | src/lib/geneticAlgorithm.ts:239-241 | mutation can move a session to a day its teacher cannot teach |
| Initializer.TryPlace | src/lib/geneticAlgorithm.ts:155-193 | a placed session uses a day and period the class has not used yet. The day is one the teacher can teach. The room follows the subject's special-room rule |
| Initializer.Sessions | src/lib/geneticAlgorithm.ts:154-194 | one subject gets at most its weekly hours of sessions, on pairwise different cells, all new to the class |
| Initializer.ClassBlock | src/lib/geneticAlgorithm.ts:148-195 | one class's sessions come from subjects that have a teacher, and use pairwise different cells |
| Initializer.CreateRandomSchedule | src/lib/geneticAlgorithm.ts:142-199 | every gene is well-formed: the day is one of the five days, the period lies in 1..8, the room is listed, and the class and subject exist. The teacher is the subject's first teacher. The schedule is unevaluated |
| Initializer.ClassCellsDistinct | src/lib/geneticAlgorithm.ts:145-190 | with distinct class ids, no two sessions of one class share a day and period |
| Initializer.SessionsPerSubjectBounded | src/lib/geneticAlgorithm.ts:148-154 | with distinct class and subject ids, each (class, subject) pair has at most `jumlah_jam_per_minggu` sessions |
| Initializer.AssignmentRules | src/lib/geneticAlgorithm.ts:150-177 | every session's teacher is the first teacher of its subject, on a day not named in that teacher's `hari_tidak_bisa`. When a room name contains the subject's `ruang_khusus` (ignoring case), the session uses the first such room |
| Initializer.NoTeacherNoSessions | src/lib/geneticAlgorithm.ts:150-152 | a subject without a teacher gets no session |
| Initializer.InitializePopulation | src/lib/geneticAlgorithm.ts:128-137 | the population has `max(0, populationSize)` unevaluated schedules of well-formed genes |
| Evolution.EvaluateKeepsOk | src/lib/geneticAlgorithm.ts:70-74 | evaluation keeps the genes well-formed |
| Evolution.Offspring | src/lib/geneticAlgorithm.ts:99-116 | a child is a population member or a fresh unevaluated schedule |
| Evolution.OffspringOk | src/lib/geneticAlgorithm.ts:99-116 | children of well-formed parents are well-formed |
| Evolution.Breed | src/lib/geneticAlgorithm.ts:98-117 | exactly the requested number of children is bred |
| Evolution.BreedOk | src/lib/geneticAlgorithm.ts:98-117 | every bred child is well-formed |
| Evolution.NextGeneration | src/lib/geneticAlgorithm.ts:90-119 | the new population starts with the first `eliteSize` sorted schedules and has `max(eliteSize, populationSize)` members |
| Evolution.NextState | src/lib/geneticAlgorithm.ts:69-119 | one generation keeps the population size and the elite prefix. The best-so-far never loses fitness, and it is replaced only by the sorted head when the head is strictly better |
| Evolution.NextStateOk | src/lib/geneticAlgorithm.ts:69-119 | one generation keeps the genes well-formed. The best-so-far is the old one, or an evaluated schedule with positive fitness |
| Evolution.StepKeepsRunning | src/lib/geneticAlgorithm.ts:80-87 | appending the progress report of generation g+1 keeps three facts: reports are numbered 1, 2, …; their fitness never falls; and the last one is the best-so-far |
| Evolution.Generations | src/lib/geneticAlgorithm.ts:68-120 | running g more generations adds exactly g progress reports and keeps the loop invariant |
| Evolution.Evolve | src/lib/geneticAlgorithm.ts:61-123 | progress is reported exactly for generations 1..maxGenerations, in order, with non-decreasing best fitness. The last report carries the returned schedule. The result has well-formed genes. It is either the unevaluated first initial schedule or an evaluated one with positive fitness |
| Evolution.DefaultConfig | src/hooks/useGARunner.ts:67-74 | the run configuration: the elite is `max(2, ⌊populationSize / 10⌋)` (for every population size, negative ones included), mutation rate 0.3, crossover rate 0.8 |
| Evolution.DefaultEliteFits | src/hooks/useGARunner.ts:71 | that elite fits in the population iff the population has at least 2 members |
| Entities.TeacherFor | src/lib/geneticAlgorithm.ts:150 | a teacher with the subject's id, or none iff no teacher teaches it |
| Entities.TeacherForIsFirst | src/lib/geneticAlgorithm.ts:150 | the teacher returned is the first with the subject's id: every earlier row teaches another subject |
| Entities.TeacherById | src/lib/geneticAlgorithm.ts:312 | a teacher with the id, or none iff there is none |
| Entities.TeacherByIdIsFirst | src/lib/geneticAlgorithm.ts:312 | the teacher returned is the first row with the id |
| Entities.RoomById | src/lib/geneticAlgorithm.ts:364 | a room with the id, or none iff there is none |
| Entities.RoomByIdIsFirst | src/lib/geneticAlgorithm.ts:364 | the room returned is the first row with the id |
| Entities.SpecialRoom | src/lib/geneticAlgorithm.ts:172-177 | a special room is a listed room whose name contains the label, ignoring case. One is found whenever the label is non-empty and such a room exists |
| Entities.SpecialRoomIsFirst | src/lib/geneticAlgorithm.ts:172-177 | the special room is the first room whose lower-cased name contains the lower-cased label |
| Entities.DrawDay | src/lib/geneticAlgorithm.ts:159 | a drawn day is one of the five days |
| Entities.DrawHour | src/lib/geneticAlgorithm.ts:160 | a drawn period lies in 1..8 |
| Entities.DrawRoom | src/lib/geneticAlgorithm.ts:171 | a drawn room is a listed room |
| Grouping.ClashesExact | src/lib/geneticAlgorithm.ts:340-352 | the crowded keys are exactly those held more than once, each listed once |
| Grouping.NoClashesIff | src/lib/geneticAlgorithm.ts:347-352 | no key is crowded iff no key repeats |
| Grouping.MembersCount | src/services/scheduleService.ts:142-147 | the rows filed under a key are as many as the key's occurrences |
| Grouping.ExcessIsLengthMinusDistinct | src/lib/geneticAlgorithm.ts:273-277 | Σ(k−1) over crowded keys equals the number of keys minus the number of distinct keys |
| JsString.TrimProperties | src/components/modals/ClassModal.tsx:64 | `trim()` is empty iff the text is whitespace only. Otherwise it neither starts nor ends with whitespace |
| JsString.TrimIdempotent | src/components/modals/ClassModal.tsx:84 | trimming twice is trimming once |
| JsString.IncludesIff | src/lib/geneticAlgorithm.ts:165 | `includes` holds iff the needle occurs at some offset |
| JsString.ToLower | src/lib/geneticAlgorithm.ts:174 | lower-casing keeps the length and maps each character |
| JsString.ParseIntRoundTrip | src/components/modals/TeacherModal.tsx:47-48 | `parseInt` reads back every integer `toString` renders |
| JsString.KeyStringInjective | src/services/scheduleService.ts:144 | with non-negative periods and days without '-', equal keys mean equal triples, whatever the sign of the id |
| JsString.KeyStringCollision | src/services/scheduleService.ts:144 | with a negative period, two different triples share a key |
| Entities.GeneKeysAgree | src/lib/geneticAlgorithm.ts:269-295 | for genes on one of the five days with a non-negative period, two teacher, room or class key strings are equal iff the triples are |
| ScheduleService.CheckConflicts | src/services/scheduleService.ts:138-165 | each list has an entry only for keys held by at least two rows. Each such key appears once, with all its rows in row order, and every shared key is listed. A missing query result gives two empty lists |
| ScheduleService.ConflictsByExact | src/services/scheduleService.ts:142-151 | one grouping pass lists exactly the crowded keys with their rows |
| ScheduleService.SharedTeacherSlotReported | src/services/scheduleService.ts:142-151 | two rows with one teacher at one day and period are in one teacher entry |
| ScheduleService.SharedRoomSlotReported | src/services/scheduleService.ts:154-163 | two rows in one room at one day and period are in one room entry |
| ScheduleService.TeacherEntryUnique | src/services/scheduleService.ts:142-151 | a row is in at most one entry of the teacher list |
| ScheduleService.RoomEntryUnique | src/services/scheduleService.ts:154-163 | a row is in at most one entry of the room list |
| ScheduleService.TeacherEntryShared | src/services/scheduleService.ts:142-151 | with readable keys (non-negative periods, day names without '-'), the rows of one teacher entry share teacher, day and period |
| ScheduleService.RoomEntryShared | src/services/scheduleService.ts:154-163 | with readable keys, the rows of one room entry share room, day and period |
| ScheduleService.NoTeacherConflictsIff | src/services/scheduleService.ts:142-151 | with readable keys, the teacher list is empty iff no two rows share a (teacher, day, period) triple |
| ScheduleService.NoRoomConflictsIff | src/services/scheduleService.ts:154-163 | with readable keys, the room list is empty iff no two rows share a (room, day, period) triple |
| JsString.ParseIntNaNIff | src/components/modals/ClassModal.tsx:68 | `parseInt` is NaN iff no digit follows the leading whitespace, one optional sign and the optional `0x` prefix; a negative result needs a leading '-' |
| Forms.OrUndefined | src/components/modals/ClassModal.tsx:86 | `value || undefined` never saves the empty text, and prefilling the saved value with `value || ''` gives the typed text back |
| Forms.OptionalTextRoundTrip | src/components/modals/ClassModal.tsx:49-86 | a stored optional text survives prefill and save, except that an empty text comes back undefined |
| Forms.NoErrorsIff | src/components/modals/ClassModal.tsx:73 | an error map has no keys iff none of the form's fields has a message |
| Forms.BlankIff | src/components/modals/ClassModal.tsx:64 | a name is blank iff it is whitespace only |
| Forms.SavedName | src/components/modals/ClassModal.tsx:84 | the trimmed text of a non-blank name is non-blank and already trimmed |
| Forms.RenderedRange | src/components/modals/TeacherModal.tsx:48-75 | a number rendered by `toString()` and read back is itself, and is out of range iff the number is |
| Forms.NonNumericPasses | src/components/modals/ClassModal.tsx:68 | ".5", which a number input accepts, reads as NaN and passes every range check |
| ClassModal.FormFor | src/components/modals/ClassModal.tsx:44-59 | the prefilled grade is empty iff the class has none, and otherwise reads back as the grade |
| ClassModal.Validate | src/components/modals/ClassModal.tsx:61-74 | a `nama_kelas` message iff the name is blank. A `tingkat` message iff the grade is non-empty and reads as a number outside 1..12. No other keys |
| ClassModal.PayloadOf | src/components/modals/ClassModal.tsx:83-87 | the saved name is already trimmed, and empty only when the typed name is blank. The grade is undefined iff the field is empty. The major is never saved as "" and prefills back as typed |
| ClassModal.SubmitIff | src/components/modals/ClassModal.tsx:61-91 | a form is saved iff its name is not blank and its grade is empty, NaN or in 1..12 |
| ClassModal.SavedPayloadOk | src/components/modals/ClassModal.tsx:64-87 | a saved class has a non-blank, trimmed name. Its grade is undefined, NaN or in 1..12. It never has an empty major |
| ClassModal.EditRoundTrip | src/components/modals/ClassModal.tsx:44-91 | reopening an acceptable stored class and saving it gives back its name, grade and major |
| ClassModal.BlankFormRefused | src/components/modals/ClassModal.tsx:61-79 | a blank name without a grade gets the name message alone, and nothing is saved |
| ClassModal.NonNumericGradeSaved | src/components/modals/ClassModal.tsx:68-85 | a grade ".5" is accepted and saved as NaN |
| TeacherModal.FormFor | src/components/modals/TeacherModal.tsx:43-60 | the prefilled subject and hour limit are non-empty and read back as the stored numbers |
| TeacherModal.Validate | src/components/modals/TeacherModal.tsx:62-81 | a `nama` message iff the name is blank. A `mapel_id` message iff no subject is chosen. A `jam_maks` message iff the limit is empty (the required message) or reads as a number outside 1..40 (the range message). No other keys |
| TeacherModal.PayloadOf | src/components/modals/TeacherModal.tsx:90-95 | the saved name is already trimmed, and empty only when the typed name is blank. The day list is never saved as "" and prefills back as typed |
| TeacherModal.SubmitIff | src/components/modals/TeacherModal.tsx:62-99 | a form is saved iff the name is not blank, a subject is chosen, and the limit is filled in and is NaN or in 1..40 |
| TeacherModal.SavedPayloadOk | src/components/modals/TeacherModal.tsx:65-95 | a saved teacher has a non-blank, trimmed name. Its limit is NaN or in 1..40. It never has an empty day list |
| TeacherModal.EditRoundTrip | src/components/modals/TeacherModal.tsx:43-99 | reopening an acceptable stored teacher and saving it gives back the same row, except that an empty day text comes back undefined |
| TeacherModal.BlankFormRefused | src/components/modals/TeacherModal.tsx:62-86 | an untouched form gets all three messages, the required one for the limit |
| TeacherModal.NonNumericHoursSaved | src/components/modals/TeacherModal.tsx:75-93 | a limit ".5" is accepted and saved as NaN |
| RoomModal.FormFor | src/components/modals/RoomModal.tsx:45-60 | the prefilled capacity is non-empty and reads back as the stored number |
| RoomModal.Validate | src/components/modals/RoomModal.tsx:62-81 | a `nama_ruang` message iff the name is blank. A `kapasitas` message iff the capacity is empty (the required message) or reads as a number outside 1..200 (the range message). A `tipe_ruang` message iff no type is chosen |
| RoomModal.PayloadOf | src/components/modals/RoomModal.tsx:90-94 | the saved name is already trimmed, and empty only when the typed name is blank. The type is passed through unchanged |
| RoomModal.SubmitIff | src/components/modals/RoomModal.tsx:62-98 | a form is saved iff the name is not blank, the capacity is filled in and is NaN or in 1..200, and a type is chosen |
| RoomModal.SavedPayloadOk | src/components/modals/RoomModal.tsx:65-94 | a saved room has a non-blank, trimmed name, a capacity that is NaN or in 1..200, and a type |
| RoomModal.EditRoundTrip | src/components/modals/RoomModal.tsx:45-98 | reopening an acceptable stored room and saving it gives back the same row |
| RoomModal.BlankFormRefused | src/components/modals/RoomModal.tsx:62-86 | an untouched form gets all three messages, the required one for the capacity |
| RoomModal.NonNumericCapacitySaved | src/components/modals/RoomModal.tsx:71-92 | a capacity ".5" is accepted and saved as NaN |
| SubjectModal.FormFor | src/components/modals/SubjectModal.tsx:31-46 | the prefilled hour count is non-empty and reads back as the stored number |
| SubjectModal.Validate | src/components/modals/SubjectModal.tsx:48-63 | a `nama_mapel` message iff the name is blank. A `jumlah_jam_per_minggu` message iff the count is empty (the required message) or reads as a number outside 1..10 (the range message). `ruang_khusus` is never checked |
| SubjectModal.PayloadOf | src/components/modals/SubjectModal.tsx:72-76 | the saved name is already trimmed, and empty only when the typed name is blank. The room label is never saved as "" and prefills back as typed |
| SubjectModal.SubmitIff | src/components/modals/SubjectModal.tsx:48-80 | a form is saved iff the name is not blank and the count is filled in and is NaN or in 1..10, whatever the room label |
| SubjectModal.SavedPayloadOk | src/components/modals/SubjectModal.tsx:51-76 | a saved subject has a non-blank, trimmed name. Its hours are NaN or in 1..10. It never has an empty room label |
| SubjectModal.EditRoundTrip | src/components/modals/SubjectModal.tsx:31-80 | reopening an acceptable stored subject and saving it gives back the same row, except that an empty room label comes back undefined |
| SubjectModal.BlankFormRefused | src/components/modals/SubjectModal.tsx:48-68 | an untouched form gets both messages, the required one for the hours |
| SubjectModal.NonNumericHoursSaved | src/components/modals/SubjectModal.tsx:57-74 | an hour count ".5" is accepted and saved as NaN |

## Left out

- Probabilities: the crossover rate, the mutation rate, the 10% chance per
  gene and the 0.33/0.66 thresholds appear only as comparisons of drawn
  values. Distributions and convergence are not modelled.
- IEEE doubles: the score is computed in exact `real` arithmetic. The
  0.2 weight and the n/5 average are therefore exact, as is 99.84.
- Fitness.CalculateFitness and Conflicts.DetectConflicts: group genes by
  tuple keys rather than by the `${a}-${b}-${c}` strings. The two agree for
  every gene whose day is one of the five days and whose period is
  non-negative, whatever the sign of its ids (`Entities.GeneKeysAgree`).
  Generated and mutated genes have such days and periods in 1..8.
  `JsString.KeyStringCollision` shows where the strings would differ.
- JsString.ToLower: lower-cases ASCII letters only. Unicode case mapping is
  not modelled.
- JsString.IntToString: renders integers only. Fractional numbers never
  reach `toString` in the modelled code.
- Operators.Mutate: requires a non-empty room list, as do
  `Initializer.CreateRandomSchedule` and `Evolution.Evolve`. With no rooms
  the source reads `undefined.id` and throws. Its caller refuses to start
  without rooms (src/hooks/useGARunner.ts:47-49).
- Evolution.Evolve: requires a population size of at least 1 and an elite
  size within 0..populationSize. With an empty population the source reads
  `population[0].fitness` of undefined and throws. With an elite larger
  than the population (the default configuration gives an elite of 2 to a
  population of 1) the elite loop copies `{...undefined}`, an empty object,
  into the new population (src/lib/geneticAlgorithm.ts:93-95), and the next
  generation's `calculateFitness` throws on its missing `slots`.
- Evolution.Evolve: is a recursive function over the remaining generations
  rather than a loop. The `onProgress` callback becomes the returned list of
  (generation, best-so-far) reports.
- ScheduleService.CheckConflicts: does not say in which order the entries
  appear (a `Map` keeps first-insertion order). It states that every entry
  is there exactly once.
- The rest of `useGARunner` is left out: the asynchronous run, React state,
  database writes and failure marking.
- Persistence is left out. The Supabase queries around `checkConflicts` and
  the other services are not modelled; the fetched rows are an input.
- The modals' rendering is left out: loading flags, `setErrors`, closing,
  and the option lists. Only `validate` and the payload are modelled.
- The forms' error text is taken exactly from the code. Field values are
  plain strings; a select's value is the chosen option's `value` attribute:
  "" for the placeholder, the subject's id for the teacher's subject, and the
  label itself for the other options.
