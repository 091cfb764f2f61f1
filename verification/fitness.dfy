/** The fitness function of the engine: 100 minus five penalties, clamped to
    [0, 100]. Scores are exact reals here; the source computes in IEEE doubles. */
module Fitness {
  import opened Common
  import opened Grouping
  import opened Entities

  const TeacherClashWeight: nat := 15
  const RoomClashWeight: nat := 15
  const ClassClashWeight: nat := 20
  const OverloadWeight: nat := 5
  /** The weight of one unit of day imbalance. */
  const DayBalanceWeight: real := 0.2

  function TeacherKeys(slots: seq<Gene>): seq<(int, string, int)> { Keys(slots, TeacherSlot) }
  function RoomKeys(slots: seq<Gene>): seq<(int, string, int)> { Keys(slots, RoomSlot) }
  function ClassKeys(slots: seq<Gene>): seq<(int, string, int)> { Keys(slots, ClassSlot) }

  /** Σ weight·(k − 1) over the groups of `keys` with k > 1 members. */
  function ClashPenalty<K(==,!new)>(keys: seq<K>, weight: nat): int
  {
    weight * Excess(Clashes(keys), keys)
  }

  /** For each teacher id among `ids` (the ids met in the schedule, in
      first-occurrence order): when the first teacher row with that id exists
      and its count in `gurus` exceeds its weekly limit, 5 per extra hour. */
  function OverloadOver(ids: seq<int>, gurus: seq<int>, teachers: seq<Teacher>): int
  {
    if |ids| == 0 then 0
    else
      OverloadOver(ids[..|ids| - 1], gurus, teachers) + Charge(ids[|ids| - 1], gurus, teachers)
  }

  /** The charge for one teacher id: 5 per hour above the weekly limit of the
      first teacher row with that id, nothing when there is no such row. */
  function Charge(id: int, gurus: seq<int>, teachers: seq<Teacher>): (c: int)
    ensures c >= 0
    ensures TeacherById(teachers, id).Some? ==>
              c == Max(0, Count(gurus, id) - TeacherById(teachers, id).value.jamMaks) * OverloadWeight
  {
    var hours := Count(gurus, id);
    match TeacherById(teachers, id)
    case Some(t) => if hours > t.jamMaks then (hours - t.jamMaks) * OverloadWeight else 0
    case None => 0
  }

  function OverloadPenalty(teachers: seq<Teacher>, slots: seq<Gene>): int
  {
    var gurus := Keys(slots, GuruOf);
    OverloadOver(Distinct(gurus), gurus, teachers)
  }

  /** Σ 0.2·|count − n/5| over the days in `ds`. */
  function DeviationOver(ds: seq<string>, days: seq<string>): real
  {
    if |ds| == 0 then 0.0
    else
      var avg := |days| as real / |Days| as real;
      DeviationOver(ds[..|ds| - 1], days) + Abs(Count(days, ds[|ds| - 1]) as real - avg) * DayBalanceWeight
  }

  /** The day-balance penalty: only days that occur in the schedule are
      visited. */
  function DayBalancePenalty(slots: seq<Gene>): real
  {
    var days := Keys(slots, HariOf);
    DeviationOver(Distinct(days), days)
  }

  function TotalPenalty(teachers: seq<Teacher>, slots: seq<Gene>): real
  {
    (ClashPenalty(TeacherKeys(slots), TeacherClashWeight)
     + ClashPenalty(RoomKeys(slots), RoomClashWeight)
     + ClashPenalty(ClassKeys(slots), ClassClashWeight)
     + OverloadPenalty(teachers, slots)) as real
    + DayBalancePenalty(slots)
  }

  /** `Math.max(0, Math.min(100, x))`. */
  function Clamp(x: real): (c: real)
    ensures 0.0 <= c <= 100.0
    ensures 0.0 <= x <= 100.0 ==> c == x
  {
    if x > 100.0 then 100.0 else if x < 0.0 then 0.0 else x
  }

  /** `calculateFitness`: 100 minus the penalties, clamped to [0, 100]. */
  function CalculateFitness(teachers: seq<Teacher>, slots: seq<Gene>): (f: real)
    ensures 0.0 <= f <= 100.0
  {
    Clamp(100.0 - TotalPenalty(teachers, slots))
  }

  // ----- facts about the penalties -----

  lemma {:induction false} ClashPenaltyIsExcess<K(!new)>(keys: seq<K>, weight: nat)
    ensures ClashPenalty(keys, weight) == weight * (|keys| - |Distinct(keys)|)
    ensures ClashPenalty(keys, weight) >= 0
  {
    ExcessIsLengthMinusDistinct(keys);
    var extra := |keys| - |Distinct(keys)|;
    if extra > 0 {
      MulAtLeast(weight, extra);
    } else {
      assert extra == 0;
    }
  }

  lemma {:induction false} OverloadNonNegative(ids: seq<int>, gurus: seq<int>, teachers: seq<Teacher>)
    ensures OverloadOver(ids, gurus, teachers) >= 0
  {
    if |ids| > 0 {
      OverloadNonNegative(ids[..|ids| - 1], gurus, teachers);
    }
  }

  lemma {:induction false} DeviationNonNegative(ds: seq<string>, days: seq<string>)
    ensures DeviationOver(ds, days) >= 0.0
  {
    if |ds| > 0 {
      DeviationNonNegative(ds[..|ds| - 1], days);
    }
  }

  lemma {:induction false} PenaltiesNonNegative(teachers: seq<Teacher>, slots: seq<Gene>)
    ensures ClashPenalty(TeacherKeys(slots), TeacherClashWeight) >= 0
    ensures ClashPenalty(RoomKeys(slots), RoomClashWeight) >= 0
    ensures ClashPenalty(ClassKeys(slots), ClassClashWeight) >= 0
    ensures OverloadPenalty(teachers, slots) >= 0
    ensures DayBalancePenalty(slots) >= 0.0
    ensures TotalPenalty(teachers, slots) >= 0.0
  {
    ClashPenaltyIsExcess(TeacherKeys(slots), TeacherClashWeight);
    ClashPenaltyIsExcess(RoomKeys(slots), RoomClashWeight);
    ClashPenaltyIsExcess(ClassKeys(slots), ClassClashWeight);
    var gurus := Keys(slots, GuruOf);
    OverloadNonNegative(Distinct(gurus), gurus, teachers);
    var days := Keys(slots, HariOf);
    DeviationNonNegative(Distinct(days), days);
  }

  /** The distinct values of a key over a schedule, as a set. */
  function KeySet<K(!new)>(slots: seq<Gene>, key: Gene -> K): set<K>
  {
    set g | g in slots :: key(g)
  }

  lemma {:induction false} KeysSet<K(!new)>(slots: seq<Gene>, key: Gene -> K)
    ensures (set k | k in Keys(slots, key)) == KeySet(slots, key)
  {
    var ks := Keys(slots, key);
    forall k | k in KeySet(slots, key) ensures k in ks {
      var g :| g in slots && key(g) == k;
      var i :| 0 <= i < |slots| && slots[i] == g;
      assert ks[i] == k;
    }
  }

  lemma {:induction false} ClashPenaltyBySet<K(!new)>(slots: seq<Gene>, key: Gene -> K, weight: nat)
    ensures ClashPenalty(Keys(slots, key), weight) == weight * (|slots| - |KeySet(slots, key)|)
  {
    var ks := Keys(slots, key);
    ExcessIsLengthMinusKeySet(ks);
    KeysSet(slots, key);
    assert Excess(Clashes(ks), ks) == |slots| - |KeySet(slots, key)|;
  }

  /** The score in closed form: each double-booking penalty is its weight
      times the number of slots beyond the first in their (who, day, period)
      group, i.e. the number of slots minus the number of distinct triples. */
  lemma {:induction false} FitnessFormula(teachers: seq<Teacher>, slots: seq<Gene>)
    ensures CalculateFitness(teachers, slots) == Clamp(
              100.0
              - (15 * (|slots| - |KeySet(slots, TeacherSlot)|)) as real
              - (15 * (|slots| - |KeySet(slots, RoomSlot)|)) as real
              - (20 * (|slots| - |KeySet(slots, ClassSlot)|)) as real
              - OverloadPenalty(teachers, slots) as real
              - DayBalancePenalty(slots))
  {
    ClashPenaltyBySet(slots, TeacherSlot, TeacherClashWeight);
    ClashPenaltyBySet(slots, RoomSlot, RoomClashWeight);
    ClashPenaltyBySet(slots, ClassSlot, ClassClashWeight);
  }

  /** The penalties never add to the score: the upper clamp is never needed. */
  lemma {:induction false} RawScoreAtMost100(teachers: seq<Teacher>, slots: seq<Gene>)
    ensures 100.0 - TotalPenalty(teachers, slots) <= 100.0
    ensures CalculateFitness(teachers, slots) == Clamp(100.0 - TotalPenalty(teachers, slots))
  {
    PenaltiesNonNegative(teachers, slots);
  }

  /** A day-balance sum is zero exactly when every visited day has exactly the
      average count. */
  lemma {:induction false} DeviationZeroIff(ds: seq<string>, days: seq<string>)
    ensures DeviationOver(ds, days) == 0.0 <==>
            forall i :: 0 <= i < |ds| ==> Count(days, ds[i]) as real == |days| as real / 5.0
  {
    if |ds| > 0 {
      var p := ds[..|ds| - 1];
      DeviationZeroIff(p, days);
      DeviationNonNegative(p, days);
      forall i | 0 <= i < |p| ensures p[i] == ds[i] { }
    }
  }

  predicate BalancedDay(slots: seq<Gene>, day: string) {
    Count(Keys(slots, HariOf), day) as real == |slots| as real / 5.0
  }

  /** Day balance costs nothing exactly when every day that occurs has n/5
      slots (days that do not occur are never charged). */
  lemma {:induction false} DayBalanceZeroIff(slots: seq<Gene>)
    ensures DayBalancePenalty(slots) == 0.0 <==> forall g :: g in slots ==> BalancedDay(slots, g.hari)
  {
    var days := Keys(slots, HariOf);
    DeviationZeroIff(Distinct(days), days);
    if DayBalancePenalty(slots) == 0.0 {
      BalancedFromZero(slots);
    }
    if forall g :: g in slots ==> BalancedDay(slots, g.hari) {
      ZeroFromBalanced(slots);
    }
  }

  lemma {:induction false} BalancedFromZero(slots: seq<Gene>)
    requires forall i :: 0 <= i < |Distinct(Keys(slots, HariOf))| ==>
               Count(Keys(slots, HariOf), Distinct(Keys(slots, HariOf))[i]) as real == |Keys(slots, HariOf)| as real / 5.0
    ensures forall g :: g in slots ==> BalancedDay(slots, g.hari)
  {
    forall g | g in slots ensures BalancedDay(slots, g.hari) {
      DayOccurs(slots, g);
      var d := Distinct(Keys(slots, HariOf));
      var k :| 0 <= k < |d| && d[k] == g.hari;
    }
  }

  lemma {:induction false} ZeroFromBalanced(slots: seq<Gene>)
    requires forall g :: g in slots ==> BalancedDay(slots, g.hari)
    ensures forall i :: 0 <= i < |Distinct(Keys(slots, HariOf))| ==>
              Count(Keys(slots, HariOf), Distinct(Keys(slots, HariOf))[i]) as real == |Keys(slots, HariOf)| as real / 5.0
  {
    var days := Keys(slots, HariOf);
    var d := Distinct(days);
    forall i | 0 <= i < |d| ensures Count(days, d[i]) as real == |days| as real / 5.0 {
      assert d[i] in days;
      var j :| 0 <= j < |days| && days[j] == d[i];
      assert slots[j] in slots;
      assert BalancedDay(slots, slots[j].hari);
    }
  }

  lemma {:induction false} DayOccurs(slots: seq<Gene>, g: Gene)
    requires g in slots
    ensures g.hari in Distinct(Keys(slots, HariOf))
  {
    var i :| 0 <= i < |slots| && slots[i] == g;
    assert Keys(slots, HariOf)[i] == g.hari;
  }

  /** Full marks exactly when nothing is penalised: no teacher, room or class
      triple repeats, no listed teacher is over their limit, and every
      occurring day carries n/5 slots. */
  lemma {:induction false} PerfectScoreIff(teachers: seq<Teacher>, slots: seq<Gene>)
    ensures CalculateFitness(teachers, slots) == 100.0 <==>
            NoDuplicates(TeacherKeys(slots)) && NoDuplicates(RoomKeys(slots)) && NoDuplicates(ClassKeys(slots))
            && (forall g :: g in slots ==> WithinLimit(teachers, slots, g))
            && (forall g :: g in slots ==> BalancedDay(slots, g.hari))
  {
    PerfectScorePenalties(teachers, slots);
    OverloadZeroIff(teachers, slots);
    DayBalanceZeroIff(slots);
    ClashFreeIff(TeacherKeys(slots), TeacherClashWeight);
    ClashFreeIff(RoomKeys(slots), RoomClashWeight);
    ClashFreeIff(ClassKeys(slots), ClassClashWeight);
  }

  /** Full marks exactly when each of the five penalties is zero. */
  lemma {:induction false} PerfectScorePenalties(teachers: seq<Teacher>, slots: seq<Gene>)
    ensures CalculateFitness(teachers, slots) == 100.0 <==>
            ClashPenalty(TeacherKeys(slots), TeacherClashWeight) == 0 && ClashPenalty(RoomKeys(slots), RoomClashWeight) == 0
            && ClashPenalty(ClassKeys(slots), ClassClashWeight) == 0
            && OverloadPenalty(teachers, slots) == 0 && DayBalancePenalty(slots) == 0.0
  {
    PenaltiesNonNegative(teachers, slots);
    ClampFull(100.0 - TotalPenalty(teachers, slots));
    SumZeroIff(ClashPenalty(TeacherKeys(slots), TeacherClashWeight), ClashPenalty(RoomKeys(slots), RoomClashWeight),
               ClashPenalty(ClassKeys(slots), ClassClashWeight), OverloadPenalty(teachers, slots),
               DayBalancePenalty(slots));
  }

  lemma ClampFull(x: real)
    ensures Clamp(x) == 100.0 <==> x >= 100.0
  {
  }

  lemma SumZeroIff(a: int, b: int, c: int, d: int, e: real)
    requires a >= 0 && b >= 0 && c >= 0 && d >= 0 && e >= 0.0
    ensures (a + b + c + d) as real + e == 0.0 <==> a == 0 && b == 0 && c == 0 && d == 0 && e == 0.0
  {
  }

  /** A positive-weight clash penalty vanishes exactly when no key repeats. */
  lemma {:induction false} ClashFreeIff<K(!new)>(keys: seq<K>, weight: nat)
    requires weight > 0
    ensures ClashPenalty(keys, weight) == 0 <==> NoDuplicates(keys)
  {
    var extra := Excess(Clashes(keys), keys);
    ExcessIsLengthMinusDistinct(keys);
    NoDuplicatesDistinct(keys);
    ProductZeroIff(weight, extra);
  }

  lemma {:induction false} ProductZeroIff(a: nat, b: nat)
    requires a > 0
    ensures a * b == 0 <==> b == 0
  {
    if b > 0 {
      MulAtLeast(a, b);
    }
  }

  /** A sequence has no repeated key exactly when it is as long as its list of
      distinct keys. */
  lemma {:induction false} NoDuplicatesDistinct<K(!new)>(ks: seq<K>)
    ensures NoDuplicates(ks) <==> |Distinct(ks)| == |ks|
  {
    ExcessIsLengthMinusDistinct(ks);
    NoClashesIff(ks);
    ClashesExact(ks);
    if |Distinct(ks)| == |ks| && Clashes(ks) != [] {
      ExcessPositive(Clashes(ks), ks);
    }
  }

  lemma {:induction false} ExcessPositive<K(!new)>(cs: seq<K>, ks: seq<K>)
    requires |cs| > 0
    requires forall i :: 0 <= i < |cs| ==> Count(ks, cs[i]) > 1
    ensures Excess(cs, ks) > 0
  {
    if |cs| > 1 {
      ExcessPositive(cs[..|cs| - 1], ks);
    }
  }

  /** A repeated key costs at least one weight. */
  lemma {:induction false} RepeatCosts<K(!new)>(ks: seq<K>, weight: nat, i: int, j: int)
    requires 0 <= i < j < |ks| && ks[i] == ks[j]
    ensures ClashPenalty(ks, weight) >= weight
  {
    NoDuplicatesDistinct(ks);
    ClashPenaltyIsExcess(ks, weight);
    MulAtLeast(weight, |ks| - |Distinct(ks)|);
  }

  lemma {:induction false} MulAtLeast(a: nat, x: int)
    requires x >= 1
    ensures a * x >= a
    decreases x
  {
    if x > 1 {
      MulAtLeast(a, x - 1);
      assert a * x == a * (x - 1) + a;
    }
  }

  /** Two slots in one (teacher, day, period) triple cost at least 15 points. */
  lemma {:induction false} TeacherClashCosts(teachers: seq<Teacher>, slots: seq<Gene>, i: int, j: int)
    requires 0 <= i < j < |slots| && TeacherSlot(slots[i]) == TeacherSlot(slots[j])
    ensures CalculateFitness(teachers, slots) <= 85.0
  {
    RepeatCosts(TeacherKeys(slots), TeacherClashWeight, i, j);
    PenaltiesNonNegative(teachers, slots);
  }

  /** Two slots in one (room, day, period) triple cost at least 15 points. */
  lemma {:induction false} RoomClashCosts(teachers: seq<Teacher>, slots: seq<Gene>, i: int, j: int)
    requires 0 <= i < j < |slots| && RoomSlot(slots[i]) == RoomSlot(slots[j])
    ensures CalculateFitness(teachers, slots) <= 85.0
  {
    RepeatCosts(RoomKeys(slots), RoomClashWeight, i, j);
    PenaltiesNonNegative(teachers, slots);
  }

  /** Two slots in one (class, day, period) triple cost at least 20 points. */
  lemma {:induction false} ClassClashCosts(teachers: seq<Teacher>, slots: seq<Gene>, i: int, j: int)
    requires 0 <= i < j < |slots| && ClassSlot(slots[i]) == ClassSlot(slots[j])
    ensures CalculateFitness(teachers, slots) <= 80.0
  {
    RepeatCosts(ClassKeys(slots), ClassClashWeight, i, j);
    PenaltiesNonNegative(teachers, slots);
  }

  lemma {:induction false} OverloadZero(ids: seq<int>, gurus: seq<int>, teachers: seq<Teacher>)
    requires forall t :: t in teachers ==> Count(gurus, t.id) <= t.jamMaks
    ensures OverloadOver(ids, gurus, teachers) == 0
  {
    if |ids| > 0 {
      OverloadZero(ids[..|ids| - 1], gurus, teachers);
    }
  }

  /** No overload charge when every teacher stays within their weekly limit. */
  lemma {:induction false} OverloadWithinLimits(teachers: seq<Teacher>, slots: seq<Gene>)
    requires forall t :: t in teachers ==> Count(Keys(slots, GuruOf), t.id) <= t.jamMaks
    ensures OverloadPenalty(teachers, slots) == 0
  {
    var gurus := Keys(slots, GuruOf);
    OverloadZero(Distinct(gurus), gurus, teachers);
  }

  /** The teacher of `g`, when listed (the first row with that id), teaches
      no more slots than their weekly limit. */
  predicate WithinLimit(teachers: seq<Teacher>, slots: seq<Gene>, g: Gene) {
    TeacherById(teachers, g.guruId).Some? ==>
      Count(Keys(slots, GuruOf), g.guruId) <= TeacherById(teachers, g.guruId).value.jamMaks
  }

  lemma {:induction false} OverloadZeroOver(ids: seq<int>, gurus: seq<int>, teachers: seq<Teacher>)
    requires forall k :: 0 <= k < |ids| ==> Charge(ids[k], gurus, teachers) == 0
    ensures OverloadOver(ids, gurus, teachers) == 0
  {
    if |ids| > 0 {
      var p := ids[..|ids| - 1];
      forall k | 0 <= k < |p| ensures Charge(p[k], gurus, teachers) == 0 {
        assert p[k] == ids[k];
      }
      OverloadZeroOver(p, gurus, teachers);
    }
  }

  lemma NoExcess(hours: int, limit: int, penalty: int)
    requires penalty == 0 && penalty >= Max(0, hours - limit) * 5
    ensures hours <= limit
  {
  }

  lemma {:induction false} OverloadZeroFromLimits(teachers: seq<Teacher>, slots: seq<Gene>)
    requires forall g :: g in slots ==> WithinLimit(teachers, slots, g)
    ensures OverloadPenalty(teachers, slots) == 0
  {
    var gurus := Keys(slots, GuruOf);
    var d := Distinct(gurus);
    forall k | 0 <= k < |d| ensures Charge(d[k], gurus, teachers) == 0 {
      assert d[k] in gurus;
      var i :| 0 <= i < |gurus| && gurus[i] == d[k];
      assert slots[i] in slots;
      assert WithinLimit(teachers, slots, slots[i]);
    }
    OverloadZeroOver(d, gurus, teachers);
  }

  /** The overload penalty is zero exactly when every teacher met in the
      schedule and listed stays within their weekly limit; unlisted teachers
      and teachers never scheduled are not charged. */
  lemma {:induction false} OverloadZeroIff(teachers: seq<Teacher>, slots: seq<Gene>)
    ensures OverloadPenalty(teachers, slots) == 0 <==> forall g :: g in slots ==> WithinLimit(teachers, slots, g)
  {
    if forall g :: g in slots ==> WithinLimit(teachers, slots, g) {
      OverloadZeroFromLimits(teachers, slots);
    }
    if OverloadPenalty(teachers, slots) == 0 {
      forall g | g in slots ensures WithinLimit(teachers, slots, g) {
        if TeacherById(teachers, g.guruId).Some? {
          OverloadCharged(teachers, slots, g);
          NoExcess(Count(Keys(slots, GuruOf), g.guruId), TeacherById(teachers, g.guruId).value.jamMaks,
                   OverloadPenalty(teachers, slots));
        }
      }
    }
  }

  lemma {:induction false} OverloadCharges(ids: seq<int>, gurus: seq<int>, teachers: seq<Teacher>, k: int)
    requires 0 <= k < |ids|
    ensures OverloadOver(ids, gurus, teachers) >= Charge(ids[k], gurus, teachers)
  {
    var p := ids[..|ids| - 1];
    OverloadNonNegative(p, gurus, teachers);
    if k < |ids| - 1 {
      assert p[k] == ids[k];
      OverloadCharges(p, gurus, teachers, k);
    }
  }

  /** A teacher met in the schedule whose row (the first with that id) allows
      fewer hours than they teach costs 5 per extra hour. */
  lemma {:induction false} OverloadCharged(teachers: seq<Teacher>, slots: seq<Gene>, g: Gene)
    requires g in slots && TeacherById(teachers, g.guruId).Some?
    ensures OverloadPenalty(teachers, slots) >=
            Max(0, Count(Keys(slots, GuruOf), g.guruId) - TeacherById(teachers, g.guruId).value.jamMaks) * 5
  {
    var gurus := Keys(slots, GuruOf);
    var d := Distinct(gurus);
    assert g.guruId in d by {
      var i :| 0 <= i < |slots| && slots[i] == g;
      assert gurus[i] == g.guruId;
    }
    var k :| 0 <= k < |d| && d[k] == g.guruId;
    OverloadCharges(d, gurus, teachers, k);
    assert OverloadPenalty(teachers, slots) >= Charge(g.guruId, gurus, teachers);
  }

  /** An empty timetable scores full marks. */
  lemma {:induction false} EmptyScheduleScores100(teachers: seq<Teacher>)
    ensures CalculateFitness(teachers, []) == 100.0
  {
    assert Keys([], TeacherSlot) == [];
    assert Keys([], RoomSlot) == [];
    assert Keys([], ClassSlot) == [];
    assert Keys([], GuruOf) == [];
    assert Keys([], HariOf) == [];
  }

  /** One slot scores 99.84, not 100: its day is charged |1 − 1/5|·0.2 while
      the four empty days are never visited. */
  lemma {:induction false} SingleSlotScore(teachers: seq<Teacher>, g: Gene)
    requires TeacherById(teachers, g.guruId).None? || TeacherById(teachers, g.guruId).value.jamMaks >= 1
    ensures CalculateFitness(teachers, [g]) == 99.84
  {
    var slots := [g];
    assert TeacherKeys(slots) == [TeacherSlot(g)];
    assert RoomKeys(slots) == [RoomSlot(g)];
    assert ClassKeys(slots) == [ClassSlot(g)];
    ClashPenaltyIsExcess(TeacherKeys(slots), TeacherClashWeight);
    ClashPenaltyIsExcess(RoomKeys(slots), RoomClashWeight);
    ClashPenaltyIsExcess(ClassKeys(slots), ClassClashWeight);
    var gurus := Keys(slots, GuruOf);
    assert gurus == [g.guruId];
    assert gurus[..0] == [];
    assert Distinct(gurus) == [g.guruId];
    assert Count(gurus, g.guruId) == 1;
    assert OverloadOver([g.guruId][..0], gurus, teachers) == 0;
    assert OverloadPenalty(teachers, slots) == 0;
    var days := Keys(slots, HariOf);
    assert days == [g.hari];
    assert days[..0] == [];
    assert Distinct(days) == [g.hari];
    assert Count(days, g.hari) == 1;
    assert [g.hari][..0] == [];
    assert |Days| == 5;
    assert DeviationOver([g.hari], days) == DeviationOver([], days) + Abs(1.0 - 0.2) * 0.2;
    assert DayBalancePenalty(slots) == 0.16;
  }
}
