/** The variation operators of the engine: the fitness sort, tournament
    selection, one-point crossover and mutation. Draws are read from the
    random stream at the cursor, and each operator returns the cursor after
    its last draw. */
module Operators {
  import opened Common
  import opened Entities

  // ----- sorting by fitness -----

  predicate SortedDesc(s: seq<Schedule>) {
    forall i, j :: 0 <= i < j < |s| ==> s[i].fitness >= s[j].fitness
  }

  /** Inserts `x` after every leading element at least as fit. */
  function Insert(x: Schedule, s: seq<Schedule>): (r: seq<Schedule>)
    ensures |r| == |s| + 1
    ensures multiset(r) == multiset(s) + multiset{x}
    ensures |s| > 0 ==> r[0] == (if x.fitness > s[0].fitness then x else s[0])
  {
    if |s| == 0 then [x]
    else if s[0].fitness >= x.fitness then
      var rest := Insert(x, s[1..]);
      assert s == [s[0]] + s[1..];
      [s[0]] + rest
    else [x] + s
  }

  /** Inserting into a sorted sequence keeps it sorted. */
  lemma {:induction false} InsertSorted(x: Schedule, s: seq<Schedule>)
    requires SortedDesc(s)
    ensures SortedDesc(Insert(x, s))
  {
    if |s| > 0 && s[0].fitness >= x.fitness {
      var rest := Insert(x, s[1..]);
      InsertSorted(x, s[1..]);
      var r := [s[0]] + rest;
      assert Insert(x, s) == r;
      forall j | 0 < j < |r| ensures r[0].fitness >= r[j].fitness {
        assert r[j] == rest[j - 1];
        if j > 1 {
          assert rest[0].fitness >= rest[j - 1].fitness;
        }
        if rest[0] != x {
          assert rest[0] == s[1];
        }
      }
    }
  }

  /** `population.sort((a, b) => b.fitness - a.fitness)`: a stable sort,
      fittest first. */
  function SortByFitness(s: seq<Schedule>): (r: seq<Schedule>)
    ensures |r| == |s|
    ensures multiset(r) == multiset(s)
    ensures SortedDesc(r)
  {
    if |s| == 0 then []
    else
      assert s == s[..|s| - 1] + [s[|s| - 1]];
      var sorted := SortByFitness(s[..|s| - 1]);
      InsertSorted(s[|s| - 1], sorted);
      Insert(s[|s| - 1], sorted)
  }

  /** The first member of `s` with the highest fitness, found by a left to
      right scan that only switches on a strict improvement. */
  function FirstBest(s: seq<Schedule>): (b: Schedule)
    requires |s| > 0
    ensures b in s
    ensures forall i :: 0 <= i < |s| ==> b.fitness >= s[i].fitness
  {
    if |s| == 1 then s[0]
    else
      var b := FirstBest(s[..|s| - 1]);
      assert forall i :: 0 <= i < |s| - 1 ==> s[..|s| - 1][i] == s[i];
      if s[|s| - 1].fitness > b.fitness then s[|s| - 1] else b
  }

  /** Every element before the first best is strictly less fit. */
  lemma {:induction false} FirstBestIsFirst(s: seq<Schedule>)
    requires |s| > 0
    ensures exists k :: 0 <= k < |s| && s[k] == FirstBest(s) && forall i :: 0 <= i < k ==> s[i].fitness < FirstBest(s).fitness
  {
    if |s| == 1 {
      assert s[0] == FirstBest(s);
    } else {
      var p := s[..|s| - 1];
      FirstBestIsFirst(p);
      var k :| 0 <= k < |p| && p[k] == FirstBest(p) && forall i :: 0 <= i < k ==> p[i].fitness < FirstBest(p).fitness;
      if s[|s| - 1].fitness > FirstBest(p).fitness {
        forall i | 0 <= i < |s| - 1 ensures s[i].fitness < FirstBest(s).fitness {
          assert s[i] == p[i];
        }
      } else {
        assert s[k] == p[k];
        forall i | 0 <= i < k ensures s[i].fitness < FirstBest(s).fitness {
          assert s[i] == p[i];
        }
      }
    }
  }

  /** The head of the stable sort is the first best member: ties keep their
      original order, so among equally fit members the earliest wins. */
  lemma {:induction false} SortHeadIsFirstBest(s: seq<Schedule>)
    requires |s| > 0
    ensures SortByFitness(s)[0] == FirstBest(s)
  {
    if |s| > 1 {
      var p := s[..|s| - 1];
      SortHeadIsFirstBest(p);
      var sp := SortByFitness(p);
      assert sp[0] in multiset(sp);
      assert sp[0] in p;
    }
  }

  // ----- tournament selection -----

  const TournamentSize: nat := 5

  /** The members drawn for a tournament, in draw order. */
  function Drawn(population: seq<Schedule>, rng: Random, pos: nat): (t: seq<Schedule>)
    requires |population| > 0
    ensures |t| == TournamentSize
    ensures forall k :: 0 <= k < TournamentSize ==> t[k] == population[PickIndex(rng(pos + k), |population|)]
  {
    seq(TournamentSize, k requires 0 <= k < TournamentSize => population[PickIndex(rng(pos + k), |population|)])
  }

  /** `tournamentSelection`: five uniformly drawn members (repetition
      allowed), sorted by fitness; the head wins. */
  function TournamentSelection(population: seq<Schedule>, rng: Random, pos: nat): (r: (Schedule, nat))
    requires |population| > 0
    ensures r.1 == pos + TournamentSize
  {
    (SortByFitness(Drawn(population, rng, pos))[0], pos + TournamentSize)
  }

  /** The winner is a member of the population drawn into the tournament,
      at least as fit as every drawn member, and strictly fitter than every
      member drawn before it. */
  lemma {:induction false} TournamentWinner(population: seq<Schedule>, rng: Random, pos: nat)
    requires |population| > 0
    ensures var w := TournamentSelection(population, rng, pos).0;
            var t := Drawn(population, rng, pos);
            && w in population
            && (forall k :: 0 <= k < TournamentSize ==> w.fitness >= t[k].fitness)
            && exists k :: 0 <= k < TournamentSize && t[k] == w && forall i :: 0 <= i < k ==> t[i].fitness < w.fitness
  {
    var t := Drawn(population, rng, pos);
    SortHeadIsFirstBest(t);
    FirstBestIsFirst(t);
    var k :| 0 <= k < |t| && t[k] == FirstBest(t);
    assert t[k] == population[PickIndex(rng(pos + k), |population|)];
  }

  // ----- crossover -----

  /** `Math.floor(Math.random() * parent1.slots.length)`. */
  function CutPoint(parent1: Schedule, u: Unit): (cut: nat)
    ensures cut <= |parent1.slots|
    ensures |parent1.slots| > 0 ==> cut < |parent1.slots|
  {
    PickIndex(u, |parent1.slots|)
  }

  /** `xs.slice(from)`: empty when `from` is past the end. */
  function SliceFrom(xs: seq<Gene>, from: nat): (r: seq<Gene>)
    ensures from <= |xs| ==> r == xs[from..]
    ensures from > |xs| ==> r == []
  {
    if from <= |xs| then xs[from..] else []
  }

  /** `crossover`: parent1's genes before the cut, then parent2's from the
      cut on. */
  function Crossover(parent1: Schedule, parent2: Schedule, u: Unit): (child: Schedule)
    ensures child.fitness == 0.0 && child.conflicts == []
    ensures var cut := CutPoint(parent1, u);
            && |child.slots| == cut + Max(0, |parent2.slots| - cut)
            && child.slots[..cut] == parent1.slots[..cut]
            && child.slots[cut..] == SliceFrom(parent2.slots, cut)
  {
    var cut := CutPoint(parent1, u);
    var slots := parent1.slots[..cut] + SliceFrom(parent2.slots, cut);
    assert slots[..cut] == parent1.slots[..cut];
    assert slots[cut..] == SliceFrom(parent2.slots, cut);
    Unevaluated(slots)
  }

  /** Every gene of a child comes from one of its parents. */
  lemma {:induction false} CrossoverGenes(parent1: Schedule, parent2: Schedule, u: Unit)
    ensures forall g :: g in Crossover(parent1, parent2, u).slots ==> g in parent1.slots || g in parent2.slots
  {
    var cut := CutPoint(parent1, u);
    var child := Crossover(parent1, parent2, u).slots;
    assert child == child[..cut] + child[cut..];
    forall g | g in child ensures g in parent1.slots || g in parent2.slots {
      if g in child[..cut] {
        assert g in parent1.slots[..cut];
      } else {
        assert g in SliceFrom(parent2.slots, cut);
      }
    }
  }

  /** A child keeps parent2's length whenever parent2 reaches the cut. */
  lemma {:induction false} CrossoverLength(parent1: Schedule, parent2: Schedule, u: Unit)
    requires CutPoint(parent1, u) <= |parent2.slots|
    ensures |Crossover(parent1, parent2, u).slots| == |parent2.slots|
  {
    assert Max(0, |parent2.slots| - CutPoint(parent1, u)) == |parent2.slots| - CutPoint(parent1, u);
  }

  /** The child's length need not be parent1's: with a one-gene parent1 the
      cut is 0 and the child is all of parent2. */
  lemma {:induction false} CrossoverTakesParent2Length(g: Gene, parent2: Schedule, u: Unit)
    ensures Crossover(Schedule([g], 50.0, []), parent2, u).slots == parent2.slots
  {
    var p1 := Schedule([g], 50.0, []);
    assert CutPoint(p1, u) == 0;
    var child := Crossover(p1, parent2, u).slots;
    assert child[0..] == SliceFrom(parent2.slots, 0);
  }

  // ----- mutation -----

  /** The per-gene mutation chance and the mutation-type thresholds. */
  const GeneMutationChance: real := 0.1
  const DayThreshold: real := 0.33
  const HourThreshold: real := 0.66

  /** `g2` is `g` with at most one of day, period or room replaced, by a
      weekday, a period in 1..8 or an existing room id respectively. */
  predicate MutationOf(g: Gene, g2: Gene, rooms: seq<Room>) {
    || g2 == g
    || (g2 == g.(hari := g2.hari) && g2.hari in Days)
    || (g2 == g.(jamKe := g2.jamKe) && 1 <= g2.jamKe <= HoursPerDay)
    || (g2 == g.(ruangId := g2.ruangId) && IsRoomId(rooms, g2.ruangId))
  }

  /** One gene of `mutate`: with the draw below 0.1, a second draw picks
      the field (day below 0.33, period below 0.66, otherwise room) and a
      third its new value. */
  function MutateGene(g: Gene, rooms: seq<Room>, rng: Random, pos: nat): (r: (Gene, nat))
    requires |rooms| > 0
    ensures MutationOf(g, r.0, rooms)
    ensures r.0.kelasId == g.kelasId && r.0.guruId == g.guruId && r.0.mapelId == g.mapelId
    ensures r.1 == if rng(pos) < GeneMutationChance then pos + 3 else pos + 1
  {
    if rng(pos) < GeneMutationChance then
      var kind := rng(pos + 1);
      if kind < DayThreshold then (g.(hari := DrawDay(rng(pos + 2))), pos + 3)
      else if kind < HourThreshold then (g.(jamKe := DrawHour(rng(pos + 2))), pos + 3)
      else (g.(ruangId := DrawRoom(rng(pos + 2), rooms).id), pos + 3)
    else (g, pos + 1)
  }

  /** The genes of `mutate`, mutated left to right. */
  function MutateSlots(slots: seq<Gene>, rooms: seq<Room>, rng: Random, pos: nat): (r: (seq<Gene>, nat))
    requires |rooms| > 0
    ensures |r.0| == |slots|
    ensures forall i :: 0 <= i < |slots| ==> MutationOf(slots[i], r.0[i], rooms)
    ensures r.1 >= pos + |slots|
  {
    if |slots| == 0 then ([], pos)
    else
      var (g, pos1) := MutateGene(slots[0], rooms, rng, pos);
      var (rest, pos2) := MutateSlots(slots[1..], rooms, rng, pos1);
      ([g] + rest, pos2)
  }

  /** `mutate`: an unevaluated schedule of the mutated genes. */
  function Mutate(schedule: Schedule, rooms: seq<Room>, rng: Random, pos: nat): (r: (Schedule, nat))
    requires |rooms| > 0
    ensures r.0.fitness == 0.0 && r.0.conflicts == []
    ensures |r.0.slots| == |schedule.slots|
    ensures forall i :: 0 <= i < |schedule.slots| ==> MutationOf(schedule.slots[i], r.0.slots[i], rooms)
  {
    var (slots, pos1) := MutateSlots(schedule.slots, rooms, rng, pos);
    (Unevaluated(slots), pos1)
  }

  /** Mutation keeps every gene well formed. */
  lemma {:induction false} MutationKeepsGenesOk(p: Problem, schedule: Schedule, rng: Random, pos: nat)
    requires |p.rooms| > 0 && AllGenesOk(p, schedule.slots)
    ensures AllGenesOk(p, Mutate(schedule, p.rooms, rng, pos).0.slots)
  {
    var m := Mutate(schedule, p.rooms, rng, pos).0.slots;
    forall g | g in m ensures GeneOk(p, g) {
      var i :| 0 <= i < |m| && m[i] == g;
      assert schedule.slots[i] in schedule.slots;
      assert MutationOf(schedule.slots[i], g, p.rooms);
    }
  }

  /** Mutation ignores teacher availability: draws 0, 0, 0 move any gene to
      Monday, even when its teacher cannot teach on Monday. */
  lemma {:induction false} MutationIgnoresAvailability(g: Gene, t: Teacher, rooms: seq<Room>, rng: Random, pos: nat)
    requires |rooms| > 0
    requires rng(pos) == 0.0 && rng(pos + 1) == 0.0 && rng(pos + 2) == 0.0
    requires t.hariTidakBisa == Some("Senin")
    ensures MutateGene(g, rooms, rng, pos).0 == g.(hari := "Senin")
    ensures Unavailable(t, MutateGene(g, rooms, rng, pos).0.hari)
  {
    assert PickIndex(0.0, |Days|) == 0;
    assert "Senin"[..5] == "Senin";
  }
}
