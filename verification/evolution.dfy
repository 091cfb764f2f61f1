/** The generational loop (`evolve`) and the run configuration the engine is
    started with. */
module Evolution {
  import opened Common
  import opened Entities
  import opened Fitness
  import opened Conflicts
  import opened Initializer
  import opened Operators

  /** One progress notification: the generation number and the best
      schedule found so far. */
  datatype Progress = Progress(generation: int, best: Schedule)

  /** A schedule whose score and conflict list are those of its genes. */
  predicate Evaluated(p: Problem, s: Schedule) {
    s.fitness == CalculateFitness(p.teachers, s.slots) && s.conflicts == DetectConflicts(p.teachers, p.rooms, s.slots)
  }

  predicate PopulationOk(p: Problem, population: seq<Schedule>) {
    forall s :: s in population ==> AllGenesOk(p, s.slots)
  }

  /** The evaluation pass: every schedule gets its score and conflict list;
      the genes are untouched. */
  function Evaluate(p: Problem, population: seq<Schedule>): (r: seq<Schedule>)
    ensures |r| == |population|
    ensures forall i :: 0 <= i < |r| ==> r[i].slots == population[i].slots && Evaluated(p, r[i])
  {
    seq(|population|, i requires 0 <= i < |population| => EvaluateOne(p, population[i]))
  }

  /** One schedule, scored and described. */
  function EvaluateOne(p: Problem, s: Schedule): (r: Schedule)
    ensures r.slots == s.slots && Evaluated(p, r)
  {
    s.(fitness := CalculateFitness(p.teachers, s.slots), conflicts := DetectConflicts(p.teachers, p.rooms, s.slots))
  }

  lemma {:induction false} EvaluateKeepsOk(p: Problem, population: seq<Schedule>)
    requires PopulationOk(p, population)
    ensures PopulationOk(p, Evaluate(p, population))
  {
    var r := Evaluate(p, population);
    forall i | 0 <= i < |r| ensures AllGenesOk(p, r[i].slots) {
      assert population[i] in population;
    }
  }

  lemma {:induction false} SortKeepsOk(p: Problem, population: seq<Schedule>)
    requires PopulationOk(p, population)
    ensures PopulationOk(p, SortByFitness(population))
  {
    var r := SortByFitness(population);
    forall s | s in r ensures AllGenesOk(p, s.slots) {
      assert s in multiset(r);
      assert s in population;
    }
  }

  /** The head of the sorted, evaluated population is an evaluated,
      well-formed schedule. */
  lemma {:induction false} SortedHead(p: Problem, population: seq<Schedule>)
    requires |population| > 0 && PopulationOk(p, population)
    ensures var h := SortByFitness(Evaluate(p, population))[0];
            Evaluated(p, h) && AllGenesOk(p, h.slots)
  {
    var evaluated := Evaluate(p, population);
    var sorted := SortByFitness(evaluated);
    assert sorted[0] in multiset(sorted);
    assert sorted[0] in evaluated;
    var i :| 0 <= i < |evaluated| && evaluated[i] == sorted[0];
    assert population[i] in population;
  }

  /** One child: two tournaments, crossover when the draw is below the
      crossover rate (otherwise a copy of the first parent), then mutation
      when the next draw is below the mutation rate. A child is a copy of a
      population member, score included, or an unevaluated schedule. */
  function Offspring(p: Problem, config: GAConfig, population: seq<Schedule>, rng: Random, pos: nat): (r: (Schedule, nat))
    requires |population| > 0 && |p.rooms| > 0
    ensures r.0 in population || (r.0.fitness == 0.0 && r.0.conflicts == [])
    ensures r.1 > pos
  {
    var (parent1, pos1) := TournamentSelection(population, rng, pos);
    var (parent2, pos2) := TournamentSelection(population, rng, pos1);
    TournamentWinner(population, rng, pos);
    var child := if rng(pos2) < config.crossoverRate then Crossover(parent1, parent2, rng(pos2 + 1)) else parent1;
    var pos3 := if rng(pos2) < config.crossoverRate then pos2 + 2 else pos2 + 1;
    if rng(pos3) < config.mutationRate then Mutate(child, p.rooms, rng, pos3 + 1)
    else (child, pos3 + 1)
  }

  /** Children of well-formed parents are well formed. */
  lemma {:induction false} OffspringOk(p: Problem, config: GAConfig, population: seq<Schedule>, rng: Random, pos: nat)
    requires |population| > 0 && |p.rooms| > 0
    requires PopulationOk(p, population)
    ensures AllGenesOk(p, Offspring(p, config, population, rng, pos).0.slots)
  {
    var t1 := TournamentSelection(population, rng, pos);
    var t2 := TournamentSelection(population, rng, t1.1);
    WinnerOk(p, population, rng, pos);
    WinnerOk(p, population, rng, t1.1);
    var pos2 := t1.1 + TournamentSize;
    var child := if rng(pos2) < config.crossoverRate then Crossover(t1.0, t2.0, rng(pos2 + 1)) else t1.0;
    var pos3 := if rng(pos2) < config.crossoverRate then pos2 + 2 else pos2 + 1;
    CrossoverOk(p, t1.0, t2.0, rng(pos2 + 1));
    MutationKeepsGenesOk(p, child, rng, pos3 + 1);
    assert Offspring(p, config, population, rng, pos).0
        == if rng(pos3) < config.mutationRate then Mutate(child, p.rooms, rng, pos3 + 1).0 else child;
  }

  lemma {:induction false} WinnerOk(p: Problem, population: seq<Schedule>, rng: Random, pos: nat)
    requires |population| > 0 && PopulationOk(p, population)
    ensures AllGenesOk(p, TournamentSelection(population, rng, pos).0.slots)
  {
    TournamentWinner(population, rng, pos);
  }

  lemma {:induction false} CrossoverOk(p: Problem, parent1: Schedule, parent2: Schedule, u: Unit)
    requires AllGenesOk(p, parent1.slots) && AllGenesOk(p, parent2.slots)
    ensures AllGenesOk(p, Crossover(parent1, parent2, u).slots)
  {
    CrossoverGenes(parent1, parent2, u);
  }

  /** `n` children, bred one after the other. */
  function Breed(p: Problem, config: GAConfig, population: seq<Schedule>, rng: Random, pos: nat, n: nat): (r: (seq<Schedule>, nat))
    requires |population| > 0 && |p.rooms| > 0
    ensures |r.0| == n
    ensures forall c :: c in r.0 ==> c in population || (c.fitness == 0.0 && c.conflicts == [])
    ensures r.1 >= pos
    decreases n
  {
    if n == 0 then ([], pos)
    else
      var first := Offspring(p, config, population, rng, pos);
      var rest := Breed(p, config, population, rng, first.1, n - 1);
      assert forall c :: c in [first.0] + rest.0 <==> c == first.0 || c in rest.0;
      ([first.0] + rest.0, rest.1)
  }

  lemma {:induction false} BreedOk(p: Problem, config: GAConfig, population: seq<Schedule>, rng: Random, pos: nat, n: nat)
    requires |population| > 0 && |p.rooms| > 0
    requires PopulationOk(p, population)
    ensures PopulationOk(p, Breed(p, config, population, rng, pos, n).0)
    decreases n
  {
    if n > 0 {
      var first := Offspring(p, config, population, rng, pos);
      OffspringOk(p, config, population, rng, pos);
      BreedOk(p, config, population, rng, first.1, n - 1);
      var rest := Breed(p, config, population, rng, first.1, n - 1).0;
      assert Breed(p, config, population, rng, pos, n).0 == [first.0] + rest;
      forall s | s in [first.0] + rest ensures AllGenesOk(p, s.slots) {
        if s != first.0 { assert s in rest; }
      }
    }
  }

  /** The next population: copies of the first `eliteSize` schedules of the
      sorted population, then children until `populationSize` is reached. */
  function NextGeneration(p: Problem, config: GAConfig, sorted: seq<Schedule>, rng: Random, pos: nat): (r: (seq<Schedule>, nat))
    requires |sorted| > 0 && |p.rooms| > 0
    requires 0 <= config.eliteSize <= |sorted|
    ensures |r.0| == Max(config.eliteSize, config.populationSize)
    ensures r.0[..config.eliteSize] == sorted[..config.eliteSize]
    ensures forall s :: s in r.0[config.eliteSize..] ==> s in sorted || (s.fitness == 0.0 && s.conflicts == [])
    ensures r.1 >= pos
  {
    var elite := sorted[..config.eliteSize];
    var (children, pos1) := Breed(p, config, sorted, rng, pos, Max(0, config.populationSize - config.eliteSize));
    assert (elite + children)[..config.eliteSize] == elite;
    assert (elite + children)[config.eliteSize..] == children;
    (elite + children, pos1)
  }

  lemma {:induction false} NextGenerationOk(p: Problem, config: GAConfig, sorted: seq<Schedule>, rng: Random, pos: nat)
    requires |sorted| > 0 && |p.rooms| > 0
    requires 0 <= config.eliteSize <= |sorted|
    requires PopulationOk(p, sorted)
    ensures PopulationOk(p, NextGeneration(p, config, sorted, rng, pos).0)
  {
    var elite := sorted[..config.eliteSize];
    var n := Max(0, config.populationSize - config.eliteSize);
    var children: seq<Schedule> := Breed(p, config, sorted, rng, pos, n).0;
    BreedOk(p, config, sorted, rng, pos, n);
    assert NextGeneration(p, config, sorted, rng, pos).0 == elite + children;
    forall s | s in elite + children ensures AllGenesOk(p, s.slots) {
      if s in elite { assert s in sorted; }
    }
  }

  /** The progress reports so far: numbered 1, 2, ... in order, with
      non-decreasing best fitness, the last one carrying `best`. */
  predicate ProgressOk(progress: seq<Progress>, best: Schedule) {
    && (forall i :: 0 <= i < |progress| ==> progress[i].generation == i + 1)
    && (forall i, j :: 0 <= i < j < |progress| ==> progress[i].best.fitness <= progress[j].best.fitness)
    && (|progress| > 0 ==> progress[|progress| - 1].best == best)
  }

  lemma {:induction false} ProgressAppend(progress: seq<Progress>, best: Schedule, next: Schedule)
    requires ProgressOk(progress, best) && next.fitness >= best.fitness
    ensures ProgressOk(progress + [Progress(|progress| + 1, next)], next)
  {
    var after := progress + [Progress(|progress| + 1, next)];
    forall i, j | 0 <= i < j < |after| ensures after[i].best.fitness <= after[j].best.fitness {
      assert after[i] == progress[i];
      if j < |progress| {
        assert after[j] == progress[j];
      } else {
        assert progress[i].best.fitness <= progress[|progress| - 1].best.fitness;
      }
    }
  }

  /** The state `evolve` carries from one generation to the next. */
  datatype Generation = Generation(population: seq<Schedule>, best: Schedule, pos: nat)

  /** One generation: evaluate and sort the population, replace the
      best-ever schedule when the fittest one is strictly better, and breed
      the next population, which starts with the elite of the sorted one. */
  function NextState(p: Problem, config: GAConfig, st: Generation, rng: Random): (r: Generation)
    requires |p.rooms| > 0 && |st.population| == config.populationSize >= 1
    requires 0 <= config.eliteSize <= config.populationSize
    ensures |r.population| == config.populationSize
    ensures r.population[..config.eliteSize] == SortByFitness(Evaluate(p, st.population))[..config.eliteSize]
    ensures r.best.fitness >= st.best.fitness
    ensures r.best.fitness >= SortByFitness(Evaluate(p, st.population))[0].fitness
    ensures r.best == st.best
            || (r.best == SortByFitness(Evaluate(p, st.population))[0] && r.best.fitness > st.best.fitness)
  {
    var sorted := SortByFitness(Evaluate(p, st.population));
    var best := if sorted[0].fitness > st.best.fitness then sorted[0] else st.best;
    var next := NextGeneration(p, config, sorted, rng, st.pos);
    Generation(next.0, best, next.1)
  }

  /** A generation keeps every gene well formed, and the best-ever schedule
      is either the one it had or an evaluated schedule with a positive
      score. */
  lemma {:induction false} NextStateOk(p: Problem, config: GAConfig, st: Generation, rng: Random)
    requires |p.rooms| > 0 && |st.population| == config.populationSize >= 1
    requires 0 <= config.eliteSize <= config.populationSize
    requires PopulationOk(p, st.population) && AllGenesOk(p, st.best.slots) && st.best.fitness >= 0.0
    ensures var r := NextState(p, config, st, rng);
            && PopulationOk(p, r.population) && AllGenesOk(p, r.best.slots)
            && (r.best == st.best || (Evaluated(p, r.best) && r.best.fitness > 0.0))
  {
    var sorted := SortByFitness(Evaluate(p, st.population));
    EvaluateKeepsOk(p, st.population);
    SortKeepsOk(p, Evaluate(p, st.population));
    SortedHead(p, st.population);
    NextGenerationOk(p, config, sorted, rng, st.pos);
  }

  /** What holds between generations: the population has its size and
      well-formed genes, the reports so far are in order and end with the
      best-ever schedule, which is the first initial schedule or an
      evaluated one with a positive score. */
  predicate Running(p: Problem, config: GAConfig, first: Schedule, st: Generation, progress: seq<Progress>) {
    && |st.population| == config.populationSize && PopulationOk(p, st.population)
    && AllGenesOk(p, st.best.slots) && st.best.fitness >= 0.0
    && ProgressOk(progress, st.best)
    && (st.best == first || (Evaluated(p, st.best) && st.best.fitness > 0.0))
  }

  lemma {:induction false} StepKeepsRunning(p: Problem, config: GAConfig, first: Schedule, st: Generation,
                                            progress: seq<Progress>, rng: Random)
    requires |p.rooms| > 0 && config.populationSize >= 1
    requires 0 <= config.eliteSize <= config.populationSize
    requires Running(p, config, first, st, progress)
    ensures var next := NextState(p, config, st, rng);
            Running(p, config, first, next, progress + [Progress(|progress| + 1, next.best)])
  {
    var next := NextState(p, config, st, rng);
    NextStateOk(p, config, st, rng);
    ProgressAppend(progress, st.best, next.best);
  }

  /** The remaining `generations` of a run, each appending its report. */
  function Generations(p: Problem, config: GAConfig, first: Schedule, st: Generation, progress: seq<Progress>,
                       rng: Random, generations: nat): (r: (Generation, seq<Progress>))
    requires |p.rooms| > 0 && config.populationSize >= 1
    requires 0 <= config.eliteSize <= config.populationSize
    requires Running(p, config, first, st, progress)
    ensures Running(p, config, first, r.0, r.1)
    ensures |r.1| == |progress| + generations
    decreases generations
  {
    if generations == 0 then (st, progress)
    else
      var next := NextState(p, config, st, rng);
      StepKeepsRunning(p, config, first, st, progress, rng);
      Generations(p, config, first, next, progress + [Progress(|progress| + 1, next.best)], rng, generations - 1)
  }

  /** `evolve`: draw the initial population, then run `maxGenerations`
      generations, reporting the best-ever schedule after each; the result
      is the best-ever schedule and the reports. */
  function Evolve(p: Problem, config: GAConfig, rng: Random): (r: (Schedule, seq<Progress>))
    requires |p.rooms| > 0
    requires config.populationSize >= 1
    requires 0 <= config.eliteSize <= config.populationSize
    ensures |r.1| == Max(0, config.maxGenerations)
    ensures forall i :: 0 <= i < |r.1| ==> r.1[i].generation == i + 1
    ensures forall i, j :: 0 <= i < j < |r.1| ==> r.1[i].best.fitness <= r.1[j].best.fitness
    ensures |r.1| > 0 ==> r.0 == r.1[|r.1| - 1].best
    ensures AllGenesOk(p, r.0.slots)
    ensures r.0 == InitializePopulation(p, config.populationSize, rng, 0).0[0]
            || (Evaluated(p, r.0) && r.0.fitness > 0.0)
  {
    var init := InitializePopulation(p, config.populationSize, rng, 0);
    var start := Generation(init.0, init.0[0], init.1);
    var run := Generations(p, config, init.0[0], start, [], rng, Max(0, config.maxGenerations));
    (run.0.best, run.1)
  }

  // ----- the configuration the application starts a run with -----

  /** eliteSize = max(2, ⌊populationSize · 0.1⌋), mutation rate 0.3,
      crossover rate 0.8. */
  function DefaultConfig(maxGenerations: int, populationSize: int): (c: GAConfig)
    ensures c.maxGenerations == maxGenerations && c.populationSize == populationSize
    ensures c.eliteSize == Max(2, populationSize / 10)
    ensures c.eliteSize >= 2 && c.eliteSize * 10 <= Max(20, populationSize)
    ensures c.mutationRate == 0.3 && c.crossoverRate == 0.8
  {
    FloorTenth(populationSize);
    GAConfig(maxGenerations, populationSize, Max(2, (populationSize as real * 0.1).Floor), 0.3, 0.8)
  }

  /** `Math.floor(n * 0.1)` is the integer quotient of n by 10, rounded
      down, for negative n as well. */
  lemma {:induction false} FloorTenth(n: int)
    ensures (n as real * 0.1).Floor == n / 10
  {
    var q, m := n / 10, n % 10;
    assert n == 10 * q + m && 0 <= m < 10;
    assert n as real * 0.1 == q as real + m as real * 0.1;
    assert q as real <= n as real * 0.1 < q as real + 1.0;
  }

  /** The default configuration satisfies the loop's requirement that the
      elite fits in the population exactly when the population has at
      least two members. */
  lemma {:induction false} DefaultEliteFits(maxGenerations: int, populationSize: int)
    ensures DefaultConfig(maxGenerations, populationSize).eliteSize <= populationSize <==> populationSize >= 2
  {
    var f := (populationSize as real * 0.1).Floor;
    if populationSize >= 2 {
      assert f as real <= populationSize as real * 0.1;
      assert f <= populationSize;
    }
  }
}
