/** One generation of the evolutionary loop for one output dimension:
    evaluation with best-of-generation tracking, breeding in pairs
    (tournaments, crossover, mutation) into `new_population`, and elitism.

    `insert_best_individual` returns the very list it was given, so after
    the first generation that applies elitism `population` and
    `new_population` are one list: later breeding slots of a generation can
    then read children written by earlier slots.  The model keeps both as
    arrays and lets them be the same array.
 */
module Evolution {
  import opened Draws
  import opened Genome
  import Selection
  import Operators

  /** A float that may be `np.infty`. */
  datatype Extended = Infinity | Finite(value: real)

  /** The run parameters of the driver. */
  datatype Config = Config(popSize: nat, tournProb: real, tournSize: nat, crossProb: real,
                           maxInstructions: int, mutateProb: real, numCopiesToInsert: int, shape: Shape)
  {
    /** The driver always runs tournaments (`tourn_size > 0`), and `randint`
        needs at least one value per field role. */
    predicate Valid() {
      popSize >= 1 && tournSize >= 1 && shape.Valid()
    }

    /** The number of passes of `range(0, pop_size, 2)`. */
    function Pairs(): nat {
      (popSize + 1) / 2
    }
  }

  /** How a generation ended: with the draws left, out of draws, or on
      `population[best_indx]` with `best_indx` past the end. */
  datatype Outcome = Completed(rest: seq<Unit>) | OutOfDraws | BestIndexError

  function Max(a: real, b: real): real {
    if a >= b then a else b
  }

  predicate AllWellFormed(pop: seq<Chromosome>, sh: Shape) {
    forall i :: 0 <= i < |pop| ==> WellFormed(pop[i], sh)
  }

  // ---------------------------------------------------------------------
  // Evaluation phase

  /** The variables of the evaluation loop. */
  datatype Scan = Scan(bestIndx: nat, bestFitness: real, error: Extended, bestFitTotal: real)

  /** The evaluation loop after its first `k` individuals: `best_indx`
      starts at 1 and `best_fitness` at 0, and only a strictly larger
      fitness replaces them. */
  function EvalScan(fit: seq<real>, k: nat, error: Extended, bestFitTotal: real): (s: Scan)
    requires k <= |fit|
    ensures s.bestFitness >= 0.0
  {
    if k == 0 then Scan(1, 0.0, error, bestFitTotal)
    else
      var s := EvalScan(fit, k - 1, error, bestFitTotal);
      var f := fit[k - 1];
      if f > s.bestFitness then
        Scan(k - 1, f, Finite(1.0 / f), if f > s.bestFitTotal then f else s.bestFitTotal)
      else s
  }

  /** The fitness of every individual, `population_fitness`. */
  function Fitnesses(evaluate: Chromosome -> real, pop: seq<Chromosome>): (fit: seq<real>)
    ensures |fit| == |pop| && forall i :: 0 <= i < |pop| ==> fit[i] == evaluate(pop[i])
  {
    seq(|pop|, i requires 0 <= i < |pop| => evaluate(pop[i]))
  }

  /** When some fitness is positive, the best index is the first index of
      maximal fitness, the error is its inverse and the best total fitness is
      the larger of the old one and it; otherwise the loop keeps index 1 and
      the old error and best total. */
  lemma {:induction false} EvalScanMeaning(fit: seq<real>, k: nat, error: Extended, bestFitTotal: real)
    requires 1 <= k <= |fit|
    ensures var s := EvalScan(fit, k, error, bestFitTotal);
      var m := Selection.ArgMax(fit[..k]);
      (fit[m] > 0.0 ==> s == Scan(m, fit[m], Finite(1.0 / fit[m]), Max(bestFitTotal, fit[m]))) &&
      (fit[m] <= 0.0 ==> s == Scan(1, 0.0, error, bestFitTotal))
  {
    var m := Selection.ArgMax(fit[..k]);
    if k > 1 {
      EvalScanMeaning(fit, k - 1, error, bestFitTotal);
      assert fit[..k][..k - 1] == fit[..k - 1];
      var a := Selection.ArgMax(fit[..k - 1]);
      assert m == if fit[k - 1] > fit[a] then k - 1 else a;
    }
  }

  // ---------------------------------------------------------------------
  // Breeding phase

  /** The crossover step: with `rnd <= cross_prob` the two parents are
      crossed, otherwise they pass unchanged. */
  function MaybeCross(chrom1: Chromosome, chrom2: Chromosome, cfg: Config, ds: seq<Unit>)
    : (r: Draw<(Chromosome, Chromosome)>)
    ensures |ds| > 0 && ds[0] > cfg.crossProb ==> r == Drawn((chrom1, chrom2), ds[1..])
    ensures r.Drawn? ==> |ds| > 0 && |r.value.0| + |r.value.1| <= |chrom1| + |chrom2|
    ensures r.Drawn? && WellFormed(chrom1, cfg.shape) && WellFormed(chrom2, cfg.shape) ==>
      WellFormed(r.value.0, cfg.shape) && WellFormed(r.value.1, cfg.shape)
  {
    if |ds| == 0 then Exhausted
    else if ds[0] <= cfg.crossProb then
      Operators.CrossoverProperties(chrom1, chrom2, cfg.maxInstructions, ds[1..], cfg.shape);
      Operators.Crossover(chrom1, chrom2, cfg.maxInstructions, ds[1..])
    else Drawn((chrom1, chrom2), ds[1..])
  }

  /** Both children mutated: each keeps its length and its well-formedness. */
  function MutateBoth(children: (Chromosome, Chromosome), cfg: Config, ds: seq<Unit>)
    : (r: Draw<(Chromosome, Chromosome)>)
    requires cfg.Valid()
    ensures r.Drawn? ==> |r.value.0| == |children.0| && |r.value.1| == |children.1|
    ensures r.Drawn? && WellFormed(children.0, cfg.shape) ==> WellFormed(r.value.0, cfg.shape)
    ensures r.Drawn? && WellFormed(children.1, cfg.shape) ==> WellFormed(r.value.1, cfg.shape)
  {
    Operators.MutateProperties(children.0, cfg.mutateProb, cfg.shape, ds);
    match Operators.Mutate(children.0, cfg.mutateProb, cfg.shape, ds)
    case Exhausted => Exhausted
    case Drawn(m1, rest) =>
      Operators.MutateProperties(children.1, cfg.mutateProb, cfg.shape, rest);
      match Operators.Mutate(children.1, cfg.mutateProb, cfg.shape, rest)
      case Exhausted => Exhausted
      case Drawn(m2, rest') => Drawn((m1, m2), rest')
  }

  /** The two parents' indices: two tournaments on `population_fitness`. */
  function SelectParents(fit: seq<real>, cfg: Config, ds: seq<Unit>): (r: Draw<(nat, nat)>)
    requires cfg.Valid() && |fit| >= 1
    ensures r.Drawn? ==> r.value.0 < |fit| && r.value.1 < |fit|
  {
    Selection.TournamentInRange(fit, cfg.tournProb, cfg.tournSize, ds);
    match Selection.Tournament(fit, cfg.tournProb, cfg.tournSize, ds)
    case Exhausted => Exhausted
    case Drawn(i1, rest) =>
      Selection.TournamentInRange(fit, cfg.tournProb, cfg.tournSize, rest);
      match Selection.Tournament(fit, cfg.tournProb, cfg.tournSize, rest)
      case Exhausted => Exhausted
      case Drawn(i2, rest') => Drawn((i1, i2), rest')
  }

  /** Writing the children of the pass at slot `i`; the second child only
      when slot `i + 1` exists. */
  function Place(dst: seq<Chromosome>, i: nat, children: (Chromosome, Chromosome)): (r: seq<Chromosome>)
    requires i < |dst|
    ensures |r| == |dst| && r[i] == children.0
    ensures i + 1 < |dst| ==> r[i + 1] == children.1
    ensures forall j :: 0 <= j < |dst| && j != i && j != i + 1 ==> r[j] == dst[j]
    ensures i + 1 == |dst| ==> forall j :: 0 <= j < |dst| && j != i ==> r[j] == dst[j]
  {
    var d := dst[i := children.0];
    if i + 1 < |dst| then d[i + 1 := children.1] else d
  }

  /** The two mutated children of one pass, bred from parents read from
      `parents`. */
  function Children(parents: seq<Chromosome>, fit: seq<real>, cfg: Config, ds: seq<Unit>)
    : (r: Draw<(Chromosome, Chromosome)>)
    requires cfg.Valid() && |parents| == |fit| >= 1
    ensures r.Drawn? && AllWellFormed(parents, cfg.shape) ==>
      WellFormed(r.value.0, cfg.shape) && WellFormed(r.value.1, cfg.shape)
  {
    match SelectParents(fit, cfg, ds)
    case Exhausted => Exhausted
    case Drawn(indx, rest) =>
      match MaybeCross(parents[indx.0], parents[indx.1], cfg, rest)
      case Exhausted => Exhausted
      case Drawn(crossed, rest') => MutateBoth(crossed, cfg, rest')
  }

  /** One pass of the breeding loop at slot `i`: the children are written
      to slots `i` and `i + 1` of `dst`. */
  function BreedPair(parents: seq<Chromosome>, dst: seq<Chromosome>, fit: seq<real>, cfg: Config, i: nat, ds: seq<Unit>)
    : (r: Draw<seq<Chromosome>>)
    requires cfg.Valid() && |parents| == |fit| >= 1 && i < |dst|
    ensures r.Drawn? ==> |r.value| == |dst|
    ensures r.Drawn? && AllWellFormed(parents, cfg.shape) && AllWellFormed(dst, cfg.shape) ==>
      AllWellFormed(r.value, cfg.shape)
  {
    match Children(parents, fit, cfg, ds)
    case Exhausted => Exhausted
    case Drawn(children, rest) => Drawn(Place(dst, i, children), rest)
  }

  /** The passes of the breeding loop from pass `k` on, with `d` the
      list the earlier passes left.  When the two lists are one (`aliased`),
      every pass reads the parents from the list as the earlier passes left
      it; otherwise from `src`. */
  function BreedRest(src: seq<Chromosome>, d: seq<Chromosome>, aliased: bool, fit: seq<real>, cfg: Config,
                     k: nat, ds: seq<Unit>): (r: Draw<seq<Chromosome>>)
    requires cfg.Valid() && |src| == |d| == |fit| == cfg.popSize
    ensures r.Drawn? ==> |r.value| == |d|
    ensures r.Drawn? && AllWellFormed(src, cfg.shape) && AllWellFormed(d, cfg.shape) ==>
      AllWellFormed(r.value, cfg.shape)
    decreases cfg.popSize + 1 - 2 * k, 1
  {
    if 2 * k >= cfg.popSize then Drawn(d, ds) else BreedPass(src, d, aliased, fit, cfg, k, ds)
  }

  /** Pass `k`, which writes slots `2 * k` and `2 * k + 1`, and the passes
      after it. */
  function BreedPass(src: seq<Chromosome>, d: seq<Chromosome>, aliased: bool, fit: seq<real>, cfg: Config,
                     k: nat, ds: seq<Unit>): (r: Draw<seq<Chromosome>>)
    requires cfg.Valid() && |src| == |d| == |fit| == cfg.popSize && 2 * k < cfg.popSize
    ensures r.Drawn? ==> |r.value| == |d|
    ensures r.Drawn? && AllWellFormed(src, cfg.shape) && AllWellFormed(d, cfg.shape) ==>
      AllWellFormed(r.value, cfg.shape)
    decreases cfg.popSize + 1 - 2 * k, 0
  {
    match BreedPair(if aliased then d else src, d, fit, cfg, 2 * k, ds)
    case Exhausted => Exhausted
    case Drawn(d', rest) => BreedRest(src, d', aliased, fit, cfg, k + 1, rest)
  }

  /** The whole breeding loop. */
  function Breeding(src: seq<Chromosome>, dst: seq<Chromosome>, aliased: bool, fit: seq<real>, cfg: Config,
                    ds: seq<Unit>): (r: Draw<seq<Chromosome>>)
    requires cfg.Valid() && |src| == |dst| == |fit| == cfg.popSize
  {
    BreedRest(src, dst, aliased, fit, cfg, 0, ds)
  }

  // ---------------------------------------------------------------------
  // Elitism

  /** `insert_best_individual`: the first `num_copies_to_insert` entries
      become the best chromosome. */
  function InsertBest(pop: seq<Chromosome>, best: Chromosome, k: int): (r: seq<Chromosome>)
    requires k <= |pop|
    ensures |r| == |pop|
  {
    seq(|pop|, i requires 0 <= i < |pop| => if i < k then best else pop[i])
  }

  /** `insert_best_individual(population, best_chromosome, num_copies_to_insert)`
      overwrites the list in place and returns the same list. */
  method InsertBestIndividual(population: array<Chromosome>, bestChromosome: Chromosome, numCopiesToInsert: int)
    returns (r: array<Chromosome>)
    requires numCopiesToInsert <= population.Length
    modifies population
    ensures r == population
    ensures population[..] == InsertBest(old(population[..]), bestChromosome, numCopiesToInsert)
  {
    for i := 0 to if numCopiesToInsert < 0 then 0 else numCopiesToInsert
      invariant forall j :: 0 <= j < i ==> population[j] == bestChromosome
      invariant forall j :: i <= j < population.Length ==> population[j] == old(population[j])
    {
      population[i] := bestChromosome;
    }
    r := population;
  }

  /** The first `k` entries hold the best chromosome and the others are
      untouched. */
  lemma InsertBestEntries(pop: seq<Chromosome>, best: Chromosome, k: int)
    requires k <= |pop|
    ensures forall i :: 0 <= i < |pop| ==> InsertBest(pop, best, k)[i] == (if i < k then best else pop[i])
  {
  }

  // ---------------------------------------------------------------------
  // The whole generation

  /** The state the driver carries from one generation to the next:
      `aliased` says whether `population` and `new_population` are one list. */
  datatype SearchState = SearchState(population: seq<Chromosome>, newPopulation: seq<Chromosome>, aliased: bool,
                                     fitness: seq<real>, error: Extended, bestFitTotal: real, numGen: int)

  predicate Consistent(s: SearchState, cfg: Config) {
    cfg.Valid() &&
    |s.population| == |s.newPopulation| == |s.fitness| == cfg.popSize &&
    (s.aliased ==> s.population == s.newPopulation)
  }

  /** The state after breeding produced `bred`: the copies of `best` are
      inserted when `num_copies_to_insert <= pop_size`, which makes the two
      lists one, and the generation counter moves on. */
  function Conclusion(pop: seq<Chromosome>, bred: seq<Chromosome>, aliased: bool, best: Chromosome, fit: seq<real>,
                      scan: Scan, numGen: int, cfg: Config): (r: SearchState)
    requires cfg.Valid() && |pop| == |bred| == |fit| == cfg.popSize
    ensures Consistent(r, cfg) && r.numGen == numGen + 1 && r.fitness == fit && r.newPopulation[..] == r.newPopulation
    ensures aliased ==> r.aliased
  {
    var k := cfg.numCopiesToInsert;
    if k <= cfg.popSize then
      var p := InsertBest(bred, best, k);
      SearchState(p, p, true, fit, scan.error, scan.bestFitTotal, numGen + 1)
    else
      SearchState(if aliased then bred else pop, bred, aliased, fit, scan.error, scan.bestFitTotal, numGen + 1)
  }

  /** One pass of the body of the `while error > target_error` loop. */
  function Generation(s: SearchState, cfg: Config, evaluate: Chromosome -> real, ds: seq<Unit>)
    : (r: (Outcome, SearchState))
    requires Consistent(s, cfg)
  {
    var fit := Fitnesses(evaluate, s.population);
    var scan := EvalScan(fit, |fit|, s.error, s.bestFitTotal);
    if scan.bestIndx >= |s.population| then (BestIndexError, s)
    else
      var best := s.population[scan.bestIndx];
      match Breeding(s.population, s.newPopulation, s.aliased, fit, cfg, ds)
      case Exhausted => (OutOfDraws, s)
      case Drawn(bred, rest) =>
        (Completed(rest), Conclusion(s.population, bred, s.aliased, best, fit, scan, s.numGen, cfg))
  }

  /** The driver's variables for one output dimension. */
  class Search {
    var population: array<Chromosome>
    var newPopulation: array<Chromosome>
    var populationFitness: array<real>
    var error: Extended
    var bestFitTotal: real
    var numGen: int
    const cfg: Config

    ghost predicate Valid()
      reads this
    {
      cfg.Valid() &&
      population.Length == newPopulation.Length == populationFitness.Length == cfg.popSize
    }

    /** The variables as values. */
    function State(): SearchState
      reads this, population, newPopulation, populationFitness
    {
      SearchState(population[..], newPopulation[..], population == newPopulation,
                  populationFitness[..], error, bestFitTotal, numGen)
    }

    /** The set-up before the loop: the initial population, a deep copy of
        it as `new_population`, zero fitness, `error = np.infty`,
        `num_gen = 1` and `best_fit_total = 0`. */
    constructor(cfg: Config, initial: seq<Chromosome>)
      requires cfg.Valid() && |initial| == cfg.popSize
      ensures Valid() && this.cfg == cfg
      ensures State() == SearchState(initial, initial, false, seq(cfg.popSize, _ => 0.0), Infinity, 0.0, 1)
      ensures fresh(population) && fresh(newPopulation) && fresh(populationFitness)
    {
      this.cfg := cfg;
      population := new Chromosome[|initial|](i requires 0 <= i < |initial| => initial[i]);
      newPopulation := new Chromosome[|initial|](i requires 0 <= i < |initial| => initial[i]);
      populationFitness := new real[|initial|](_ => 0.0);
      error := Infinity;
      bestFitTotal := 0.0;
      numGen := 1;
    }

    /** The evaluation loop: every fitness is recorded, and the best index,
        error and best total fitness are tracked. */
    method Evaluate(evaluate: Chromosome -> real) returns (bestIndx: nat)
      requires Valid()
      modifies this`error, this`bestFitTotal, populationFitness
      ensures Valid()
      ensures populationFitness[..] == Fitnesses(evaluate, population[..])
      ensures var scan := EvalScan(populationFitness[..], cfg.popSize, old(error), old(bestFitTotal));
        bestIndx == scan.bestIndx && error == scan.error && bestFitTotal == scan.bestFitTotal
    {
      bestIndx := 1;
      var bestFitness := 0.0;
      for i := 0 to cfg.popSize
        invariant forall j :: 0 <= j < i ==> populationFitness[j] == evaluate(population[j])
        invariant EvalScan(populationFitness[..], i, old(error), old(bestFitTotal)) ==
                  Scan(bestIndx, bestFitness, error, bestFitTotal)
      {
        var fitness := evaluate(population[i]);
        EvalScanPrefix(populationFitness[..], populationFitness[..][i := fitness], i, old(error), old(bestFitTotal));
        populationFitness[i] := fitness;
        if fitness > bestFitness {
          bestIndx := i;
          bestFitness := fitness;
          error := Finite(1.0 / fitness);
          if fitness > bestFitTotal {
            bestFitTotal := fitness;
          }
        }
      }
      assert populationFitness[..] == Fitnesses(evaluate, population[..]);
    }

    /** One pass of the breeding loop, writing slot `i` (and `i + 1` when
        it exists) of `new_population`; the parents are read from
        `population`, which may be the same array. */
    method BreedSlot(i: nat, ds: seq<Unit>) returns (outcome: Outcome)
      requires Valid() && i < cfg.popSize
      modifies newPopulation
      ensures Valid()
      ensures var r := BreedPair(old(population[..]), old(newPopulation[..]), populationFitness[..], cfg, i, ds);
        (r.Exhausted? ==> outcome == OutOfDraws) &&
        (r.Drawn? ==> outcome == Completed(r.rest) && newPopulation[..] == r.value)
    {
      var fit := populationFitness[..];
      ghost var sel := SelectParents(fit, cfg, ds);
      var t1 := Selection.TournamentSelect(fit, cfg.tournProb, cfg.tournSize, ds);
      if t1.Exhausted? {
        return OutOfDraws;
      }
      var t2 := Selection.TournamentSelect(fit, cfg.tournProb, cfg.tournSize, t1.rest);
      if t2.Exhausted? {
        return OutOfDraws;
      }
      assert sel == Drawn((t1.value, t2.value), t2.rest);
      var chrom1 := population[t1.value];
      var chrom2 := population[t2.value];
      var crossed := MaybeCross(chrom1, chrom2, cfg, t2.rest);
      if crossed.Exhausted? {
        return OutOfDraws;
      }
      var m1 := Operators.MutateChromosome(crossed.value.0, cfg.mutateProb, cfg.shape, crossed.rest);
      if m1.Exhausted? {
        return OutOfDraws;
      }
      var m2 := Operators.MutateChromosome(crossed.value.1, cfg.mutateProb, cfg.shape, m1.rest);
      if m2.Exhausted? {
        return OutOfDraws;
      }
      newPopulation[i] := m1.value;
      if i + 1 < cfg.popSize {
        newPopulation[i + 1] := m2.value;
      }
      outcome := Completed(m2.rest);
    }

    /** The breeding loop `for i in range(0, pop_size, 2)`. */
    method Breed(ds: seq<Unit>) returns (outcome: Outcome)
      requires Valid()
      modifies newPopulation
      ensures Valid()
      ensures var r := Breeding(old(population[..]), old(newPopulation[..]), population == newPopulation,
                                populationFitness[..], cfg, ds);
        (r.Exhausted? ==> outcome == OutOfDraws) &&
        (r.Drawn? ==> outcome == Completed(r.rest) && newPopulation[..] == r.value)
    {
      ghost var src, aliased, fit := population[..], population == newPopulation, populationFitness[..];
      ghost var target := Breeding(src, newPopulation[..], aliased, fit, cfg, ds);
      var rest := ds;
      for k := 0 to cfg.Pairs()
        invariant Valid()
        invariant populationFitness[..] == fit
        invariant population[..] == if aliased then newPopulation[..] else src
        invariant BreedRest(src, newPopulation[..], aliased, fit, cfg, k, rest) == target
      {
        BreedRestPass(src, newPopulation[..], aliased, fit, cfg, k, rest);
        outcome := BreedSlot(2 * k, rest);
        if outcome.OutOfDraws? {
          return;
        }
        rest := outcome.rest;
      }
      outcome := Completed(rest);
    }

    /** One pass of the body of the driver's `while` loop. */
    method Step(evaluate: Chromosome -> real, ds: seq<Unit>) returns (outcome: Outcome)
      requires Valid()
      modifies this, population, newPopulation, populationFitness
      ensures Valid()
      ensures Generation(old(State()), cfg, evaluate, ds).0 == outcome
      ensures outcome.Completed? ==> State() == Generation(old(State()), cfg, evaluate, ds).1
    {
      ghost var s := State();
      var bestIndx := Evaluate(evaluate);
      ghost var scan := EvalScan(populationFitness[..], cfg.popSize, s.error, s.bestFitTotal);
      if bestIndx >= cfg.popSize {
        return BestIndexError;
      }
      var bestChromosome := population[bestIndx];
      outcome := Breed(ds);
      if outcome.OutOfDraws? {
        return;
      }
      Conclude(bestChromosome, scan);
    }

    /** After breeding: insert the copies of the best chromosome, count the
        generation. */
    method Conclude(bestChromosome: Chromosome, ghost scan: Scan)
      requires Valid() && error == scan.error && bestFitTotal == scan.bestFitTotal
      modifies this`population, this`numGen, newPopulation
      ensures Valid()
      ensures State() == Conclusion(old(population[..]), old(newPopulation[..]), old(population == newPopulation),
                                    bestChromosome, populationFitness[..], scan, old(numGen), cfg)
    {
      if cfg.numCopiesToInsert <= cfg.popSize {
        population := InsertBestIndividual(newPopulation, bestChromosome, cfg.numCopiesToInsert);
      }
      numGen := numGen + 1;
    }
  }

  /** Evaluation reads the prefix of the fitness list only. */
  lemma {:induction false} EvalScanPrefix(fit: seq<real>, fit': seq<real>, k: nat, error: Extended, bestFitTotal: real)
    requires k <= |fit| && k <= |fit'| && fit[..k] == fit'[..k]
    ensures EvalScan(fit, k, error, bestFitTotal) == EvalScan(fit', k, error, bestFitTotal)
  {
    if k > 0 {
      assert fit[k - 1] == fit[..k][k - 1];
      assert fit[..k - 1] == fit[..k][..k - 1];
      assert fit'[..k - 1] == fit'[..k][..k - 1];
      EvalScanPrefix(fit, fit', k - 1, error, bestFitTotal);
    }
  }

  // ---------------------------------------------------------------------
  // Properties of a generation

  /** Writing well-formed children into a well-formed list keeps it
      well-formed. */
  lemma PlaceWellFormed(d: seq<Chromosome>, i: nat, children: (Chromosome, Chromosome), sh: Shape)
    requires i < |d| && AllWellFormed(d, sh) && WellFormed(children.0, sh) && WellFormed(children.1, sh)
    ensures AllWellFormed(Place(d, i, children), sh)
  {
  }

  /** Writing the same children into two lists that agree below slot `i`
      gives lists that agree below slot `i + 2`. */
  lemma PlaceAgrees(d1: seq<Chromosome>, d2: seq<Chromosome>, i: nat, children: (Chromosome, Chromosome))
    requires i < |d1| == |d2|
    requires forall j :: 0 <= j < i ==> d1[j] == d2[j]
    ensures forall j :: 0 <= j < i + 2 && j < |d1| ==> Place(d1, i, children)[j] == Place(d2, i, children)[j]
  {
  }

  /** One pass of breeding, unfolded to `BreedPair`. */
  lemma BreedRestPass(src: seq<Chromosome>, d: seq<Chromosome>, aliased: bool, fit: seq<real>, cfg: Config,
                      k: nat, ds: seq<Unit>)
    requires cfg.Valid() && |src| == |d| == |fit| == cfg.popSize && 2 * k < cfg.popSize
    ensures var p := BreedPair(if aliased then d else src, d, fit, cfg, 2 * k, ds);
      BreedRest(src, d, aliased, fit, cfg, k, ds) ==
        if p.Exhausted? then Exhausted else BreedRest(src, p.value, aliased, fit, cfg, k + 1, p.rest)
  {
    assert BreedRest(src, d, aliased, fit, cfg, k, ds) == BreedPass(src, d, aliased, fit, cfg, k, ds);
  }

  /** One pass of breeding, unfolded: the children are bred, written at
      slot `2 * k`, and the later passes continue from there. */
  lemma BreedRestStep(src: seq<Chromosome>, d: seq<Chromosome>, aliased: bool, fit: seq<real>, cfg: Config,
                      k: nat, ds: seq<Unit>)
    requires cfg.Valid() && |src| == |d| == |fit| == cfg.popSize && 2 * k < cfg.popSize
    ensures var c := Children(if aliased then d else src, fit, cfg, ds);
      BreedRest(src, d, aliased, fit, cfg, k, ds) ==
        if c.Exhausted? then Exhausted else BreedRest(src, Place(d, 2 * k, c.value), aliased, fit, cfg, k + 1, c.rest)
  {
    assert BreedRest(src, d, aliased, fit, cfg, k, ds) == BreedPass(src, d, aliased, fit, cfg, k, ds);
  }

  /** Without aliasing, passes `k` onwards write every slot from `2 * k`
      on, so the result depends only on the first `2 * k` slots of `d`. */
  lemma {:induction false} BreedRestOverwrites(src: seq<Chromosome>, d1: seq<Chromosome>, d2: seq<Chromosome>,
                                               fit: seq<real>, cfg: Config, k: nat, ds: seq<Unit>)
    requires cfg.Valid() && |src| == |d1| == |d2| == |fit| == cfg.popSize
    requires forall j :: 0 <= j < 2 * k && j < cfg.popSize ==> d1[j] == d2[j]
    ensures BreedRest(src, d1, false, fit, cfg, k, ds) == BreedRest(src, d2, false, fit, cfg, k, ds)
    decreases cfg.popSize + 1 - 2 * k
  {
    if 2 * k >= cfg.popSize {
      assert d1 == d2;
    } else {
      BreedRestStep(src, d1, false, fit, cfg, k, ds);
      BreedRestStep(src, d2, false, fit, cfg, k, ds);
      var c := Children(src, fit, cfg, ds);
      if c.Drawn? {
        PlaceAgrees(d1, d2, 2 * k, c.value);
        BreedRestOverwrites(src, Place(d1, 2 * k, c.value), Place(d2, 2 * k, c.value), fit, cfg, k + 1, c.rest);
      }
    }
  }

  /** Without aliasing, what `new_population` held before breeding is
      never read: every slot is bred anew from `population`. */
  lemma BreedingOverwrites(src: seq<Chromosome>, dst1: seq<Chromosome>, dst2: seq<Chromosome>, fit: seq<real>,
                           cfg: Config, ds: seq<Unit>)
    requires cfg.Valid() && |src| == |dst1| == |dst2| == |fit| == cfg.popSize
    ensures Breeding(src, dst1, false, fit, cfg, ds) == Breeding(src, dst2, false, fit, cfg, ds)
  {
    BreedRestOverwrites(src, dst1, dst2, fit, cfg, 0, ds);
  }

  /** A generation keeps the sizes, and the two lists stay one once they
      are one; a generation that does not complete changes nothing, and one
      that completes counts one more generation. */
  lemma GenerationConsistent(s: SearchState, cfg: Config, evaluate: Chromosome -> real, ds: seq<Unit>)
    requires Consistent(s, cfg)
    ensures var (outcome, s') := Generation(s, cfg, evaluate, ds);
      Consistent(s', cfg) &&
      (!outcome.Completed? ==> s' == s) &&
      (outcome.Completed? ==> s'.numGen == s.numGen + 1 && (s.aliased ==> s'.aliased))
  {
  }

  /** Well-formed populations stay well-formed. */
  lemma GenerationWellFormed(s: SearchState, cfg: Config, evaluate: Chromosome -> real, ds: seq<Unit>)
    requires Consistent(s, cfg)
    requires AllWellFormed(s.population, cfg.shape) && AllWellFormed(s.newPopulation, cfg.shape)
    ensures var s' := Generation(s, cfg, evaluate, ds).1;
      AllWellFormed(s'.population, cfg.shape) && AllWellFormed(s'.newPopulation, cfg.shape)
  {
  }

  /** Elitism: when `num_copies_to_insert <= pop_size`, a completed
      generation leaves one list whose first `num_copies_to_insert` entries
      are the individual of the old population at the best index, and when
      some fitness is positive that index is the first of maximal
      fitness. */
  lemma GenerationElitism(s: SearchState, cfg: Config, evaluate: Chromosome -> real, ds: seq<Unit>)
    requires Consistent(s, cfg) && cfg.numCopiesToInsert <= cfg.popSize
    ensures Generation(s, cfg, evaluate, ds).0.Completed? ==>
      var s' := Generation(s, cfg, evaluate, ds).1;
      var fit := Fitnesses(evaluate, s.population);
      var best := EvalScan(fit, |fit|, s.error, s.bestFitTotal).bestIndx;
      var m := Selection.ArgMax(fit);
      s'.aliased && s'.population == s'.newPopulation && best < |s.population| &&
      (forall i :: 0 <= i < cfg.numCopiesToInsert ==> s'.population[i] == s.population[best]) &&
      (fit[m] > 0.0 ==> best == m)
  {
    var fit := Fitnesses(evaluate, s.population);
    EvalScanMeaning(fit, |fit|, s.error, s.bestFitTotal);
    assert fit[..|fit|] == fit;
  }

  /** With `num_copies_to_insert > pop_size` and separate lists,
      `population` is never replaced: the bred list is left unused. */
  lemma GenerationNoElitismKeepsPopulation(s: SearchState, cfg: Config, evaluate: Chromosome -> real, ds: seq<Unit>)
    requires Consistent(s, cfg) && cfg.numCopiesToInsert > cfg.popSize && !s.aliased
    ensures Generation(s, cfg, evaluate, ds).1.population == s.population
    ensures !Generation(s, cfg, evaluate, ds).1.aliased
  {
  }

  /** The best index starts at 1 and is kept unless some fitness is
      positive, so with `pop_size == 1` and no positive fitness the
      generation stops on `population[best_indx]`. */
  lemma BestIndexPastEnd(s: SearchState, cfg: Config, evaluate: Chromosome -> real, ds: seq<Unit>)
    requires Consistent(s, cfg) && cfg.popSize == 1 && evaluate(s.population[0]) <= 0.0
    ensures Generation(s, cfg, evaluate, ds) == (BestIndexError, s)
  {
    var fit := Fitnesses(evaluate, s.population);
    assert EvalScan(fit, 1, s.error, s.bestFitTotal).bestIndx == 1;
  }
}
