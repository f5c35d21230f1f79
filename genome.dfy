/** The genome of linear genetic programming: a flat list of integers in which
    every four consecutive fields form one instruction
    (opcode, destination register, operand 1, operand 2), and the random
    initial population built from such lists.
 */
module Genome {
  import opened Draws

  /** A chromosome: fields of whole instructions, possibly followed by a
      partial instruction that every reader ignores. */
  type Chromosome = seq<int>

  datatype Instruction = Instruction(op: int, dest: int, src1: int, src2: int)

  /** Register and operator counts that decide the legal value of each field. */
  datatype Shape = Shape(numOperators: nat, numVarReg: nat, numConstReg: nat)
  {
    /** Operands are drawn from the variable and constant registers together. */
    function TotalRegisters(): nat {
      numVarReg + numConstReg
    }

    /** `np.random.randint` refuses an empty range, so every field role
        needs at least one legal value. */
    predicate Valid() {
      numOperators >= 1 && numVarReg >= 1
    }

    /** Number of legal values of a field whose position is `i` modulo 4:
        role 0 is the opcode, role 1 the destination, roles 2 and 3 operands. */
    function Domain(role: nat): nat {
      if role == 0 then numOperators
      else if role == 1 then numVarReg
      else TotalRegisters()
    }
  }

  /** Shifting a position by whole instructions keeps its field role. */
  lemma RoleShift(j: int, m: int)
    ensures (j + 4 * m) % 4 == j % 4
  {
  }

  /** The four fields of instruction `j` have the four roles in order. */
  lemma FieldRoles(j: nat)
    ensures (4 * j) % 4 == 0 && (4 * j + 1) % 4 == 1 && (4 * j + 2) % 4 == 2 && (4 * j + 3) % 4 == 3
  {
    RoleShift(0, j);
    RoleShift(1, j);
    RoleShift(2, j);
    RoleShift(3, j);
  }

  /** Number of whole instructions, `int(len / 4)`. */
  function NumInstructions(c: Chromosome): nat {
    |c| / 4
  }

  /** The `k`-th whole instruction of `c`. */
  function InstructionAt(c: Chromosome, k: nat): (ins: Instruction)
    requires k < NumInstructions(c)
    ensures ins.op == c[4 * k] && ins.dest == c[4 * k + 1]
    ensures ins.src1 == c[4 * k + 2] && ins.src2 == c[4 * k + 3]
  {
    var s := 4 * k;
    Instruction(c[s], c[s + 1], c[s + 2], c[s + 3])
  }

  /** Every field lies in the domain of its role and there is no partial
      instruction: what population initialisation, crossover and mutation
      are meant to produce. */
  predicate WellFormed(c: Chromosome, sh: Shape) {
    |c| % 4 == 0 &&
    forall j :: 0 <= j < |c| ==> 0 <= c[j] < sh.Domain(j % 4)
  }

  /** The fields of `k` random instructions, drawn front to back as the
      initialisation loop fills `individual`: field `f` is the draw `f`
      scaled to the domain of its role. */
  function RandomInstructions(k: nat, sh: Shape, ds: seq<Unit>): (r: Draw<Chromosome>)
    requires sh.Valid()
    ensures r.Drawn? <==> |ds| >= 4 * k
    ensures r.Drawn? ==> |r.value| == 4 * k && r.rest == ds[4 * k..]
  {
    if |ds| < 4 * k then Exhausted
    else Drawn(seq(4 * k, f requires 0 <= f < 4 * k => RandInt(ds[f], sh.Domain(f % 4))), ds[4 * k..])
  }

  /** One individual: draw its instruction count in 1..max_starting_instructions,
      then its instructions. */
  function RandomIndividual(maxStart: nat, sh: Shape, ds: seq<Unit>): (r: Draw<Chromosome>)
    requires maxStart >= 1 && sh.Valid()
  {
    if |ds| == 0 then Exhausted
    else RandomInstructions(1 + RandInt(ds[0], maxStart), sh, ds[1..])
  }

  /** One more individual appended to a partial population. */
  function AddIndividual(prev: Draw<seq<Chromosome>>, maxStart: nat, sh: Shape): (r: Draw<seq<Chromosome>>)
    requires maxStart >= 1 && sh.Valid()
  {
    match prev
    case Exhausted => Exhausted
    case Drawn(pop, rest) =>
      match RandomIndividual(maxStart, sh, rest)
      case Exhausted => Exhausted
      case Drawn(c, rest') => Drawn(pop + [c], rest')
  }

  /** The first `n` individuals of the initial population and the draws left. */
  function InitSpec(n: nat, maxStart: nat, sh: Shape, ds: seq<Unit>): (r: Draw<seq<Chromosome>>)
    requires maxStart >= 1 && sh.Valid()
  {
    if n == 0 then Drawn([], ds)
    else AddIndividual(InitSpec(n - 1, maxStart, sh, ds), maxStart, sh)
  }

  /** Once the stream runs out, every longer prefix of the population fails too. */
  lemma {:induction false} InitSpecExhausted(k: nat, n: nat, maxStart: nat, sh: Shape, ds: seq<Unit>)
    requires maxStart >= 1 && sh.Valid()
    requires k <= n && InitSpec(k, maxStart, sh, ds).Exhausted?
    ensures InitSpec(n, maxStart, sh, ds).Exhausted?
  {
    if k < n {
      InitSpecExhausted(k, n - 1, maxStart, sh, ds);
    }
  }

  /** The inner loop of `init_population`: a zero-filled list of
      `4 * numInstructions` fields, filled instruction by instruction. */
  method FillIndividual(numInstructions: nat, sh: Shape, ds: seq<Unit>) returns (fields: Chromosome)
    requires sh.Valid() && |ds| >= 4 * numInstructions
    ensures fields == RandomInstructions(numInstructions, sh, ds).value
  {
    var individual := new int[4 * numInstructions](_ => 0);
    for j := 0 to numInstructions
      invariant forall f :: 0 <= f < 4 * j ==> individual[f] == RandInt(ds[f], sh.Domain(f % 4))
    {
      var start := 4 * j;
      FieldRoles(j);
      ghost var before := individual[..];
      individual[start] := RandInt(ds[start], sh.numOperators);
      individual[start + 1] := RandInt(ds[start + 1], sh.numVarReg);
      individual[start + 2] := RandInt(ds[start + 2], sh.TotalRegisters());
      individual[start + 3] := RandInt(ds[start + 3], sh.TotalRegisters());
      forall f | 0 <= f < start + 4
        ensures individual[f] == RandInt(ds[f], sh.Domain(f % 4))
      {
        if f < start {
          assert individual[f] == before[f];
        }
      }
    }
    fields := individual[..];
    assert forall f :: 0 <= f < 4 * numInstructions ==> fields[f] == individual[f];
  }

  /** One pass of the outer loop of `init_population`: draw the instruction
      count, then fill the individual. */
  method NewIndividual(maxStart: nat, sh: Shape, ds: seq<Unit>) returns (res: Draw<Chromosome>)
    requires maxStart >= 1 && sh.Valid()
    ensures res == RandomIndividual(maxStart, sh, ds)
  {
    if |ds| == 0 {
      return Exhausted;
    }
    var numInstructions := 1 + RandInt(ds[0], maxStart);
    var rest := ds[1..];
    if |rest| < 4 * numInstructions {
      return Exhausted;
    }
    var individual := FillIndividual(numInstructions, sh, rest);
    res := Drawn(individual, rest[4 * numInstructions..]);
  }

  /** `init_population`: `size` individuals, appended one by one. */
  method InitPopulation(size: nat, maxStart: nat, sh: Shape, ds: seq<Unit>)
    returns (res: Draw<seq<Chromosome>>)
    requires maxStart >= 1 && sh.Valid()
    ensures res == InitSpec(size, maxStart, sh, ds)
  {
    var population: seq<Chromosome> := [];
    var rest := ds;
    for i := 0 to size
      invariant InitSpec(i, maxStart, sh, ds) == Drawn(population, rest)
    {
      var individual := NewIndividual(maxStart, sh, rest);
      assert InitSpec(i + 1, maxStart, sh, ds) == AddIndividual(Drawn(population, rest), maxStart, sh);
      if individual.Exhausted? {
        InitSpecExhausted(i + 1, size, maxStart, sh, ds);
        return Exhausted;
      }
      population := population + [individual.value];
      rest := individual.rest;
    }
    res := Drawn(population, rest);
  }

  /** Every individual has 1 to `max_starting_instructions` well-formed
      instructions, and 1 + 4 * max_starting_instructions draws suffice for it. */
  lemma RandomIndividualShape(maxStart: nat, sh: Shape, ds: seq<Unit>)
    requires maxStart >= 1 && sh.Valid()
    ensures |ds| >= 1 + 4 * maxStart ==> RandomIndividual(maxStart, sh, ds).Drawn?
    ensures RandomIndividual(maxStart, sh, ds).Drawn? ==>
      var r := RandomIndividual(maxStart, sh, ds);
      WellFormed(r.value, sh) && 1 <= NumInstructions(r.value) <= maxStart &&
      |ds| - |r.rest| <= 1 + 4 * maxStart
  {
    if |ds| > 0 {
      var k := 1 + RandInt(ds[0], maxStart);
      var r := RandomInstructions(k, sh, ds[1..]);
      if r.Drawn? {
        assert NumInstructions(r.value) == k;
        assert WellFormed(r.value, sh);
      }
    }
  }

  /** The initial population has `size` well-formed individuals of 1 to
      `max_starting_instructions` instructions. */
  lemma {:induction false} InitPopulationShape(n: nat, maxStart: nat, sh: Shape, ds: seq<Unit>)
    requires maxStart >= 1 && sh.Valid()
    ensures InitSpec(n, maxStart, sh, ds).Drawn? ==>
      var pop := InitSpec(n, maxStart, sh, ds).value;
      |pop| == n &&
      forall c :: c in pop ==> WellFormed(c, sh) && 1 <= NumInstructions(c) <= maxStart
  {
    if n > 0 {
      InitPopulationShape(n - 1, maxStart, sh, ds);
      match InitSpec(n - 1, maxStart, sh, ds)
      case Exhausted =>
      case Drawn(pop, rest) =>
        RandomIndividualShape(maxStart, sh, rest);
    }
  }

  /** A stream of size * (1 + 4 * max_starting_instructions) draws always
      suffices to build the initial population. */
  lemma {:induction false} InitPopulationDraws(n: nat, maxStart: nat, sh: Shape, ds: seq<Unit>)
    requires maxStart >= 1 && sh.Valid()
    ensures |ds| >= n * (1 + 4 * maxStart) ==> InitSpec(n, maxStart, sh, ds).Drawn?
    ensures InitSpec(n, maxStart, sh, ds).Drawn? ==>
      |ds| - |InitSpec(n, maxStart, sh, ds).rest| <= n * (1 + 4 * maxStart)
  {
    if n > 0 {
      InitPopulationDraws(n - 1, maxStart, sh, ds);
      var step := 1 + 4 * maxStart;
      assert n * step == (n - 1) * step + step;
      match InitSpec(n - 1, maxStart, sh, ds)
      case Exhausted =>
      case Drawn(pop, rest) =>
        RandomIndividualShape(maxStart, sh, rest);
    }
  }
}
