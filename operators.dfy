/** The variation operators: two-point crossover on whole instructions and
    per-field mutation with a redraw until the value changes.  Both take
    their parents as values, so the parents are never modified.
 */
module Operators {
  import opened Draws
  import opened Genome

  // ---------------------------------------------------------------------
  // Crossover

  /** The two cut points of one parent of `n` whole instructions:
      `np.random.randint(n + 1, size=2)` sorted and scaled to fields, or
      (0, 0) without a draw when the parent has no whole instruction. */
  function CutPoints(n: nat, ds: seq<Unit>): (r: Draw<(nat, nat)>)
    ensures r.Drawn? <==> n == 0 || |ds| >= 2
    ensures r.Drawn? ==> var (lo, hi) := r.value;
      lo % 4 == 0 && hi % 4 == 0 && lo <= hi <= 4 * n
    ensures r.Drawn? ==> r.rest == if n == 0 then ds else ds[2..]
  {
    if n == 0 then Drawn((0, 0), ds)
    else if |ds| < 2 then Exhausted
    else
      var a, b := RandInt(ds[0], n + 1), RandInt(ds[1], n + 1);
      var lo, hi := if a <= b then a else b, if a <= b then b else a;
      Drawn((4 * lo, 4 * hi), ds[2..])
  }

  /** The child that keeps the ends of `keep` and takes the middle of `give`. */
  function Splice(keep: Chromosome, give: Chromosome, keepCuts: (nat, nat), giveCuts: (nat, nat)): (r: Chromosome)
    requires keepCuts.0 <= keepCuts.1 <= |keep| && giveCuts.0 <= giveCuts.1 <= |give|
    ensures |r| == |keep| - (keepCuts.1 - keepCuts.0) + (giveCuts.1 - giveCuts.0)
    ensures r[..keepCuts.0] == keep[..keepCuts.0]
    ensures r[keepCuts.0..keepCuts.0 + (giveCuts.1 - giveCuts.0)] == give[giveCuts.0..giveCuts.1]
    ensures r[keepCuts.0 + (giveCuts.1 - giveCuts.0)..] == keep[keepCuts.1..]
  {
    keep[..keepCuts.0] + give[giveCuts.0..giveCuts.1] + keep[keepCuts.1..]
  }

  /** The truncation applied when `max_length > 0`. */
  function Truncate(c: Chromosome, maxLength: int): (r: Chromosome)
    ensures maxLength > 0 ==> |r| <= maxLength
    ensures maxLength <= 0 ==> r == c
    ensures |r| <= |c| && r == c[..|r|]
    ensures |c| <= maxLength ==> r == c
  {
    if maxLength > 0 && |c| > maxLength then c[..maxLength] else c
  }

  /** The draws `CutPoints` reads for a parent of `n` instructions. */
  function CutDraws(n: nat): nat {
    if n == 0 then 0 else 2
  }

  /** `crossover(chrom1, chrom2, max_instructions)`: the two children and
      the draws left.  Each parent with an instruction costs two draws. */
  function Crossover(c1: Chromosome, c2: Chromosome, maxInstructions: int, ds: seq<Unit>)
    : (r: Draw<(Chromosome, Chromosome)>)
    ensures var need := CutDraws(NumInstructions(c1)) + CutDraws(NumInstructions(c2));
      (r.Drawn? <==> need <= |ds|) && (r.Drawn? ==> r.rest == ds[need..])
  {
    match CutPoints(NumInstructions(c1), ds)
    case Exhausted => Exhausted
    case Drawn(cuts1, rest1) =>
      match CutPoints(NumInstructions(c2), rest1)
      case Exhausted => Exhausted
      case Drawn(cuts2, rest2) =>
        var maxLength := maxInstructions * 4;
        Drawn((Truncate(Splice(c1, c2, cuts1, cuts2), maxLength),
               Truncate(Splice(c2, c1, cuts2, cuts1), maxLength)), rest2)
  }

  /** The two children before truncation exchange the middle segments, so
      together they hold exactly the fields of the parents. */
  lemma SpliceConserves(c1: Chromosome, c2: Chromosome, cuts1: (nat, nat), cuts2: (nat, nat))
    requires cuts1.0 <= cuts1.1 <= |c1| && cuts2.0 <= cuts2.1 <= |c2|
    ensures |Splice(c1, c2, cuts1, cuts2)| + |Splice(c2, c1, cuts2, cuts1)| == |c1| + |c2|
    ensures multiset(Splice(c1, c2, cuts1, cuts2)) + multiset(Splice(c2, c1, cuts2, cuts1)) ==
            multiset(c1) + multiset(c2)
  {
    assert c1 == c1[..cuts1.0] + c1[cuts1.0..cuts1.1] + c1[cuts1.1..];
    assert c2 == c2[..cuts2.0] + c2[cuts2.0..cuts2.1] + c2[cuts2.1..];
  }

  /** Moving a field from offset `from` to offset `to`, both whole
      instructions, keeps its role. */
  lemma Realign(j: int, from: int, to: int)
    requires from % 4 == 0 && to % 4 == 0
    ensures (j - from + to) % 4 == j % 4
  {
    var p, q := from / 4, to / 4;
    assert from == 4 * p && to == 4 * q;
    RoleShift(j, q - p);
    assert j - from + to == j + 4 * (q - p);
  }

  /** A field of a well-formed chromosome lies in the domain of its role,
      and so of any position with the same role. */
  lemma FieldInDomain(c: Chromosome, sh: Shape, i: nat, j: nat)
    requires WellFormed(c, sh) && i < |c| && i % 4 == j % 4
    ensures 0 <= c[i] < sh.Domain(j % 4)
  {
  }

  /** Field `j` of a splice comes from a field of the same role in one of
      the parents. */
  lemma SpliceField(keep: Chromosome, give: Chromosome, keepCuts: (nat, nat), giveCuts: (nat, nat), sh: Shape, j: nat)
    requires keepCuts.0 <= keepCuts.1 <= |keep| && giveCuts.0 <= giveCuts.1 <= |give|
    requires keepCuts.0 % 4 == 0 && keepCuts.1 % 4 == 0 && giveCuts.0 % 4 == 0 && giveCuts.1 % 4 == 0
    requires WellFormed(keep, sh) && WellFormed(give, sh)
    requires j < |Splice(keep, give, keepCuts, giveCuts)|
    ensures 0 <= Splice(keep, give, keepCuts, giveCuts)[j] < sh.Domain(j % 4)
  {
    var s := Splice(keep, give, keepCuts, giveCuts);
    var (lo, hi) := keepCuts;
    var (glo, ghi) := giveCuts;
    var mid := ghi - glo;
    if j < lo {
      assert s[j] == keep[j];
      FieldInDomain(keep, sh, j, j);
    } else if j < lo + mid {
      var i := j - lo + glo;
      assert s[j] == give[i];
      Realign(j, lo, glo);
      FieldInDomain(give, sh, i, j);
    } else {
      var i := j - (lo + mid) + hi;
      assert s[j] == keep[i];
      var m := hi / 4 - lo / 4 - ghi / 4 + glo / 4;
      assert i == j + 4 * m;
      RoleShift(j, m);
      FieldInDomain(keep, sh, i, j);
    }
  }

  /** Splicing at whole-instruction cut points keeps every field in its
      role, so well-formed parents give well-formed children. */
  lemma SpliceWellFormed(keep: Chromosome, give: Chromosome, keepCuts: (nat, nat), giveCuts: (nat, nat), sh: Shape)
    requires keepCuts.0 <= keepCuts.1 <= |keep| && giveCuts.0 <= giveCuts.1 <= |give|
    requires keepCuts.0 % 4 == 0 && keepCuts.1 % 4 == 0 && giveCuts.0 % 4 == 0 && giveCuts.1 % 4 == 0
    requires WellFormed(keep, sh) && WellFormed(give, sh)
    ensures WellFormed(Splice(keep, give, keepCuts, giveCuts), sh)
  {
    var s := Splice(keep, give, keepCuts, giveCuts);
    assert |s| == keepCuts.0 + (giveCuts.1 - giveCuts.0) + (|keep| - keepCuts.1);
    forall j | 0 <= j < |s|
      ensures 0 <= s[j] < sh.Domain(j % 4)
    {
      SpliceField(keep, give, keepCuts, giveCuts, sh, j);
    }
  }

  /** Cutting a well-formed chromosome at a multiple of 4 keeps it
      well-formed. */
  lemma TruncateWellFormed(c: Chromosome, maxInstructions: int, sh: Shape)
    requires WellFormed(c, sh)
    ensures WellFormed(Truncate(c, maxInstructions * 4), sh)
  {
  }

  /** The crossover promises: both children are at most `4 * max_instructions`
      long when that is positive and untruncated otherwise; before truncation
      their lengths add up to the parents'; child 1 begins with parent 1 up to
      its first cut point; well-formed parents give well-formed children; two
      draws per parent with a whole instruction suffice. */
  lemma CrossoverProperties(c1: Chromosome, c2: Chromosome, maxInstructions: int, ds: seq<Unit>, sh: Shape)
    ensures |ds| >= 4 ==> Crossover(c1, c2, maxInstructions, ds).Drawn?
    ensures Crossover(c1, c2, maxInstructions, ds).Drawn? ==>
      var (child1, child2) := Crossover(c1, c2, maxInstructions, ds).value;
      var cuts1 := CutPoints(NumInstructions(c1), ds).value;
      var cuts2 := CutPoints(NumInstructions(c2), CutPoints(NumInstructions(c1), ds).rest).value;
      (maxInstructions > 0 ==> |child1| <= 4 * maxInstructions && |child2| <= 4 * maxInstructions) &&
      (maxInstructions <= 0 ==> child1 == Splice(c1, c2, cuts1, cuts2) && child2 == Splice(c2, c1, cuts2, cuts1)) &&
      |Splice(c1, c2, cuts1, cuts2)| + |Splice(c2, c1, cuts2, cuts1)| == |c1| + |c2| &&
      (forall j :: 0 <= j < cuts1.0 && j < |child1| ==> child1[j] == c1[j]) &&
      (WellFormed(c1, sh) && WellFormed(c2, sh) ==> WellFormed(child1, sh) && WellFormed(child2, sh))
  {
    var r := Crossover(c1, c2, maxInstructions, ds);
    if r.Drawn? {
      var cuts1 := CutPoints(NumInstructions(c1), ds).value;
      var cuts2 := CutPoints(NumInstructions(c2), CutPoints(NumInstructions(c1), ds).rest).value;
      SpliceConserves(c1, c2, cuts1, cuts2);
      if WellFormed(c1, sh) && WellFormed(c2, sh) {
        SpliceWellFormed(c1, c2, cuts1, cuts2, sh);
        SpliceWellFormed(c2, c1, cuts2, cuts1, sh);
        TruncateWellFormed(Splice(c1, c2, cuts1, cuts2), maxInstructions, sh);
        TruncateWellFormed(Splice(c2, c1, cuts2, cuts1), maxInstructions, sh);
      }
    }
  }

  // ---------------------------------------------------------------------
  // Mutation

  /** The redraw loop: `randint(n)` until it differs from `prev`.  On a
      finite stream of draws the loop can run out. */
  function Redraw(prev: int, n: nat, ds: seq<Unit>): (r: Draw<int>)
    requires n >= 1
    ensures r.Drawn? ==> r.value != prev && 0 <= r.value < n && |r.rest| < |ds|
    decreases |ds|
  {
    if |ds| == 0 then Exhausted
    else
      var v := RandInt(ds[0], n);
      if v == prev then Redraw(prev, n, ds[1..]) else Drawn(v, ds[1..])
  }

  /** One pass of the loop of `mutate` at field `i`: the decision draw, and
      on acceptance a fresh value for the field's role that differs from the
      parent's. */
  function MutateField(c: Chromosome, m: Chromosome, i: nat, mutateProb: real, sh: Shape, ds: seq<Unit>)
    : (r: Draw<Chromosome>)
    requires sh.Valid() && i < |c| == |m|
  {
    if |ds| == 0 then Exhausted
    else if ds[0] < mutateProb then
      match Redraw(c[i], sh.Domain(i % 4), ds[1..])
      case Exhausted => Exhausted
      case Drawn(v, rest) => Drawn(m[i := v], rest)
    else Drawn(m, ds[1..])
  }

  /** The mutated copy after the first `k` fields were visited. */
  function MutatePrefix(c: Chromosome, k: nat, mutateProb: real, sh: Shape, ds: seq<Unit>): (r: Draw<Chromosome>)
    requires sh.Valid() && k <= |c|
    ensures r.Drawn? ==> |r.value| == |c|
  {
    if k == 0 then Drawn(c, ds)
    else
      match MutatePrefix(c, k - 1, mutateProb, sh, ds)
      case Exhausted => Exhausted
      case Drawn(m, rest) => MutateField(c, m, k - 1, mutateProb, sh, rest)
  }

  /** `mutate(chromosome, mutate_prob, num_operators, num_var_reg, num_const_reg)`. */
  function Mutate(c: Chromosome, mutateProb: real, sh: Shape, ds: seq<Unit>): Draw<Chromosome>
    requires sh.Valid()
  {
    MutatePrefix(c, |c|, mutateProb, sh, ds)
  }

  /** The `while new_val == prev_val` loop. */
  method RedrawValue(prev: int, n: nat, ds: seq<Unit>) returns (res: Draw<int>)
    requires n >= 1
    ensures res == Redraw(prev, n, ds)
  {
    if |ds| == 0 {
      return Exhausted;
    }
    var newVal := RandInt(ds[0], n);
    var rest := ds[1..];
    while newVal == prev
      invariant Redraw(prev, n, ds) == (if newVal == prev then Redraw(prev, n, rest) else Drawn(newVal, rest))
      decreases |rest|
    {
      if |rest| == 0 {
        return Exhausted;
      }
      newVal := RandInt(rest[0], n);
      rest := rest[1..];
    }
    res := Drawn(newVal, rest);
  }

  /** `mutate`: a copy of the chromosome rewritten field by field. */
  method MutateChromosome(chromosome: Chromosome, mutateProb: real, sh: Shape, ds: seq<Unit>)
    returns (res: Draw<Chromosome>)
    requires sh.Valid()
    ensures res == Mutate(chromosome, mutateProb, sh, ds)
  {
    var numGenes := |chromosome|;
    var mutated := new int[numGenes](j requires 0 <= j < numGenes => chromosome[j]);
    assert mutated[..] == chromosome;
    var rest := ds;
    for i := 0 to numGenes
      invariant MutatePrefix(chromosome, i, mutateProb, sh, ds) == Drawn(mutated[..], rest)
    {
      if |rest| == 0 {
        MutateExhausted(chromosome, i + 1, numGenes, mutateProb, sh, ds);
        return Exhausted;
      }
      var r := rest[0];
      rest := rest[1..];
      if r < mutateProb {
        var currGenome := i % 4;
        var prevVal := chromosome[i];
        var newVal := RedrawValue(prevVal, sh.Domain(currGenome), rest);
        if newVal.Exhausted? {
          MutateExhausted(chromosome, i + 1, numGenes, mutateProb, sh, ds);
          return Exhausted;
        }
        mutated[i] := newVal.value;
        rest := newVal.rest;
      }
    }
    res := Drawn(mutated[..], rest);
  }

  /** Once the stream runs out, mutating more fields fails too. */
  lemma {:induction false} MutateExhausted(c: Chromosome, k: nat, n: nat, mutateProb: real, sh: Shape, ds: seq<Unit>)
    requires sh.Valid() && k <= n <= |c|
    requires MutatePrefix(c, k, mutateProb, sh, ds).Exhausted?
    ensures MutatePrefix(c, n, mutateProb, sh, ds).Exhausted?
  {
    if k < n {
      MutateExhausted(c, k, n - 1, mutateProb, sh, ds);
    }
  }

  /** Every visited field either keeps the parent's value or holds a new
      value of its role's domain that differs from the parent's; fields not
      yet visited are the parent's. */
  lemma {:induction false} MutatePrefixFields(c: Chromosome, k: nat, mutateProb: real, sh: Shape, ds: seq<Unit>)
    requires sh.Valid() && k <= |c|
    ensures MutatePrefix(c, k, mutateProb, sh, ds).Drawn? ==>
      var m := MutatePrefix(c, k, mutateProb, sh, ds).value;
      (forall j :: k <= j < |c| ==> m[j] == c[j]) &&
      (forall j :: 0 <= j < k && m[j] != c[j] ==> 0 <= m[j] < sh.Domain(j % 4))
  {
    if k > 0 {
      MutatePrefixFields(c, k - 1, mutateProb, sh, ds);
    }
  }

  /** Mutation keeps the length, changes a field only to a different value
      of its role's domain, and so keeps a well-formed chromosome
      well-formed. */
  lemma MutateProperties(c: Chromosome, mutateProb: real, sh: Shape, ds: seq<Unit>)
    requires sh.Valid()
    ensures Mutate(c, mutateProb, sh, ds).Drawn? ==>
      var m := Mutate(c, mutateProb, sh, ds).value;
      |m| == |c| &&
      (forall j :: 0 <= j < |c| && m[j] != c[j] ==> 0 <= m[j] < sh.Domain(j % 4)) &&
      (WellFormed(c, sh) ==> WellFormed(m, sh))
  {
    MutatePrefixFields(c, |c|, mutateProb, sh, ds);
  }

  /** A field whose decision draw is not below `mutate_prob` keeps its value
      and uses that one draw; a field whose decision draw is below it gets a
      value different from the parent's. */
  lemma MutateFieldDecision(c: Chromosome, k: nat, mutateProb: real, sh: Shape, ds: seq<Unit>)
    requires sh.Valid() && k < |c|
    requires MutatePrefix(c, k, mutateProb, sh, ds).Drawn?
    requires |MutatePrefix(c, k, mutateProb, sh, ds).rest| > 0
    ensures var before := MutatePrefix(c, k, mutateProb, sh, ds);
      var after := MutatePrefix(c, k + 1, mutateProb, sh, ds);
      (before.rest[0] >= mutateProb ==> after == Drawn(before.value, before.rest[1..])) &&
      (before.rest[0] < mutateProb && after.Drawn? ==> after.value[k] != c[k] && after.value[..k] == before.value[..k])
  {
  }

  /** With `mutate_prob <= 0` no field changes and one draw per field is read. */
  lemma {:induction false} NoMutation(c: Chromosome, k: nat, mutateProb: real, sh: Shape, ds: seq<Unit>)
    requires sh.Valid() && k <= |c| && mutateProb <= 0.0 && |ds| >= k
    ensures MutatePrefix(c, k, mutateProb, sh, ds) == Drawn(c, ds[k..])
  {
    if k > 0 {
      NoMutation(c, k - 1, mutateProb, sh, ds);
      assert ds[k - 1..][1..] == ds[k..];
    }
  }

  /** A role whose domain has a single value cannot be mutated: the value 0
      is redrawn forever, which on any finite stream runs out. */
  lemma {:induction false} SingleValueDomainNeverEnds(ds: seq<Unit>)
    ensures Redraw(0, 1, ds).Exhausted?
    decreases |ds|
  {
    if |ds| > 0 {
      SingleValueDomainNeverEnds(ds[1..]);
    }
  }
}
