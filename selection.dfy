/** Tournament selection: `tourn_size` entrants are drawn with replacement;
    then, while more than one entrant is left, the fittest remaining entrant
    is accepted with probability `tourn_prob` or else struck out.  The last
    entrant left is taken without a further draw.
 */
module Selection {
  import opened Draws

  /** `np.argmax`: the first index of a maximal entry. */
  function ArgMax(s: seq<real>): (i: nat)
    requires |s| >= 1
    ensures i < |s|
    ensures forall j :: 0 <= j < |s| ==> s[j] <= s[i]
    ensures forall j :: 0 <= j < i ==> s[j] < s[i]
  {
    if |s| == 1 then 0
    else
      var k := ArgMax(s[..|s| - 1]);
      if s[|s| - 1] > s[k] then |s| - 1 else k
  }

  /** `np.delete(s, i)`. */
  function Remove<T>(s: seq<T>, i: nat): (r: seq<T>)
    requires i < |s|
    ensures |r| == |s| - 1
    ensures forall j :: 0 <= j < i ==> r[j] == s[j]
    ensures forall j :: i <= j < |r| ==> r[j] == s[j + 1]
  {
    s[..i] + s[i + 1..]
  }

  /** The entrants: `int(np.random.rand() * pop_size)`, `tourn_size` times. */
  function DrawEntrants(popSize: nat, tournSize: nat, ds: seq<Unit>): (r: Draw<seq<nat>>)
    requires popSize >= 1
    ensures r.Drawn? <==> |ds| >= tournSize
    ensures r.Drawn? ==> |r.value| == tournSize && r.rest == ds[tournSize..]
    ensures r.Drawn? ==> forall i :: 0 <= i < tournSize ==> r.value[i] < popSize
  {
    if |ds| < tournSize then Exhausted
    else Drawn(seq(tournSize, i requires 0 <= i < tournSize => RandInt(ds[i], popSize) as nat), ds[tournSize..])
  }

  /** The `while` loop of `tournament_select` on the entrants `indx` still in
      the running and their fitness values `fit`. */
  function Contest(indx: seq<nat>, fit: seq<real>, tournProb: real, ds: seq<Unit>): (r: Draw<nat>)
    requires |indx| == |fit| >= 1
    decreases |indx|
  {
    if |indx| == 1 then Drawn(indx[0], ds)
    else if |ds| == 0 then Exhausted
    else
      var i := ArgMax(fit);
      if ds[0] < tournProb then Drawn(indx[i], ds[1..])
      else Contest(Remove(indx, i), Remove(fit, i), tournProb, ds[1..])
  }

  /** The fitness values of the entrants, `selected_fitness`. */
  function EntrantFitness(fitness: seq<real>, indx: seq<nat>): (s: seq<real>)
    requires forall i :: 0 <= i < |indx| ==> indx[i] < |fitness|
    ensures |s| == |indx| && forall i :: 0 <= i < |indx| ==> s[i] == fitness[indx[i]]
  {
    seq(|indx|, i requires 0 <= i < |indx| => fitness[indx[i]])
  }

  /** `tournament_select(population_fitness, tourn_prob, tourn_size)`. */
  function Tournament(fitness: seq<real>, tournProb: real, tournSize: nat, ds: seq<Unit>): (r: Draw<nat>)
    requires |fitness| >= 1 && tournSize >= 1
  {
    match DrawEntrants(|fitness|, tournSize, ds)
    case Exhausted => Exhausted
    case Drawn(indx, rest) => Contest(indx, EntrantFitness(fitness, indx), tournProb, rest)
  }

  /** The loop of `tournament_select` over `random_indx` and
      `selected_fitness`, which shrink by one entry per rejection. */
  method RunContest(indx0: seq<nat>, fit0: seq<real>, tournProb: real, ds: seq<Unit>) returns (res: Draw<nat>)
    requires |indx0| == |fit0| >= 1
    ensures res == Contest(indx0, fit0, tournProb, ds)
  {
    var randomIndx, selectedFitness := indx0, fit0;
    var rest := ds;
    var currentVecLen := |indx0|;
    var chromosomeSelected := false;
    var selectedIndx := 0;
    while currentVecLen > 1 && !chromosomeSelected
      invariant currentVecLen == |randomIndx| == |selectedFitness| >= 1
      invariant !chromosomeSelected ==> Contest(randomIndx, selectedFitness, tournProb, rest) == Contest(indx0, fit0, tournProb, ds)
      invariant chromosomeSelected ==> Drawn(selectedIndx, rest) == Contest(indx0, fit0, tournProb, ds)
      decreases currentVecLen, !chromosomeSelected
    {
      if |rest| == 0 {
        return Exhausted;
      }
      var rnd := rest[0];
      rest := rest[1..];
      var i := ArgMax(selectedFitness);
      if rnd < tournProb {
        selectedIndx := randomIndx[i];
        chromosomeSelected := true;
      } else {
        randomIndx := Remove(randomIndx, i);
        selectedFitness := Remove(selectedFitness, i);
        currentVecLen := currentVecLen - 1;
      }
    }
    if !chromosomeSelected {
      selectedIndx := randomIndx[0];
    }
    res := Drawn(selectedIndx, rest);
  }

  /** `tournament_select`: fill the entrant arrays, then run the contest. */
  method TournamentSelect(populationFitness: seq<real>, tournProb: real, tournSize: nat, ds: seq<Unit>)
    returns (res: Draw<nat>)
    requires |populationFitness| >= 1 && tournSize >= 1
    ensures res == Tournament(populationFitness, tournProb, tournSize, ds)
  {
    var popSize := |populationFitness|;
    if |ds| < tournSize {
      return Exhausted;
    }
    var randomIndx := new nat[tournSize];
    var selectedFitness := new real[tournSize];
    for i := 0 to tournSize
      invariant forall j :: 0 <= j < i ==> randomIndx[j] == RandInt(ds[j], popSize)
      invariant forall j :: 0 <= j < i ==> selectedFitness[j] == populationFitness[randomIndx[j]]
    {
      var indx := RandInt(ds[i], popSize);
      randomIndx[i] := indx;
      selectedFitness[i] := populationFitness[indx];
    }
    ghost var entrants := DrawEntrants(popSize, tournSize, ds);
    assert randomIndx[..] == entrants.value;
    assert selectedFitness[..] == EntrantFitness(populationFitness, entrants.value);
    res := RunContest(randomIndx[..], selectedFitness[..], tournProb, ds[tournSize..]);
  }

  // ---------------------------------------------------------------------
  // Properties

  /** The winner is one of the entrants still in the running, and every
      rejection uses one draw: at most `|indx| - 1` draws are read, and that
      many always suffice. */
  lemma {:induction false} ContestWinner(indx: seq<nat>, fit: seq<real>, tournProb: real, ds: seq<Unit>)
    requires |indx| == |fit| >= 1
    ensures |ds| >= |indx| - 1 ==> Contest(indx, fit, tournProb, ds).Drawn?
    ensures Contest(indx, fit, tournProb, ds).Drawn? ==>
      var r := Contest(indx, fit, tournProb, ds);
      r.value in indx && |ds| - (|indx| - 1) <= |r.rest| <= |ds|
  {
    if |indx| > 1 && |ds| > 0 {
      var i := ArgMax(fit);
      if !(ds[0] < tournProb) {
        ContestWinner(Remove(indx, i), Remove(fit, i), tournProb, ds[1..]);
        var r := Contest(indx, fit, tournProb, ds);
        if r.Drawn? {
          assert r.value in Remove(indx, i);
        }
      }
    }
  }

  /** The selected index is always a valid index into the population, and
      `2 * tourn_size - 1` draws always suffice. */
  lemma TournamentInRange(fitness: seq<real>, tournProb: real, tournSize: nat, ds: seq<Unit>)
    requires |fitness| >= 1 && tournSize >= 1
    ensures |ds| >= 2 * tournSize - 1 ==> Tournament(fitness, tournProb, tournSize, ds).Drawn?
    ensures Tournament(fitness, tournProb, tournSize, ds).Drawn? ==>
      var r := Tournament(fitness, tournProb, tournSize, ds);
      r.value < |fitness| && |ds| - |r.rest| <= 2 * tournSize - 1
  {
    var e := DrawEntrants(|fitness|, tournSize, ds);
    if e.Drawn? {
      ContestWinner(e.value, EntrantFitness(fitness, e.value), tournProb, e.rest);
    }
  }

  /** With one entrant the single drawn index is returned and no further
      draw is read. */
  lemma SingleEntrant(fitness: seq<real>, tournProb: real, ds: seq<Unit>)
    requires |fitness| >= 1 && |ds| >= 1
    ensures Tournament(fitness, tournProb, 1, ds) == Drawn(RandInt(ds[0], |fitness|) as nat, ds[1..])
  {
    var e := DrawEntrants(|fitness|, 1, ds);
    assert e.value == [RandInt(ds[0], |fitness|) as nat];
  }

  /** When every draw accepts (`tourn_prob >= 1`), the winner is the first
      entrant of maximal fitness. */
  lemma AlwaysAcceptFittest(indx: seq<nat>, fit: seq<real>, tournProb: real, ds: seq<Unit>)
    requires |indx| == |fit| >= 2 && |ds| >= 1 && tournProb >= 1.0
    ensures Contest(indx, fit, tournProb, ds).Drawn?
    ensures var w := Contest(indx, fit, tournProb, ds).value;
      exists i :: 0 <= i < |indx| && indx[i] == w &&
        (forall j :: 0 <= j < |fit| ==> fit[j] <= fit[i]) &&
        (forall j :: 0 <= j < i ==> fit[j] < fit[i])
  {
    var i := ArgMax(fit);
    assert indx[i] == Contest(indx, fit, tournProb, ds).value;
  }

  /** Entry `i` of `fit` is a minimal one. */
  predicate IsMin(fit: seq<real>, i: nat)
    requires i < |fit|
  {
    forall j :: 0 <= j < |fit| ==> fit[i] <= fit[j]
  }

  /** A minimum of what is left after striking out a maximum is a minimum
      of the whole. */
  lemma MinAfterRemove(fit: seq<real>, m: nat, i': nat)
    requires m < |fit| && i' < |fit| - 1
    requires forall j :: 0 <= j < |fit| ==> fit[j] <= fit[m]
    requires IsMin(Remove(fit, m), i')
    ensures var i := if i' < m then i' else i' + 1;
      i < |fit| && fit[i] == Remove(fit, m)[i'] && IsMin(fit, i)
  {
    var fit' := Remove(fit, m);
    var i := if i' < m then i' else i' + 1;
    forall j | 0 <= j < |fit|
      ensures fit[i] <= fit[j]
    {
      if j < m {
        assert fit[j] == fit'[j];
      } else if j > m {
        assert fit[j] == fit'[j - 1];
      }
    }
  }

  /** When no draw accepts (`tourn_prob <= 0`), every entrant but one is
      struck out fittest first, and the survivor has minimal fitness. */
  lemma {:induction false} NeverAcceptLeast(indx: seq<nat>, fit: seq<real>, tournProb: real, ds: seq<Unit>)
    requires |indx| == |fit| >= 1 && |ds| >= |indx| - 1 && tournProb <= 0.0
    ensures Contest(indx, fit, tournProb, ds).Drawn?
    ensures exists i :: 0 <= i < |indx| && indx[i] == Contest(indx, fit, tournProb, ds).value && IsMin(fit, i)
  {
    if |indx| == 1 {
      assert indx[0] == Contest(indx, fit, tournProb, ds).value && IsMin(fit, 0);
    } else {
      var m := ArgMax(fit);
      var indx', fit' := Remove(indx, m), Remove(fit, m);
      assert Contest(indx, fit, tournProb, ds) == Contest(indx', fit', tournProb, ds[1..]);
      NeverAcceptLeast(indx', fit', tournProb, ds[1..]);
      var i' :| 0 <= i' < |indx'| && indx'[i'] == Contest(indx', fit', tournProb, ds[1..]).value && IsMin(fit', i');
      MinAfterRemove(fit, m, i');
      var i := if i' < m then i' else i' + 1;
      assert indx[i] == indx'[i'];
    }
  }
}
