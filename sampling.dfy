/**
 * The non-DOM part of `displayMolecule`: draw a candidate with
 * `weightedRandom(moleculeComposition)`, reject it while its count has reached
 * its population, otherwise increment its count and form the line of text.
 */
module Sampling {
  import opened Wrappers
  import opened Atmosphere
  import opened Decimal
  import WeightedPick

  const Infix: string := " molecule #"

  /** `readableNames[m] + " molecule #" + airCount[m]`. */
  function MoleculeText(m: Molecule, count: nat): (s: string)
    ensures |s| == |ReadableName(m)| + |Infix| + |DecimalString(count)|
    ensures s[..|ReadableName(m)|] == ReadableName(m)
    ensures s[|ReadableName(m)|..|ReadableName(m)| + |Infix|] == Infix
    ensures s[|ReadableName(m)| + |Infix|..] == DecimalString(count)
    ensures DecimalValue(s[|ReadableName(m)| + |Infix|..]) == count
  {
    DecimalRoundTrip(count);
    assert (ReadableName(m) + Infix + DecimalString(count))[|ReadableName(m)| + |Infix|..] == DecimalString(count);
    ReadableName(m) + Infix + DecimalString(count)
  }

  /** The only '#' in a line sits right after the name and " molecule ". */
  lemma HashPosition(m: Molecule, count: nat, i: nat)
    requires i < |MoleculeText(m, count)|
    ensures MoleculeText(m, count)[i] == '#' <==> i == |ReadableName(m)| + 10
  {
    var name, digits := ReadableName(m), DecimalString(count);
    NamesDistinct(m, m);
    if i < |name| {
      assert MoleculeText(m, count)[i] == name[i];
      assert IsNameChar(name[i]);
    } else if i < |name| + |Infix| {
      assert MoleculeText(m, count)[i] == Infix[i - |name|];
    } else {
      assert MoleculeText(m, count)[i] == digits[i - |name| - |Infix|];
      assert IsDigit(digits[i - |name| - |Infix|]);
    }
  }

  /** A line of output names exactly one molecule and one ordinal. */
  lemma TextDetermines(m1: Molecule, c1: nat, m2: Molecule, c2: nat)
    requires MoleculeText(m1, c1) == MoleculeText(m2, c2)
    ensures m1 == m2 && c1 == c2
  {
    var s := MoleculeText(m1, c1);
    var p1, p2 := |ReadableName(m1)| + 10, |ReadableName(m2)| + 10;
    HashPosition(m1, c1, p1);
    HashPosition(m2, c2, p1);
    assert p1 == p2;
    assert ReadableName(m1) == s[..|ReadableName(m1)|] == ReadableName(m2);
    NamesDistinct(m1, m2);
    assert DecimalString(c1) == s[p1 + 1..] == DecimalString(c2);
    DecimalInjective(c1, c2);
  }

  /** `Order` is the `Object.keys` order of any table keyed by all nine molecules. */
  lemma KeyOrder(table: map<Molecule, int>)
    requires forall m: Molecule :: m in table
    ensures WeightedPick.IsKeyOrder(Order, table)
  {
    forall m: Molecule ensures m in Order {
      OrderEnumerates(m);
    }
    OrderEnumerates(Nitrogen);
  }

  /**
   * The sampler's state: `moleculeComposition` (fixed after start-up) and the
   * `airCount` map that `displayMolecule` updates in place.
   */
  class Sampler {
    const population: map<Molecule, nat>
    var airCount: map<Molecule, nat>

    /** Every molecule has a population and a count, and no count exceeds its population. */
    ghost predicate Valid()
      reads this
    {
      && (forall m: Molecule :: m in population && m in airCount)
      && (forall m :: m in airCount ==> airCount[m] <= population[m])
    }

    /** Lines 17-27: every count starts at zero. */
    constructor (population: map<Molecule, nat>)
      requires forall m: Molecule :: m in population
      ensures Valid()
      ensures this.population == population
      ensures forall m: Molecule :: m in airCount && airCount[m] == 0
    {
      this.population := population;
      airCount := map m: Molecule | m in population :: 0;
    }

    /**
     * One pass of the rejection loop for candidate `m`: when its count equals
     * its population nothing changes and no text is formed; otherwise exactly
     * that count grows by one and the text carries the new count as ordinal.
     */
    method Offer(m: Molecule) returns (text: Option<string>)
      requires Valid()
      modifies this
      ensures Valid()
      ensures old(airCount[m]) == population[m] ==> text == None && airCount == old(airCount)
      ensures old(airCount[m]) < population[m] ==>
        && airCount == old(airCount)[m := old(airCount[m]) + 1]
        && text == Some(MoleculeText(m, old(airCount[m]) + 1))
    {
      var limitReached := airCount[m] == population[m];
      if limitReached {
        text := None;
      } else {
        airCount := airCount[m := airCount[m] + 1];
        text := Some(MoleculeText(m, airCount[m]));
      }
    }

    /** The populations in `Object.keys` order, the weights of every draw. */
    function Weights(): seq<int>
      reads this
      requires Valid()
    {
      WeightedPick.InOrder(Order, population)
    }

    /**
     * Lines 88-89 (and 91-92 on a retry): draw a candidate weighted by the full
     * populations (not the remaining counts) with integer draw `k`, then offer
     * it. A rejected candidate (`text == None` after an `Ok` draw) is what makes
     * the script draw again; a throwing draw leaves the counts unchanged (in
     * the script it also escapes `displayMolecule` and ends the output).
     */
    method DisplayStep(k: int) returns (candidate: Result<Molecule, string>, text: Option<string>)
      requires Valid()
      modifies this
      ensures Valid()
      ensures candidate.Ok? ==>
        exists i :: WeightedPick.Selects(Weights(), WeightedPick.ScaledDraw(WeightedPick.Sum(Weights()), k), i)
                    && Order[i] == candidate.value
      ensures candidate.Err? ==>
        && WeightedPick.NoneSelected(Weights(), WeightedPick.ScaledDraw(WeightedPick.Sum(Weights()), k))
        && text == None && airCount == old(airCount)
      ensures candidate.Ok? && old(airCount[candidate.value]) == population[candidate.value] ==>
        text == None && airCount == old(airCount)
      ensures candidate.Ok? && old(airCount[candidate.value]) < population[candidate.value] ==>
        && airCount == old(airCount)[candidate.value := old(airCount[candidate.value]) + 1]
        && text == Some(MoleculeText(candidate.value, old(airCount[candidate.value]) + 1))
    {
      KeyOrder(population);
      candidate := WeightedPick.WeightedRandom(Order, population, k);
      if candidate.Ok? {
        text := Offer(candidate.value);
      } else {
        text := None;
      }
    }
  }
}
