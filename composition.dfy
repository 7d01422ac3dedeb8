/**
 * The start-up tables: `atmosphericMole` from the molar volume and the
 * atmospheric volume, then `moleComposition` (moles per molecule) and
 * `moleculeComposition` (molecules per molecule kind, the weights and caps
 * of the sampler). The float literals of `airComposition` enter only through
 * `BigInt(1e21 * fraction)`, so each molecule's fraction is the integer
 * numerator `num` over 10^21; the molar volume enters as `BigInt(22.4 * 10)`.
 * Every quantity is a non-negative BigInt, for which BigInt's truncating
 * division agrees with Dafny's `/`.
 */
module Composition {
  import opened Atmosphere
  import opened Arith

  /** 10^21, the denominator of every per-molecule fraction. */
  const Denominator: nat := 1_000_000_000_000_000_000_000

  /**
   * `BigInt(108) * BigInt(10^22)`: in JavaScript `^` is 32-bit bitwise XOR,
   * so `10^22` is 28 and the volume is 3024 litres, not 1.08 * 10^24.
   */
  function AtmosphericVolume(): (v: nat)
    ensures v == 3024
  {
    108 * ((10 as bv32) ^ (22 as bv32)) as nat
  }

  /**
   * `BigInt(volumeToMole * 10) * atmosphericVolume / 10n` with the first
   * factor given as `tenLitresPerMole` (224 in the script): litres times
   * litres-per-mole, truncated.
   */
  function AtmosphericMole(tenLitresPerMole: nat, volume: nat): (n: nat)
    ensures 10 * n <= tenLitresPerMole * volume < 10 * n + 10
  {
    tenLitresPerMole * volume / 10
  }

  /** What line 33 was meant to compute: litres divided by litres-per-mole, truncated. */
  function IntendedMole(tenLitresPerMole: nat, volume: nat): (n: nat)
    requires tenLitresPerMole > 0
    ensures n * tenLitresPerMole <= 10 * volume < (n + 1) * tenLitresPerMole
  {
    var n := 10 * volume / tenLitresPerMole;
    assert (n + 1) * tenLitresPerMole == n * tenLitresPerMole + tenLitresPerMole;
    n
  }

  /**
   * At 22.4 L per mole the script's mole count needs more gas than there is:
   * 67737 moles would fill 67737 * 22.4 L, far more than the 3024 L it came from,
   * whereas the intended count (135 moles) fits.
   */
  lemma MoleConversionOverflows()
    ensures AtmosphericMole(224, AtmosphericVolume()) == 67737
    ensures AtmosphericMole(224, AtmosphericVolume()) * 224 > 10 * AtmosphericVolume()
    ensures IntendedMole(224, AtmosphericVolume()) == 135
  {
  }

  /**
   * Line 36: `atmosphericMole * BigInt(1e21 * fraction) / 10^21`, truncated;
   * the result is the largest count whose multiple of 10^21 fits.
   */
  function Moles(atmosphericMole: nat, num: nat): (n: nat)
    ensures n * Denominator <= atmosphericMole * num < (n + 1) * Denominator
  {
    atmosphericMole * num / Denominator
  }

  /** A fraction of at most one yields at most `atmosphericMole` moles. */
  lemma MolesBounded(atmosphericMole: nat, num: nat)
    requires num <= Denominator
    ensures Moles(atmosphericMole, num) <= atmosphericMole
  {
    MulMonotone(atmosphericMole, num, Denominator);
  }

  /** A larger fraction never yields fewer moles. */
  lemma MolesMonotone(atmosphericMole: nat, num1: nat, num2: nat)
    requires num1 <= num2
    ensures Moles(atmosphericMole, num1) <= Moles(atmosphericMole, num2)
  {
    MulMonotone(atmosphericMole, num1, num2);
  }

  /** Line 46: `avogadro * moleComposition[element]`. */
  function Molecules(avogadro: nat, moles: nat): (n: nat)
    ensures n == 0 <==> avogadro == 0 || moles == 0
    ensures avogadro >= 1 ==> moles <= n
  {
    if avogadro >= 1 then
      MulMonotone(moles, 1, avogadro);
      avogadro * moles
    else
      avogadro * moles
  }

  /**
   * The population of a molecule is at most `avogadro * atmosphericMole` for
   * a fraction of at most one, and never decreases as the fraction grows.
   */
  lemma PopulationMonotone(avogadro: nat, atmosphericMole: nat, num1: nat, num2: nat)
    requires num1 <= num2
    ensures Molecules(avogadro, Moles(atmosphericMole, num1)) <= Molecules(avogadro, Moles(atmosphericMole, num2))
    ensures num2 <= Denominator ==> Molecules(avogadro, Moles(atmosphericMole, num2)) <= avogadro * atmosphericMole
  {
    MolesMonotone(atmosphericMole, num1, num2);
    MulMonotone(avogadro, Moles(atmosphericMole, num1), Moles(atmosphericMole, num2));
    if num2 <= Denominator {
      MolesBounded(atmosphericMole, num2);
      MulMonotone(avogadro, Moles(atmosphericMole, num2), atmosphericMole);
    }
  }

  /** The molecules `Order` has visited before index `i`. */
  ghost predicate VisitedBefore(keys: set<Molecule>, i: nat)
    requires i <= |Order|
  {
    forall m :: m in keys <==> m in Order[..i]
  }

  /**
   * Lines 35-37: the `forEach` over `Object.keys(airComposition)` that fills
   * `moleComposition`, one entry per molecule.
   */
  method BuildMoleComposition(nums: map<Molecule, nat>, atmosphericMole: nat) returns (moles: map<Molecule, nat>)
    requires forall m: Molecule :: m in nums
    ensures forall m: Molecule :: m in moles && moles[m] == Moles(atmosphericMole, nums[m])
    ensures forall m: Molecule :: nums[m] <= Denominator ==> moles[m] <= atmosphericMole
  {
    moles := map[];
    for i := 0 to |Order|
      invariant VisitedBefore(moles.Keys, i)
      invariant forall m :: m in moles ==> moles[m] == Moles(atmosphericMole, nums[m])
    {
      assert Order[..i + 1] == Order[..i] + [Order[i]];
      moles := moles[Order[i] := Moles(atmosphericMole, nums[Order[i]])];
    }
    assert Order[..|Order|] == Order;
    forall m: Molecule
      ensures m in moles && moles[m] == Moles(atmosphericMole, nums[m])
      ensures nums[m] <= Denominator ==> moles[m] <= atmosphericMole
    {
      OrderEnumerates(m);
      if nums[m] <= Denominator {
        MolesBounded(atmosphericMole, nums[m]);
      }
    }
  }

  /**
   * Lines 45-47: the `forEach` over `Object.keys(moleComposition)` that fills
   * `moleculeComposition`, the populations the sampler draws with.
   */
  method BuildMoleculeComposition(moles: map<Molecule, nat>, avogadro: nat) returns (molecules: map<Molecule, nat>)
    requires forall m: Molecule :: m in moles
    ensures forall m: Molecule :: m in molecules && molecules[m] == Molecules(avogadro, moles[m])
    ensures forall m: Molecule :: molecules[m] == 0 <==> avogadro == 0 || moles[m] == 0
  {
    molecules := map[];
    for i := 0 to |Order|
      invariant VisitedBefore(molecules.Keys, i)
      invariant forall m :: m in molecules ==> molecules[m] == Molecules(avogadro, moles[m])
    {
      assert Order[..i + 1] == Order[..i] + [Order[i]];
      molecules := molecules[Order[i] := Molecules(avogadro, moles[Order[i]])];
    }
    assert Order[..|Order|] == Order;
    forall m: Molecule
      ensures m in molecules && molecules[m] == Molecules(avogadro, moles[m])
    {
      OrderEnumerates(m);
    }
  }
}
