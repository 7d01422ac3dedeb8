/**
 * The nine constituents of air that the script enumerates, the order in which
 * `Object.keys` visits them (the order of the `airComposition` literal), and
 * their human-readable names.
 */
module Atmosphere {

  datatype Molecule =
    | Nitrogen | Oxygen | Argon | CarbonDioxide | Neon
    | Helium | Methane | Krypton | WaterVapor

  /** The insertion order of `airComposition`, which every derived table inherits. */
  const Order: seq<Molecule> :=
    [Nitrogen, Oxygen, Argon, CarbonDioxide, Neon, Helium, Methane, Krypton, WaterVapor]

  /** Every molecule appears in `Order`, exactly once. */
  lemma OrderEnumerates(m: Molecule)
    ensures m in Order
    ensures forall i, j :: 0 <= i < j < |Order| ==> Order[i] != Order[j]
  {
  }

  /** The entries of `readableNames`. */
  function ReadableName(m: Molecule): (name: string)
    ensures |name| > 0
    ensures forall i :: 0 <= i < |name| ==> IsNameChar(name[i])
  {
    match m
    case Nitrogen => "Nitrogen"
    case Oxygen => "Oxygen"
    case Argon => "Argon"
    case CarbonDioxide => "Carbon Dioxide"
    case Neon => "Neon"
    case Helium => "Helium"
    case Methane => "Methane"
    case Krypton => "Krypton"
    case WaterVapor => "Water Vapor"
  }

  /** Names are built from letters and spaces only (in particular, no '#'). */
  predicate IsNameChar(c: char)
  {
    c == ' ' || ('A' <= c <= 'Z') || ('a' <= c <= 'z')
  }

  /** Distinct molecules get distinct names. */
  lemma NamesDistinct(m1: Molecule, m2: Molecule)
    ensures ReadableName(m1) == ReadableName(m2) ==> m1 == m2
  {
  }
}
