/** The severity of an ABI change, `CompatibilityLevel`. */
module CompatibilityLevels {
  import opened Wrappers

  /**
   * COMPATIBLE: no dependant needs recompiling; INCOMPATIBLE: direct dependants must be
   * recompiled; GLOBALLY_INCOMPATIBLE: everything must be rebuilt (a constant may be inlined anywhere).
   */
  datatype CompatibilityLevel = Compatible | Incompatible | GloballyIncompatible

  /** The enum ordinal. */
  function Severity(l: CompatibilityLevel): nat {
    match l
    case Compatible => 0
    case Incompatible => 1
    case GloballyIncompatible => 2
  }

  /** The more severe of two levels. */
  function MaxLevel(a: CompatibilityLevel, b: CompatibilityLevel): (r: CompatibilityLevel)
    ensures r == a || r == b
    ensures Severity(r) >= Severity(a) && Severity(r) >= Severity(b)
  {
    if Severity(a) >= Severity(b) then a else b
  }

  /** Levels are ordered COMPATIBLE < INCOMPATIBLE < GLOBALLY_INCOMPATIBLE, and the order is total. */
  lemma SeverityOrder(a: CompatibilityLevel, b: CompatibilityLevel)
    ensures Severity(Compatible) < Severity(Incompatible) < Severity(GloballyIncompatible)
    ensures Severity(a) == Severity(b) ==> a == b
  {
  }

  /** A check result that makes the per-member loops return early: INCOMPATIBLE or GLOBALLY_INCOMPATIBLE. */
  predicate Breaking(l: Option<CompatibilityLevel>) {
    l == Some(Incompatible) || l == Some(GloballyIncompatible)
  }
}
