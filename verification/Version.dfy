/** Bundle versions and version ranges. */
module Versions {

  /** Comparison looks at the three numbers only; the designation is carried along. */
  datatype Version = Version(major: int, minor: int, revision: int, designation: string) {
    predicate Eq(other: Version) {
      major == other.major && minor == other.minor && revision == other.revision
    }

    predicate Lt(other: Version) {
      major < other.major
      || (major == other.major
          && (minor < other.minor || (minor == other.minor && revision < other.revision)))
    }

    predicate Le(other: Version) {
      major < other.major
      || (major == other.major
          && (minor < other.minor || (minor == other.minor && revision <= other.revision)))
    }

    predicate Gt(other: Version) {
      major > other.major
      || (major == other.major
          && (minor > other.minor || (minor == other.minor && revision > other.revision)))
    }
  }

  const ZERO_VERSION := Version(0, 0, 0, "")

  datatype VersionRange = VersionRange(lower: Version, includeLower: bool, upper: Version, includeUpper: bool) {
    predicate IsInRange(v: Version) {
      && ((includeLower && v.Eq(lower)) || v.Gt(lower))
      && ((includeUpper && v.Eq(upper)) || v.Lt(upper))
    }

    predicate IsEmpty() {
      lower.Eq(upper) && !includeLower
    }
  }

  /** The range a dependency gets when its manifest entry names no version. */
  const NO_RANGE := VersionRange(ZERO_VERSION, false, ZERO_VERSION, false)

  function Exactly(v: Version): VersionRange {
    VersionRange(v, true, v, true)
  }

  /** The comparison operators describe one total order on versions up to designation. */
  lemma VersionOrder(a: Version, b: Version, c: Version)
    ensures a.Le(b) <==> a.Lt(b) || a.Eq(b)
    ensures a.Gt(b) <==> b.Lt(a)
    ensures (a.Lt(b) && !a.Eq(b) && !b.Lt(a)) || (!a.Lt(b) && a.Eq(b) && !b.Lt(a)) || (!a.Lt(b) && !a.Eq(b) && b.Lt(a))
    ensures a.Le(b) && b.Le(c) ==> a.Le(c)
    ensures a.Lt(b) && b.Le(c) ==> a.Lt(c)
  {
  }

  /** There is no version strictly between the two bounds. */
  predicate Adjacent(lower: Version, upper: Version) {
    lower.major == upper.major && lower.minor == upper.minor && upper.revision == lower.revision + 1
  }

  /**
   * When a well-formed range holds no version at all. IsEmpty recognises only the
   * first of the three cases: "[v,v)" and "(v, next v)" hold nothing either, but are
   * not reported as empty.
   */
  lemma HoldsNothing(r: VersionRange)
    requires r.lower.Le(r.upper)
    ensures (forall v: Version :: !r.IsInRange(v))
       <==> || r.IsEmpty()
            || (r.lower.Eq(r.upper) && !r.includeUpper)
            || (Adjacent(r.lower, r.upper) && !r.includeLower && !r.includeUpper)
  {
    var next := Version(r.lower.major, r.lower.minor, r.lower.revision + 1, "");
    if r.includeLower && r.IsInRange(r.lower) {
    } else if r.includeUpper && r.IsInRange(r.upper) {
    } else if r.IsInRange(next) {
    } else {
      assert forall v: Version :: !r.IsInRange(v);
    }
  }

  /** A dependency without a version accepts every version under the bundle rule, none under the module rule. */
  lemma NoRangeIsOneSided(v: Version)
    ensures NO_RANGE.IsEmpty() && !NO_RANGE.IsInRange(v)
    ensures !Exactly(v).IsEmpty() && Exactly(v).IsInRange(v)
  {
  }
}
