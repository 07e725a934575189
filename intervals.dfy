/** What the caret and tilde intervals allow (semver.js lines 683-801
    and 937-976): with the bounds `>=low <up` of those rewrites, a version
    without a prerelease is allowed exactly when it is at least `low` and
    keeps the components the rule fixes, and a prerelease version only
    when prereleases are included or `low` is a prerelease of the same
    `major.minor.patch`. */
module Intervals {
  import opened SemVer
  import opened Ordering
  import opened Comparators
  import opened Ranges
  import opened Shorthands

  /** The same `major.minor.patch`. */
  predicate SameMain(v: Version, w: Version) {
    v.major == w.major && v.minor == w.minor && v.patch == w.patch
  }

  /** The components a caret range fixes: everything up to and including
      the left-most non-zero component of `low`. */
  predicate SameCaretUnit(v: Version, low: Version) {
    if low.major != 0 then v.major == low.major
    else if low.minor != 0 then v.major == 0 && v.minor == low.minor
    else v.major == 0 && v.minor == 0 && v.patch == low.patch
  }

  lemma MainBelow(v: Version, w: Version)
    requires CompareMain(v, w) < 0
    ensures Compare(v, w) < 0
  {
  }

  /** The set `>=low <up`, for an upper bound without a prerelease. */
  lemma IntervalAllows(low: Version, up: Version, v: Version, includePrerelease: bool)
    requires up.prerelease == []
    ensures SetAllows([Bound(GteOp, low), Bound(LtOp, up)], v, includePrerelease)
            <==> Compare(v, low) >= 0 && Compare(v, up) < 0
                 && (v.prerelease == [] || includePrerelease || (low.prerelease != [] && SameMain(v, low)))
  {
    var comps := [Bound(GteOp, low), Bound(LtOp, up)];
    assert Holds(comps[0], v) <==> Compare(v, low) >= 0;
    assert Holds(comps[1], v) <==> Compare(v, up) < 0;
    assert !AdmitsPrerelease(comps[1], v);
    assert AdmitsPrerelease(comps[0], v) <==> low.prerelease != [] && SameMain(v, low);
  }

  /** Below `<up` for a version without a prerelease: the first component
      that differs is smaller. */
  lemma BelowUpper(v: Version, up: Version)
    requires v.prerelease == [] && up.prerelease == []
    ensures Compare(v, up) < 0 <==> CompareMain(v, up) < 0
  {
  }

  /** A version without a prerelease is allowed by the caret interval of
      `low` exactly when it is at least `low` and keeps the components up
      to the left-most non-zero one. */
  lemma CaretAllows(low: Version, v: Version, includePrerelease: bool)
    requires v.prerelease == []
    ensures SetAllows([Bound(GteOp, low), Bound(LtOp, CaretUpper(low))], v, includePrerelease)
            <==> Compare(v, low) >= 0 && SameCaretUnit(v, low)
  {
    IntervalAllows(low, CaretUpper(low), v, includePrerelease);
    BelowUpper(v, CaretUpper(low));
  }

  /** A version without a prerelease is allowed by the tilde interval of
      `low` exactly when it is at least `low` and keeps its major and minor
      components. */
  lemma TildeAllows(low: Version, v: Version, includePrerelease: bool)
    requires v.prerelease == []
    ensures SetAllows([Bound(GteOp, low), Bound(LtOp, TildeUpper(low))], v, includePrerelease)
            <==> Compare(v, low) >= 0 && v.major == low.major && v.minor == low.minor
  {
    IntervalAllows(low, TildeUpper(low), v, includePrerelease);
    BelowUpper(v, TildeUpper(low));
  }

  /** Without includePrerelease, a prerelease version is allowed by either
      interval only when `low` is a prerelease of the same
      `major.minor.patch` and the version is not below it. */
  lemma PrereleaseAllows(low: Version, v: Version, caret: bool)
    requires v.prerelease != []
    ensures var up := if caret then CaretUpper(low) else TildeUpper(low);
            SetAllows([Bound(GteOp, low), Bound(LtOp, up)], v, false)
            <==> low.prerelease != [] && SameMain(v, low) && Compare(v, low) >= 0
  {
    var up := if caret then CaretUpper(low) else TildeUpper(low);
    IntervalAllows(low, up, v, false);
    if SameMain(v, low) {
      assert CompareMain(v, up) < 0;
      MainBelow(v, up);
    }
  }

  /** The version a caret range is written from satisfies it. */
  lemma CaretContainsLow(low: Version, includePrerelease: bool)
    ensures SetAllows([Bound(GteOp, low), Bound(LtOp, CaretUpper(low))], low, includePrerelease)
  {
    CompareOrder(low, low, low);
    IntervalAllows(low, CaretUpper(low), low, includePrerelease);
    assert CompareMain(low, CaretUpper(low)) < 0;
    MainBelow(low, CaretUpper(low));
  }

  /** The version a tilde range is written from satisfies it. */
  lemma TildeContainsLow(low: Version, includePrerelease: bool)
    ensures SetAllows([Bound(GteOp, low), Bound(LtOp, TildeUpper(low))], low, includePrerelease)
  {
    CompareOrder(low, low, low);
    IntervalAllows(low, TildeUpper(low), low, includePrerelease);
    assert CompareMain(low, TildeUpper(low)) < 0;
    MainBelow(low, TildeUpper(low));
  }
}
