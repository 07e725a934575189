/** Caret and tilde before a wildcard or a partial version (semver.js
    lines 684-712 and 730-801, the branches where a component is missing
    or a wildcard): `^*` and `~*` allow everything, and `^1.x`, `^0.2`,
    `~1` and `~1.2` are the interval from the floor of the partial version
    to a ceiling above it. */
module PartialShorthands {
  import opened Wrappers
  import opened Chars
  import opened Grammar
  import opened GrammarText
  import opened SemVer
  import opened Ordering
  import opened Comparators
  import opened Desugar
  import opened Ranges
  import opened Shorthands
  import opened XRanges
  import opened Hyphens

  // ---------------------------------------------------------------------------
  // Reading the token

  /** `^` before an x-range atom reads that atom back. */
  lemma CaretAtom(x: XRangeMatch, loose: bool)
    requires ValidXRangeMatch(x, loose) && IsWord(PlainText(x))
    ensures IsWord("^" + PlainText(x))
    ensures ReplaceCarets("^" + PlainText(x), loose) == CaretText(x, loose)
  {
    PrefixedWord('^', PlainText(x));
    PlainTextMatches(x, loose);
    CaretsOfWord("^" + PlainText(x), loose);
  }

  /** `~` or `~>` before an x-range atom that does not start with `>`: the
      caret pass keeps it and the tilde pass reads the atom back. */
  lemma TildeAtom(t: string, x: XRangeMatch, loose: bool)
    requires TildeSign(t) && ValidXRangeMatch(x, loose) && IsWord(PlainText(x)) && PlainText(x)[0] != '>'
    ensures IsWord(t + PlainText(x))
    ensures ReplaceTildes(ReplaceCarets(t + PlainText(x), loose), loose) == TildeText(x, loose)
  {
    var tok := t + PlainText(x);
    TildeWord(t, PlainText(x), loose);
    PlainTextMatches(x, loose);
    assert MatchTilde(tok, loose) == Some(x);
    CaretsOfWord(tok, loose);
    TildesOfWord(tok, loose);
  }

  // ---------------------------------------------------------------------------
  // A wildcard major

  /** A token that the caret pass empties is empty after every pass. */
  lemma EmptiedByCarets(tok: string, loose: bool)
    requires ReplaceCarets(tok, loose) == []
    ensures ParseComparator(tok, loose) == []
  {
    var e: string := [];
    BlankPasses(loose);
    assert Trim(e) == e && Words(e) == [e] && Join([e], " ") == e;
    assert MatchCaret(e, loose) == None;
    assert ReplaceCarets(e, loose) == e;
  }

  /** A token that the tilde pass empties is empty after every pass. */
  lemma EmptiedByTildes(tok: string, loose: bool)
    requires ReplaceTildes(ReplaceCarets(tok, loose), loose) == []
    ensures ParseComparator(tok, loose) == []
  {
    var e: string := [];
    BlankPasses(loose);
    assert Trim(e) == e && Words(e) == [e] && Join([e], " ") == e;
    assert MatchCaret(e, loose) == None && MatchTilde(e, loose) == None;
    assert ReplaceCarets(e, loose) == e;
    assert ReplaceTildes(e, loose) == e;
  }

  /** `^*`, `^x.1`: the one comparator ANY. */
  lemma CaretWildcard(x: XRangeMatch, loose: bool)
    requires WildAtom(x, loose)
    ensures ParseRange("^" + PlainText(x), loose) == Ok([AnyVersion])
  {
    WildWord(x, loose);
    CaretAtom(x, loose);
    EmptiedByCarets("^" + PlainText(x), loose);
    EmptyComparatorRange("^" + PlainText(x), loose);
  }

  /** `~*`, `~>*`, `~x.1`: the one comparator ANY. */
  lemma TildeWildcard(t: string, x: XRangeMatch, loose: bool)
    requires TildeSign(t) && WildAtom(x, loose)
    ensures ParseRange(t + PlainText(x), loose) == Ok([AnyVersion])
  {
    WildWord(x, loose);
    TildeAtom(t, x, loose);
    EmptiedByTildes(t + PlainText(x), loose);
    EmptyComparatorRange(t + PlainText(x), loose);
  }

  // ---------------------------------------------------------------------------
  // A partial version

  /** The partial version whose ceiling bounds a caret range: the version
      itself when its major is `0` or it has no minor, and its major alone
      otherwise, so that `^1.2` goes up to `2.0.0` but `^0.2` to `0.3.0`. */
  function CaretScope(x: XRangeMatch): XRangeMatch {
    if x.major == "0" || IsX(x.minor) then x else XRangeMatch(x.major, [], [], None, None)
  }

  lemma ScopePartial(x: XRangeMatch, loose: bool)
    requires PartialAtom(x, loose) && Bumpable(x)
    ensures PartialAtom(CaretScope(x), loose) && Bumpable(CaretScope(x))
    ensures IsX(CaretScope(x).minor) ==> CaretScope(x).major == x.major
  {
  }

  /** The caret callback's text for a partial version. */
  lemma CaretPartialText(x: XRangeMatch, loose: bool)
    requires PartialAtom(x, loose)
    ensures CaretText(x, loose) == (">=" + FloorText(x)) + " " + ("<" + CeilingText(CaretScope(x)))
  {
    NumericNotX(x.major, loose);
    if IsX(x.minor) {
      NoMinorText(x, loose);
    } else {
      NumericNotX(x.minor, loose);
      if x.major == "0" { ZeroMajorText(x, loose); } else { MajorText(x, loose); }
    }
  }

  lemma NoMinorText(x: XRangeMatch, loose: bool)
    requires PartialAtom(x, loose) && !IsX(x.major) && IsX(x.minor)
    ensures CaretText(x, loose) == (">=" + FloorText(x)) + " " + ("<" + CeilingText(CaretScope(x)))
    ensures TildeText(x, loose) == (">=" + FloorText(x)) + " " + ("<" + CeilingText(x))
  {
    assert CaretText(x, loose) == ">=" + x.major + "." + "0" + ".0" + " <" + Succ(x.major) + "." + "0" + ".0";
    assert TildeText(x, loose) == CaretText(x, loose);
    AssemblePair(x.major, "0", Succ(x.major), "0");
  }

  lemma ZeroMajorText(x: XRangeMatch, loose: bool)
    requires PartialAtom(x, loose) && x.major == "0" && !IsX(x.minor)
    ensures CaretText(x, loose) == (">=" + FloorText(x)) + " " + ("<" + CeilingText(CaretScope(x)))
  {
    assert CaretText(x, loose) == ">=" + x.major + "." + x.minor + ".0" + " <" + x.major + "." + Succ(x.minor) + ".0";
    AssemblePair(x.major, x.minor, x.major, Succ(x.minor));
  }

  lemma MajorText(x: XRangeMatch, loose: bool)
    requires PartialAtom(x, loose) && !IsX(x.major) && x.major != "0" && !IsX(x.minor)
    ensures CaretText(x, loose) == (">=" + FloorText(x)) + " " + ("<" + CeilingText(CaretScope(x)))
  {
    assert CaretText(x, loose) == ">=" + x.major + "." + x.minor + ".0" + " <" + Succ(x.major) + "." + "0" + ".0";
    AssemblePair(x.major, x.minor, Succ(x.major), "0");
  }

  /** The tilde callback's text for a partial version is the x-range one. */
  lemma TildePartialText(x: XRangeMatch, loose: bool)
    requires PartialAtom(x, loose)
    ensures TildeText(x, loose) == (">=" + FloorText(x)) + " " + ("<" + CeilingText(x))
  {
    NumericNotX(x.major, loose);
    if IsX(x.minor) {
      NoMinorText(x, loose);
    } else {
      NumericNotX(x.minor, loose);
      MinorTildeText(x, loose);
    }
  }

  lemma MinorTildeText(x: XRangeMatch, loose: bool)
    requires PartialAtom(x, loose) && !IsX(x.major) && !IsX(x.minor)
    ensures TildeText(x, loose) == (">=" + FloorText(x)) + " " + ("<" + CeilingText(x))
  {
    assert TildeText(x, loose) == ">=" + x.major + "." + x.minor + ".0" + " <" + x.major + "." + Succ(x.minor) + ".0";
    AssemblePair(x.major, x.minor, x.major, Succ(x.minor));
  }

  /** `^M.x`, `^M.m`: from the floor up to, not including, the ceiling of
      the caret scope: `^1.x` and `^1.2` are below `2.0.0`, `^0.2` below
      `0.3.0`, `^0.x` below `1.0.0`. */
  lemma CaretPartial(x: XRangeMatch, loose: bool)
    requires PartialAtom(x, loose) && Bumpable(x)
    ensures ParseRange("^" + PlainText(x), loose)
            == Ok([Bound(GteOp, Floor(x)), Bound(LtOp, Ceiling(CaretScope(x)))])
  {
    var lo, hi := ">=" + FloorText(x), "<" + CeilingText(CaretScope(x));
    CaretPartialComparators(x, loose);
    ScopePartial(x, loose);
    LowerBoundParses(x, loose);
    UpperBoundParses(CaretScope(x), loose);
    RewrittenTwo("^" + PlainText(x), lo, hi, Bound(GteOp, Floor(x)), Bound(LtOp, Ceiling(CaretScope(x))), loose);
  }

  /** A release is in a caret range on a partial version exactly when its
      leading components are at least the version's and at most those of
      the caret scope: `^1.2` is every `1.y.z` from `1.2.0` on. */
  lemma CaretPartialAllows(x: XRangeMatch, v: Version, includePrerelease: bool)
    requires AllDigits(x.major) && (!IsX(x.minor) ==> AllDigits(x.minor))
    requires v.prerelease == []
    ensures SetAllows([Bound(GteOp, Floor(x)), Bound(LtOp, Ceiling(CaretScope(x)))], v, includePrerelease)
            <==> ComparePrefix(v, x) >= 0 && ComparePrefix(v, CaretScope(x)) <= 0
  {
    HyphenAllows(x, CaretScope(x), v, includePrerelease);
  }

  lemma CaretPartialComparators(x: XRangeMatch, loose: bool)
    requires PartialAtom(x, loose) && Bumpable(x)
    ensures IsWord("^" + PlainText(x))
    ensures ParseComparator("^" + PlainText(x), loose)
            == (">=" + FloorText(x)) + " " + ("<" + CeilingText(CaretScope(x)))
  {
    PartialWord(x, loose);
    CaretAtom(x, loose);
    CaretPartialText(x, loose);
    ScopePartial(x, loose);
    FloorSettled(x, loose);
    CeilingSettled(CaretScope(x), loose);
    TwoSettled(">=" + FloorText(x), "<" + CeilingText(CaretScope(x)), loose);
  }

  /** `~M`, `~M.x`, `~M.m`: the same interval as the partial version
      alone, from its floor up to, not including, its ceiling: `~1` is
      `>=1.0.0 <2.0.0`, `~1.2` is `>=1.2.0 <1.3.0`, and `~>` is the same
      as `~`. */
  lemma TildePartial(t: string, x: XRangeMatch, loose: bool)
    requires TildeSign(t) && PartialAtom(x, loose) && Bumpable(x)
    ensures ParseRange(t + PlainText(x), loose) == Ok([Bound(GteOp, Floor(x)), Bound(LtOp, Ceiling(x))])
  {
    var lo, hi := ">=" + FloorText(x), "<" + CeilingText(x);
    TildePartialComparators(t, x, loose);
    LowerBoundParses(x, loose);
    UpperBoundParses(x, loose);
    RewrittenTwo(t + PlainText(x), lo, hi, Bound(GteOp, Floor(x)), Bound(LtOp, Ceiling(x)), loose);
  }

  lemma TildePartialComparators(t: string, x: XRangeMatch, loose: bool)
    requires TildeSign(t) && PartialAtom(x, loose) && Bumpable(x)
    ensures IsWord(t + PlainText(x))
    ensures ParseComparator(t + PlainText(x), loose) == (">=" + FloorText(x)) + " " + ("<" + CeilingText(x))
  {
    PartialWord(x, loose);
    TildeAtom(t, x, loose);
    TildePartialText(x, loose);
    FloorSettled(x, loose);
    CeilingSettled(x, loose);
    TwoSettledAfterTildes(">=" + FloorText(x), "<" + CeilingText(x), loose);
  }
}
