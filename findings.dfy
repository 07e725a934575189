/** Two places where the rewrites do not do what their comments say, each
    with the rewrite as written, which the range pipeline uses, and the
    intended one with the property it evidently should have. */
module Findings {
  import opened Wrappers
  import opened Chars
  import opened Grammar
  import opened GrammarText
  import opened SemVer
  import opened Ordering
  import opened Comparators
  import opened Desugar
  import opened Ranges
  import opened Shorthands
  import opened Intervals

  // ---------------------------------------------------------------------------
  // `>*` and `<*`: "nothing is allowed"

  /** `0.0.0-0`, below every other version. */
  function LeastVersion(): Version {
    Version(0, 0, 0, [Num(0)], [])
  }

  /** No version is below `0.0.0-0`. */
  lemma NothingBelowLeast(v: Version)
    ensures Compare(v, LeastVersion()) >= 0
    ensures !Holds(Bound(LtOp, LeastVersion()), v)
  {
    var least := LeastVersion();
    if CompareMain(v, least) == 0 && v.prerelease != [] {
      var a := v.prerelease;
      if a[0] == Num(0) {
        assert CompareIdentifierLists(a, least.prerelease) == CompareIdentifierLists(a[1..], []);
      }
    }
  }

  /** `<0.0.0` and `<0.0.0-0` read as the bounds they spell. */
  lemma ZeroTextParses(t: string, pre: string, loose: bool)
    requires pre == [] || pre == "0"
    requires t == "<" + VersionText("0", "0", "0", pre, "")
    ensures NewComparator(t, loose) == Ok(Bound(LtOp, Version(0, 0, 0, PrereleaseOf(OptionOf(pre)), [])))
  {
    assert DigitsValue("0") == 0;
    assert ParseOperator("<") == Some(LtOp);
    assert pre == "0" ==> Split(pre, '.') == ["0"];
    assert ValidTail(pre, "", loose);
    BoundTextParses("<", "0", "0", "0", pre, loose);
  }

  /** As written, the set `<0.0.0` that stands for "nothing" lets
      `0.0.0-0` through once prereleases are included. */
  lemma EmptyRangeAsWritten(gtlt: string, x: XRangeMatch, whole: string, loose: bool)
    requires ValidXRangeMatch(x, loose) && IsX(x.major) && (gtlt == ">" || gtlt == "<")
    ensures XRangeTextAsWritten(gtlt, x, whole, loose) == "<0.0.0"
    ensures NewComparator(XRangeTextAsWritten(gtlt, x, whole, loose), loose) == Ok(Bound(LtOp, Version(0, 0, 0, [], [])))
    ensures SetAllows([Bound(LtOp, Version(0, 0, 0, [], []))], LeastVersion(), true)
  {
    var P: string := [];
    assert XRangeTextAsWritten(gtlt, x, whole, loose) == "<" + VersionText("0", "0", "0", P, "");
    assert PrereleaseOf(OptionOf(P)) == [];
    ZeroTextParses(XRangeTextAsWritten(gtlt, x, whole, loose), P, loose);
    LeastBelowZero();
  }

  /** `0.0.0-0` is below `0.0.0`, so a set `<0.0.0` allows it when
      prereleases are included. */
  lemma LeastBelowZero()
    ensures SetAllows([Bound(LtOp, Version(0, 0, 0, [], []))], LeastVersion(), true)
  {
    var c := Bound(LtOp, Version(0, 0, 0, [], []));
    assert Compare(LeastVersion(), c.version) == -1;
    assert Holds([c][0], LeastVersion());
  }

  /** The intended rewrite gives `<0.0.0-0`, which no version satisfies. */
  lemma EmptyRangeCorrected(gtlt: string, x: XRangeMatch, whole: string, loose: bool, v: Version, includePrerelease: bool)
    requires ValidXRangeMatch(x, loose) && IsX(x.major) && (gtlt == ">" || gtlt == "<")
    ensures XRangeText(gtlt, x, whole, loose) == "<0.0.0-0"
    ensures NewComparator(XRangeText(gtlt, x, whole, loose), loose) == Ok(Bound(LtOp, LeastVersion()))
    ensures !SetAllows([Bound(LtOp, LeastVersion())], v, includePrerelease)
  {
    var P: string := "0";
    assert XRangeText(gtlt, x, whole, loose) == "<" + VersionText("0", "0", "0", P, "");
    assert Split(P, '.') == [P];
    assert ParseIdentifier(P) == Num(0);
    assert PrereleaseOf(OptionOf(P)) == [Num(0)];
    ZeroTextParses(XRangeText(gtlt, x, whole, loose), P, loose);
    NothingBelowLeast(v);
    assert !Holds([Bound(LtOp, LeastVersion())][0], v);
  }

  // ---------------------------------------------------------------------------
  // A prerelease whose first identifier starts with `-`

  /** The lower bound the caret and tilde callbacks write for a full atom,
      with the prerelease suffix as written. */
  function LowerTextAsWritten(x: XRangeMatch): string {
    ">=" + x.major + "." + x.minor + "." + x.patch + PrereleaseSuffixAsWritten(x.pre)
  }

  /** `^1.2.3--rc`: the captured prerelease is `-rc`, and the callback as
      written writes the lower bound `>=1.2.3-rc`, which `1.2.3--rc` itself
      does not satisfy, since `-` sorts before `r`. */
  lemma SeparatorLostAsWritten(x: XRangeMatch, loose: bool)
    requires x == XRangeMatch("1", "2", "3", Some("-rc"), None)
    ensures AtomVersion(x) == Version(1, 2, 3, [Alpha("-rc")], [])
    ensures !Holds(Bound(GteOp, Version(1, 2, 3, [Alpha("rc")], [])), AtomVersion(x))
    ensures PrereleaseSuffixAsWritten(x.pre) == "-rc"
    ensures NewComparator(LowerTextAsWritten(x), loose)
            == Ok(Bound(GteOp, Version(1, 2, 3, [Alpha("rc")], [])))
  {
    SeparatorLostParses(x, loose);
    SeparatorAtom(x);
    DashBelowRc();
  }

  lemma SeparatorLostParses(x: XRangeMatch, loose: bool)
    requires x == XRangeMatch("1", "2", "3", Some("-rc"), None)
    ensures NewComparator(LowerTextAsWritten(x), loose)
            == Ok(Bound(GteOp, Version(1, 2, 3, [Alpha("rc")], [])))
  {
    assert DigitsValue(x.major) == 1 && DigitsValue(x.minor) == 2 && DigitsValue(x.patch) == 3;
    assert ParseOperator(">=") == Some(GteOp);
    var R := x.pre.value[1..];
    RcParses(R);
    assert PrereleaseSuffixAsWritten(x.pre) == "-" + R;
    assert LowerTextAsWritten(x) == ">=" + VersionText(x.major, x.minor, x.patch, R, "");
    BoundTextParses(">=", x.major, x.minor, x.patch, R, loose);
  }

  lemma SeparatorAtom(x: XRangeMatch)
    requires x == XRangeMatch("1", "2", "3", Some("-rc"), None)
    ensures AtomVersion(x) == Version(1, 2, 3, [Alpha("-rc")], [])
  {
    assert DigitsValue(x.major) == 1 && DigitsValue(x.minor) == 2 && DigitsValue(x.patch) == 3;
    RcParses(x.pre.value);
  }

  lemma DashBelowRc()
    ensures !Holds(Bound(GteOp, Version(1, 2, 3, [Alpha("rc")], [])), Version(1, 2, 3, [Alpha("-rc")], []))
  {
    assert StringLess("-rc", "rc");
  }

  /** A dot-free identifier that is not all digits. */
  lemma RcParses(id: string)
    requires id == "rc" || id == "-rc"
    ensures Split(id, '.') == [id]
    ensures forall loose: bool :: IsPrerelease(id, loose)
    ensures PrereleaseOf(OptionOf(id)) == [Alpha(id)] && PrereleaseOf(Some(id)) == [Alpha(id)]
  {
    assert IndexOf(id, '.') == |id|;
    assert !AllDigits(id);
  }

  /** With the separator always written, the lower bound of the caret and
      tilde callbacks is `>=` and the atom's own version, for every full
      atom, so the atom satisfies it. */
  lemma SeparatorKept(x: XRangeMatch, loose: bool)
    requires FullAtom(x, loose) && |PlainText(x)| <= MAX_LENGTH
    requires DigitsValue(x.major) <= MAX_SAFE_INTEGER && DigitsValue(x.minor) <= MAX_SAFE_INTEGER
             && DigitsValue(x.patch) <= MAX_SAFE_INTEGER
    ensures ">=" + x.major + "." + x.minor + "." + x.patch + PrereleaseSuffix(x.pre) == LowerText(x)
    ensures NewComparator(">=" + x.major + "." + x.minor + "." + x.patch + PrereleaseSuffix(x.pre), loose)
            == Ok(Bound(GteOp, AtomVersion(x)))
    ensures Holds(Bound(GteOp, AtomVersion(x)), AtomVersion(x))
  {
    SeparatorText(x, loose);
    LowerParses(x, loose);
    CompareOrder(AtomVersion(x), AtomVersion(x), AtomVersion(x));
  }

  lemma SeparatorText(x: XRangeMatch, loose: bool)
    requires FullAtom(x, loose)
    ensures ">=" + x.major + "." + x.minor + "." + x.patch + PrereleaseSuffix(x.pre) == LowerText(x)
  {
    if x.pre.Some? { PrereleaseChars(x.pre.value, loose); }
    assert PrereleaseSuffix(x.pre) == TailText(TextOf(x.pre), "");
  }

  /** Every full atom whose prerelease does not start with `-` satisfies
      its own caret and tilde ranges as the source writes them. */
  lemma AtomInItsRanges(x: XRangeMatch, loose: bool, includePrerelease: bool)
    requires FullAtom(x, loose) && IsCanonicalDigits(x.major) && IsCanonicalDigits(x.minor)
    requires NoLeadingDash(x.pre) && |PlainText(x)| <= MAX_LENGTH
    requires DigitsValue(x.major) < MAX_SAFE_INTEGER && DigitsValue(x.minor) < MAX_SAFE_INTEGER
             && DigitsValue(x.patch) < MAX_SAFE_INTEGER
    ensures ParseRange("^" + PlainText(x), loose).Ok?
    ensures SetAllows(ParseRange("^" + PlainText(x), loose).value, AtomVersion(x), includePrerelease)
    ensures ParseRange("~" + PlainText(x), loose).Ok?
    ensures SetAllows(ParseRange("~" + PlainText(x), loose).value, AtomVersion(x), includePrerelease)
  {
    CaretRange(x, loose);
    CaretContainsLow(AtomVersion(x), includePrerelease);
    TildeRange("~", x, loose);
    TildeContainsLow(AtomVersion(x), includePrerelease);
  }
}
