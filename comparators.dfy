/** Comparators: an operator and a version, or the ANY sentinel
    (semver.js lines 515-570). */
module Comparators {
  import opened Wrappers
  import opened Chars
  import opened Grammar
  import opened GrammarText
  import opened SemVer
  import opened Ordering

  /** A `Comparator` object: the ANY sentinel, which `""` parses to and
      which has no operator, or an operator and a version. */
  datatype Comparator = AnyVersion | Bound(op: Op, version: Version)

  /** The operator text a comparator keeps: `=` is stored as `""`. */
  function OperatorText(op: Op): string {
    match op
    case EqOp => ""
    case GtOp => ">"
    case GteOp => ">="
    case LtOp => "<"
    case LteOp => "<="
  }

  /** The comparator of a COMPARATOR match with an operator: the operator
      captured, with the version its version text constructs, or that
      construction's error. */
  predicate BuiltFromCaptures(m: ComparatorMatch, loose: bool, r: Result<Comparator, Error>) {
    m.OperatorMatch? ==>
      ParseOperator(m.op).Some?
      && (NewSemVer(m.version, loose).Err? ==> r == Err(NewSemVer(m.version, loose).error))
      && (NewSemVer(m.version, loose).Ok? ==> r == Ok(Bound(ParseOperator(m.op).value, NewSemVer(m.version, loose).value)))
  }

  /** `new Comparator(comp, loose)`: the comparator expression must match,
      and the version it captures must construct. */
  function NewComparator(text: string, loose: bool): (r: Result<Comparator, Error>)
    ensures MatchComparator(text, loose).None? ==> r == Err(InvalidComparator(text))
    ensures r == Ok(AnyVersion) <==> text == []
    ensures r.Ok? && r.value.Bound? ==> WellFormed(r.value.version)
    ensures MatchComparator(text, loose).Some? ==> BuiltFromCaptures(MatchComparator(text, loose).value, loose, r)
  {
    match MatchComparator(text, loose)
    case None => Err(InvalidComparator(text))
    case Some(EmptyMatch) => Ok(AnyVersion)
    case Some(OperatorMatch(op, version)) =>
      match NewSemVer(version, loose)
      case Err(e) => Err(e)
      case Ok(v) => Ok(Bound(ParseOperator(op).value, v))
  }

  /** `Comparator.prototype.test` on a version: ANY holds for every
      version, a bound holds when `cmp` does. */
  predicate Holds(c: Comparator, v: Version) {
    match c
    case AnyVersion => true
    case Bound(op, w) => CmpVersions(v, op, w)
  }

  /** `Comparator.prototype.test`, running the comparison. */
  method Test(c: Comparator, v: Version) returns (b: bool)
    ensures b == Holds(c, v)
  {
    match c
    case AnyVersion =>
      b := true;
    case Bound(op, w) =>
      var r := CompareVersions(v, w);
      b := Satisfied(op, r);
  }

  /** `Comparator.prototype.test` on a string, which ANY accepts without
      parsing it and any other comparator parses first. */
  function TestText(c: Comparator, text: string, loose: bool): (r: Result<bool, Error>)
    ensures c.AnyVersion? ==> r == Ok(true)
    ensures c.Bound? && NewSemVer(text, loose).Err? ==> r == Err(NewSemVer(text, loose).error)
    ensures c.Bound? && NewSemVer(text, loose).Ok? ==> r == Ok(Holds(c, NewSemVer(text, loose).value))
  {
    match c
    case AnyVersion => Ok(true)
    case Bound(_, _) =>
      match NewSemVer(text, loose)
      case Err(e) => Err(e)
      case Ok(v) => Ok(Holds(c, v))
  }

  /** `toString`, the `value` field: empty for ANY, else the operator and
      the canonical text of the version. */
  function ComparatorText(c: Comparator): string {
    match c
    case AnyVersion => ""
    case Bound(op, v) => OperatorText(op) + Format(v)
  }

  // ---------------------------------------------------------------------------
  // Reading back comparator texts

  lemma GtltBeforeDigit(opText: string, t: string)
    requires opText in {"", "<", ">", "<=", ">=", "="}
    requires |t| > 0 && IsDigit(t[0])
    ensures Gtlt(opText + t) == |opText|
    ensures (opText + t)[..|opText|] == opText && (opText + t)[|opText|..] == t
  {
  }

  /** The comparator text `op` + `M.m.p[-pre]` constructs the bound it
      spells, in either dialect. */
  lemma BoundTextParses(opText: string, major: string, minor: string, patch: string, pre: string, loose: bool)
    requires opText in {"", "<", ">", "<=", ">=", "="}
    requires IsNumericId(major, loose) && IsNumericId(minor, loose) && IsNumericId(patch, loose)
    requires ValidTail(pre, "", loose)
    requires |VersionText(major, minor, patch, pre, "")| <= MAX_LENGTH
    requires DigitsValue(major) <= MAX_SAFE_INTEGER && DigitsValue(minor) <= MAX_SAFE_INTEGER
             && DigitsValue(patch) <= MAX_SAFE_INTEGER
    ensures NewComparator(opText + VersionText(major, minor, patch, pre, ""), loose)
            == Ok(Bound(ParseOperator(opText).value,
                        Version(DigitsValue(major), DigitsValue(minor), DigitsValue(patch),
                                PrereleaseOf(OptionOf(pre)), [])))
  {
    var t := VersionText(major, minor, patch, pre, "");
    BoundTextMatches(opText, major, minor, patch, pre, loose);
    VersionTextMatches(major, minor, patch, pre, "", loose);
    VersionTextNoSpace(major, minor, patch, pre, "", loose);
    TrimEdges(t);
    NewSemVerOfMatch(t, loose, FullMatch(major, minor, patch, OptionOf(pre), None));
  }

  /** COMPARATOR splits such a text into its operator and its version. */
  lemma BoundTextMatches(opText: string, major: string, minor: string, patch: string, pre: string, loose: bool)
    requires opText in {"", "<", ">", "<=", ">=", "="}
    requires IsNumericId(major, loose) && IsNumericId(minor, loose) && IsNumericId(patch, loose)
    requires ValidTail(pre, "", loose)
    ensures MatchComparator(opText + VersionText(major, minor, patch, pre, ""), loose)
            == Some(OperatorMatch(opText, VersionText(major, minor, patch, pre, "")))
  {
    var t := VersionText(major, minor, patch, pre, "");
    var s := opText + t;
    VersionTextNoSpace(major, minor, patch, pre, "", loose);
    assert t[0] == major[0];
    GtltBeforeDigit(opText, t);
    assert s[Gtlt(s)..] == t;
    assert LeadingRun(t, IsSpace) == 0;
    assert t[0..] == t;
    VersionTextMatches(major, minor, patch, pre, "", loose);
  }

  lemma OperatorTextParses(op: Op)
    ensures OperatorText(op) in {"", "<", ">", "<=", ">=", "="}
    ensures ParseOperator(OperatorText(op)) == Some(op)
  {
  }

  /** `toString` and `new Comparator` are inverse up to build metadata, in
      either dialect, whenever the text fits in MAX_LENGTH. */
  lemma ComparatorRoundTrip(c: Comparator, loose: bool)
    requires c.Bound? ==> WellFormed(c.version) && |Format(c.version)| <= MAX_LENGTH
    ensures NewComparator(ComparatorText(c), loose)
            == Ok(if c.AnyVersion? then c else c.(version := c.version.(build := [])))
  {
    if c.Bound? {
      var v := c.version;
      FormatIsVersionText(v);
      OperatorTextParses(c.op);
      if |v.prerelease| > 0 {
        PrereleaseRoundTrip(v.prerelease, loose);
      }
      NatToStringValue(v.major);
      NatToStringValue(v.minor);
      NatToStringValue(v.patch);
      BoundTextParses(OperatorText(c.op), NatToString(v.major), NatToString(v.minor), NatToString(v.patch),
                      PrereleasePart(v.prerelease), loose);
    }
  }

  /** The value of a bound is one word. */
  lemma BoundTextWord(c: Comparator)
    requires c.Bound? && WellFormed(c.version)
    ensures IsWord(ComparatorText(c))
  {
    var v := c.version;
    FormatIsVersionText(v);
    if |v.prerelease| > 0 {
      PrereleaseRoundTrip(v.prerelease, false);
    }
    VersionTextNoSpace(NatToString(v.major), NatToString(v.minor), NatToString(v.patch),
                       PrereleasePart(v.prerelease), "", false);
    var o := OperatorText(c.op);
    assert NoSpace(o);
    assert ComparatorText(c) == o + Format(v);
  }
}
