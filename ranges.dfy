/** `Range`: a disjunction of comparator sets read from a range text, and
    the test of a version against it (semver.js lines 572-651 and 920-986). */
module Ranges {
  import opened Wrappers
  import opened Chars
  import opened Grammar
  import opened SemVer
  import opened Ordering
  import opened Comparators
  import opened Desugar

  /** The two options a range reads. */
  datatype Options = Options(loose: bool, includePrerelease: bool)

  /** A constructed range: the text it was built from and its comparator
      sets, none of them empty.  A version satisfies the range when it
      satisfies one of the sets. */
  datatype Range = Range(raw: string, options: Options, sets: seq<seq<Comparator>>)

  // ---------------------------------------------------------------------------
  // Construction

  /** The loose-mode filter of `parseRange`: the words COMPARATORLOOSE
      matches, in order. */
  function KeepComparators(words: seq<string>, loose: bool): (kept: seq<string>)
    ensures |kept| <= |words|
    ensures forall k | 0 <= k < |kept| :: kept[k] in words && MatchComparator(kept[k], loose).Some?
    ensures forall k | 0 <= k < |words| :: MatchComparator(words[k], loose).Some? ==> words[k] in kept
  {
    Filter(words, w => MatchComparator(w, loose).Some?)
  }

  /** The filter keeps a single word exactly when it matches, and filters a
      concatenation piece by piece, so it keeps the matching words in
      their order and with their repetitions. */
  lemma KeepComparatorsConcat(a: seq<string>, b: seq<string>, loose: bool)
    ensures |a| == 1 ==> KeepComparators(a, loose) == if MatchComparator(a[0], loose).Some? then a else []
    ensures KeepComparators(a + b, loose) == KeepComparators(a, loose) + KeepComparators(b, loose)
  {
    FilterConcat(a, b, w => MatchComparator(w, loose).Some?);
  }

  /** The comparator texts of one `||` part after the shorthands are
      rewritten: normalise the whitespace, rewrite each token, and split the
      result on whitespace again. */
  function DesugaredWords(range: string, loose: bool): (words: seq<string>)
    ensures |words| > 0 && forall k | 0 <= k < |words| :: NoSpace(words[k])
  {
    var r0 := Trim(range);
    var r1 := match MatchHyphen(r0, loose)
              case Some(h) => HyphenText(h, loose)
              case None => r0;
    var tokens := Split(Join(Words(r1), " "), ' ');
    Words(Join(Map(tokens, t => ParseComparator(t, loose)), " "))
  }

  /** Every bound of a set holds a version that SemVer could construct. */
  predicate BoundsWellFormed(comps: seq<Comparator>) {
    forall k | 0 <= k < |comps| :: comps[k].Bound? ==> WellFormed(comps[k].version)
  }

  /** `Range.prototype.parseRange`: in loose mode the words that are not
      comparators are dropped; the rest become comparators, and the first
      one that fails to parse is thrown. */
  function ParseRange(range: string, loose: bool): (r: Result<seq<Comparator>, Error>)
    ensures !loose && r.Ok? ==> |r.value| > 0
    ensures r.Ok? ==> BoundsWellFormed(r.value)
  {
    var words := DesugaredWords(range, loose);
    var kept := if loose then KeepComparators(words, loose) else words;
    Constructed(kept, loose)
  }

  /** Every word before index `k` constructs a comparator. */
  predicate BuildBefore(words: seq<string>, loose: bool, k: int) {
    forall j | 0 <= j < k && j < |words| :: NewComparator(words[j], loose).Ok?
  }

  /** The comparators of the given words, in order, or the error of the
      first word that is not a comparator. */
  function Constructed(words: seq<string>, loose: bool): (r: Result<seq<Comparator>, Error>)
    ensures r.Ok? ==> |r.value| == |words| && BoundsWellFormed(r.value)
    ensures r.Ok? ==> forall k | 0 <= k < |words| :: NewComparator(words[k], loose) == Ok(r.value[k])
    ensures r.Err? ==> exists k | 0 <= k < |words| :: NewComparator(words[k], loose) == Err(r.error) && BuildBefore(words, loose, k)
  {
    var rs := Map(words, w => NewComparator(w, loose));
    var r := Collect(rs);
    assert r.Ok? ==> forall k | 0 <= k < |r.value| :: rs[k] == Ok(r.value[k]);
    FirstFailure(words, loose, rs);
    r
  }

  lemma FirstFailure(words: seq<string>, loose: bool, rs: seq<Result<Comparator, Error>>)
    requires rs == Map(words, w => NewComparator(w, loose))
    ensures Collect(rs).Err? ==>
              exists k | 0 <= k < |words| :: NewComparator(words[k], loose) == Err(Collect(rs).error) && BuildBefore(words, loose, k)
  {
    var r := Collect(rs);
    if r.Err? {
      var k :| 0 <= k < |rs| && rs[k] == Err(r.error) && OkBefore(rs, k);
      assert NewComparator(words[k], loose) == rs[k];
      forall j | 0 <= j < k && j < |words| ensures NewComparator(words[j], loose).Ok? {
        assert rs[j].Ok?;
      }
      assert BuildBefore(words, loose, k);
    }
  }

  /** Constructing a concatenation: the first part's error, else the
      second part's error, else the comparators of both parts in order. */
  lemma ConstructedConcat(a: seq<string>, b: seq<string>, loose: bool)
    ensures Constructed(a, loose).Err? ==> Constructed(a + b, loose) == Constructed(a, loose)
    ensures Constructed(a, loose).Ok? && Constructed(b, loose).Err? ==> Constructed(a + b, loose) == Constructed(b, loose)
    ensures Constructed(a, loose).Ok? && Constructed(b, loose).Ok? ==>
              Constructed(a + b, loose) == Ok(Constructed(a, loose).value + Constructed(b, loose).value)
  {
    var f := w => NewComparator(w, loose);
    MapConcat(a, b, f);
    CollectConcat(Map(a, f), Map(b, f));
  }

  /** The `filter` of the constructor: the non-empty sets, in order. */
  function NonEmptySets(sets: seq<seq<Comparator>>): (kept: seq<seq<Comparator>>)
    ensures forall k | 0 <= k < |kept| :: |kept[k]| > 0 && kept[k] in sets
    ensures forall k | 0 <= k < |sets| :: |sets[k]| > 0 ==> sets[k] in kept
  {
    Filter(sets, (s: seq<Comparator>) => |s| > 0)
  }

  /** The filter keeps a single set exactly when it is non-empty, and
      filters a concatenation piece by piece. */
  lemma NonEmptySetsConcat(a: seq<seq<Comparator>>, b: seq<seq<Comparator>>)
    ensures |a| == 1 ==> NonEmptySets(a) == if |a[0]| > 0 then a else []
    ensures NonEmptySets(a + b) == NonEmptySets(a) + NonEmptySets(b)
  {
    FilterConcat(a, b, (s: seq<Comparator>) => |s| > 0);
  }

  /** What `parseRange` gives for each `||` part of the range text, in order. */
  function PartSets(range: string, loose: bool): (ps: seq<Result<seq<Comparator>, Error>>)
    ensures |ps| == |SplitBars(range)|
  {
    ParsedParts(SplitBars(range), loose)
  }

  /** `parseRange` of each trimmed part, in order. */
  function ParsedParts(parts: seq<string>, loose: bool): (ps: seq<Result<seq<Comparator>, Error>>)
    ensures |ps| == |parts|
    ensures forall k | 0 <= k < |parts| :: ps[k] == ParseRange(Trim(parts[k]), loose)
  {
    if parts == [] then [] else [ParseRange(Trim(parts[0]), loose)] + ParsedParts(parts[1..], loose)
  }

  /** The `Range` constructor: split on `||` with the whitespace around it,
      parse each part, keep the non-empty sets, and throw when none is
      left.  The error of the first part that fails is thrown; when every
      part parses, the range holds their non-empty sets and is invalid
      exactly when all of them are empty. */
  function NewRange(range: string, options: Options): (r: Result<Range, Error>)
    ensures r.Ok? ==> r.value.raw == range && r.value.options == options
    ensures r.Ok? ==> |r.value.sets| > 0 && forall k | 0 <= k < |r.value.sets| :: |r.value.sets[k]| > 0
    ensures var ps := PartSets(range, options.loose);
            !AllOk(ps) ==>
              exists k | 0 <= k < |ps| :: ps[k].Err? && r == Err(ps[k].error) && OkBefore(ps, k)
    ensures var ps := PartSets(range, options.loose);
            AllOk(ps) ==> r == KeepSets(range, options, Values(ps))
  {
    var ps := PartSets(range, options.loose);
    if AllOk(ps) then
      CollectValues(ps);
      KeepSets(range, options, Values(ps))
    else
      Err(Collect(ps).error)
  }

  /** Every part parsed to no comparators. */
  predicate AllEmpty(ps: seq<Result<seq<Comparator>, Error>>) {
    forall k | 0 <= k < |ps| :: ps[k] == Ok([])
  }

  /** Some part parsed to comparators that allow `v`. */
  predicate SomePartAllows(ps: seq<Result<seq<Comparator>, Error>>, v: Version, includePrerelease: bool) {
    exists k | 0 <= k < |ps| :: ps[k].Ok? && |ps[k].value| > 0 && SetAllows(ps[k].value, v, includePrerelease)
  }

  /** When every `||` part parses, the range is invalid exactly when all
      of them are empty, as the loose-mode filter can make them. */
  lemma NoSetsLeft(range: string, options: Options)
    requires AllOk(PartSets(range, options.loose))
    ensures NewRange(range, options).Err? <==> AllEmpty(PartSets(range, options.loose))
    ensures NewRange(range, options).Err? ==> NewRange(range, options).error == InvalidRange(range)
  {
    KeptValues(range, options, PartSets(range, options.loose));
  }

  lemma KeptValues(range: string, options: Options, ps: seq<Result<seq<Comparator>, Error>>)
    requires AllOk(ps)
    ensures KeepSets(range, options, Values(ps)).Err? <==> AllEmpty(ps)
  {
    var sets := Values(ps);
    assert forall k | 0 <= k < |ps| :: sets[k] == ps[k].value;
  }

  /** A constructed range is the disjunction of its `||` parts: each part
      parses, and a version satisfies the range exactly when it satisfies
      the comparators of some part that has any. */
  lemma RangeIsDisjunction(range: string, options: Options, v: Version)
    requires NewRange(range, options).Ok?
    ensures AllOk(PartSets(range, options.loose))
    ensures RangeAllows(NewRange(range, options).value, v)
            <==> SomePartAllows(PartSets(range, options.loose), v, options.includePrerelease)
  {
    var ps := PartSets(range, options.loose);
    KeptAllows(range, options, ps, v);
  }

  lemma KeptAllows(range: string, options: Options, ps: seq<Result<seq<Comparator>, Error>>, v: Version)
    requires AllOk(ps)
    requires KeepSets(range, options, Values(ps)).Ok?
    ensures RangeAllows(KeepSets(range, options, Values(ps)).value, v)
            <==> SomePartAllows(ps, v, options.includePrerelease)
  {
    var sets := Values(ps);
    SomeSetAllows(sets, v, options.includePrerelease);
    assert forall k | 0 <= k < |ps| :: sets[k] == ps[k].value;
  }

  /** Some kept set allows a version exactly when some non-empty set does. */
  lemma SomeSetAllows(sets: seq<seq<Comparator>>, v: Version, ip: bool)
    ensures (exists k | 0 <= k < |NonEmptySets(sets)| :: SetAllows(NonEmptySets(sets)[k], v, ip))
            <==> exists k | 0 <= k < |sets| :: |sets[k]| > 0 && SetAllows(sets[k], v, ip)
  {
    var kept := NonEmptySets(sets);
    if exists k | 0 <= k < |kept| :: SetAllows(kept[k], v, ip) {
      var k :| 0 <= k < |kept| && SetAllows(kept[k], v, ip);
      var j :| 0 <= j < |sets| && sets[j] == kept[k];
      assert |sets[j]| > 0 && SetAllows(sets[j], v, ip);
    }
    if exists k | 0 <= k < |sets| :: |sets[k]| > 0 && SetAllows(sets[k], v, ip) {
      var k :| 0 <= k < |sets| && |sets[k]| > 0 && SetAllows(sets[k], v, ip);
      var j :| 0 <= j < |kept| && kept[j] == sets[k];
      assert SetAllows(kept[j], v, ip);
    }
  }

  /** The end of the constructor: the range of the non-empty sets, or the
      error when there is none. */
  function KeepSets(range: string, options: Options, sets: seq<seq<Comparator>>): (r: Result<Range, Error>)
    ensures r.Ok? ==> r.value.raw == range && r.value.options == options
    ensures r.Ok? ==> |r.value.sets| > 0 && forall k | 0 <= k < |r.value.sets| :: |r.value.sets[k]| > 0
    ensures r.Err? <==> forall k | 0 <= k < |sets| :: sets[k] == []
    ensures r.Err? ==> r.error == InvalidRange(range)
    ensures r.Ok? ==> r.value.sets == NonEmptySets(sets)
  {
    var kept := NonEmptySets(sets);
    if kept == [] then Err(InvalidRange(range))
    else
      assert kept[0] in sets;
      Ok(Range(range, options, kept))
  }

  // ---------------------------------------------------------------------------
  // What a range allows

  /** A comparator that lets prereleases of its own `major.minor.patch`
      through: a bound whose version has a prerelease. */
  predicate AdmitsPrerelease(c: Comparator, v: Version) {
    c.Bound? && c.version.prerelease != []
    && c.version.major == v.major && c.version.minor == v.minor && c.version.patch == v.patch
  }

  /** `testSet`: every comparator holds, and a prerelease version is only
      allowed when prereleases are included or some comparator of the set
      has a prerelease on the same `major.minor.patch`. */
  predicate SetAllows(comps: seq<Comparator>, v: Version, includePrerelease: bool) {
    (forall i | 0 <= i < |comps| :: Holds(comps[i], v))
    && (v.prerelease == [] || includePrerelease || exists i | 0 <= i < |comps| :: AdmitsPrerelease(comps[i], v))
  }

  /** `Range.prototype.test` on a version: some set allows it. */
  predicate RangeAllows(r: Range, v: Version) {
    exists k | 0 <= k < |r.sets| :: SetAllows(r.sets[k], v, r.options.includePrerelease)
  }

  /** `testSet`, with its two loops. */
  method TestSet(comps: seq<Comparator>, v: Version, includePrerelease: bool) returns (b: bool)
    ensures b == SetAllows(comps, v, includePrerelease)
  {
    for i := 0 to |comps|
      invariant forall j | 0 <= j < i :: Holds(comps[j], v)
    {
      var ok := Comparators.Test(comps[i], v);
      if !ok {
        return false;
      }
    }
    if |v.prerelease| > 0 && !includePrerelease {
      for i := 0 to |comps|
        invariant forall j | 0 <= j < i :: !AdmitsPrerelease(comps[j], v)
      {
        if comps[i].AnyVersion? {
          continue;
        }
        if |comps[i].version.prerelease| > 0 {
          var allowed := comps[i].version;
          if allowed.major == v.major && allowed.minor == v.minor && allowed.patch == v.patch {
            return true;
          }
        }
      }
      return false;
    }
    return true;
  }

  /** `Range.prototype.test` on a version, trying the sets in order. */
  method Test(r: Range, v: Version) returns (b: bool)
    ensures b == RangeAllows(r, v)
  {
    for k := 0 to |r.sets|
      invariant forall j | 0 <= j < k :: !SetAllows(r.sets[j], v, r.options.includePrerelease)
    {
      var ok := TestSet(r.sets[k], v, r.options.includePrerelease);
      if ok {
        return true;
      }
    }
    return false;
  }

  /** What `test` and `satisfies` are given: nothing, a text, or a version. */
  datatype Input = Missing | Text(text: string) | Value(version: Version)

  /** `Range.prototype.test`: a missing or empty input is not allowed, a
      text is parsed with the range's looseness first (its error is thrown),
      a version is taken as it is. */
  method TestInput(r: Range, input: Input) returns (res: Result<bool, Error>)
    ensures input == Missing || input == Text("") ==> res == Ok(false)
    ensures input.Value? ==> res == Ok(RangeAllows(r, input.version))
    ensures input.Text? && input.text != "" && NewSemVer(input.text, r.options.loose).Err? ==>
              res == Err(NewSemVer(input.text, r.options.loose).error)
    ensures input.Text? && input.text != "" && NewSemVer(input.text, r.options.loose).Ok? ==>
              res == Ok(RangeAllows(r, NewSemVer(input.text, r.options.loose).value))
  {
    match input
    case Missing =>
      return Ok(false);
    case Text(text) =>
      if text == "" {
        return Ok(false);
      }
      match NewSemVer(text, r.options.loose) {
        case Err(e) =>
          return Err(e);
        case Ok(v) =>
          var b := Test(r, v);
          return Ok(b);
      }
    case Value(v) =>
      var b := Test(r, v);
      return Ok(b);
  }

  /** `satisfies`: a range that cannot be constructed allows nothing; a
      version text that cannot be parsed still throws. */
  method Satisfies(input: Input, range: string, options: Options) returns (res: Result<bool, Error>)
    ensures NewRange(range, options).Err? ==> res == Ok(false)
    ensures NewRange(range, options).Ok? && (input == Missing || input == Text("")) ==> res == Ok(false)
    ensures NewRange(range, options).Ok? && input.Value? ==>
              res == Ok(RangeAllows(NewRange(range, options).value, input.version))
    ensures NewRange(range, options).Ok? && input.Text? && input.text != "" ==>
              res == match NewSemVer(input.text, options.loose)
                     case Err(e) => Err(e)
                     case Ok(v) => Ok(RangeAllows(NewRange(range, options).value, v))
  {
    var constructed := NewRange(range, options);
    if constructed.Err? {
      return Ok(false);
    }
    res := TestInput(constructed.value, input);
  }

  // ---------------------------------------------------------------------------
  // Formatting

  function ComparatorTexts(comps: seq<Comparator>): (texts: seq<string>)
    ensures |texts| == |comps| && forall k | 0 <= k < |comps| :: texts[k] == ComparatorText(comps[k])
  {
    seq(|comps|, k requires 0 <= k < |comps| => ComparatorText(comps[k]))
  }

  /** `Range.prototype.format`: each set's comparators joined with spaces,
      the sets joined with `||`. */
  function RangeText(r: Range): string {
    var sets := seq(|r.sets|, k requires 0 <= k < |r.sets| => Trim(Join(ComparatorTexts(r.sets[k]), " ")));
    Trim(Join(sets, "||"))
  }

  /** The joined values of a set of bounds need no trimming. */
  lemma SetTextWords(comps: seq<Comparator>)
    requires |comps| > 0
    requires forall i | 0 <= i < |comps| :: comps[i].Bound? && WellFormed(comps[i].version)
    ensures var j := Join(ComparatorTexts(comps), " ");
            j != [] && !IsSpace(j[0]) && !IsSpace(j[|j| - 1]) && Trim(j) == j
  {
    var texts := ComparatorTexts(comps);
    forall k | 0 <= k < |texts| ensures IsWord(texts[k]) {
      BoundTextWord(comps[k]);
    }
    TrimJoinWords(texts);
  }

  /** `format`: with only bounds in its sets, the range text is each set's
      comparator values joined by single spaces, and the sets joined by
      `||`, with nothing trimmed away. */
  lemma RangeTextOfBounds(r: Range)
    requires forall k | 0 <= k < |r.sets| :: |r.sets[k]| > 0
    requires forall k, i | 0 <= k < |r.sets| && 0 <= i < |r.sets[k]| :: r.sets[k][i].Bound? && WellFormed(r.sets[k][i].version)
    ensures RangeText(r) == Join(seq(|r.sets|, k requires 0 <= k < |r.sets| => Join(ComparatorTexts(r.sets[k]), " ")), "||")
  {
    var plain := seq(|r.sets|, k requires 0 <= k < |r.sets| => Join(ComparatorTexts(r.sets[k]), " "));
    var trimmed := seq(|r.sets|, k requires 0 <= k < |r.sets| => Trim(Join(ComparatorTexts(r.sets[k]), " ")));
    forall k | 0 <= k < |r.sets| ensures trimmed[k] == plain[k] && plain[k] != [] && !IsSpace(plain[k][0]) && !IsSpace(plain[k][|plain[k]| - 1]) {
      SetTextWords(r.sets[k]);
    }
    assert trimmed == plain;
    if |plain| > 0 {
      JoinEnds(plain, "||");
      TrimEdges(Join(plain, "||"));
    }
  }
}
