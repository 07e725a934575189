/** Versions: the `SemVer` constructor, `parse`, `valid` and `format`
    (semver.js lines 291-400). */
module SemVer {
  import opened Wrappers
  import opened Chars
  import opened Grammar
  import opened GrammarText

  /** MAX_LENGTH, the longest version string the constructor accepts. */
  const MAX_LENGTH: nat := 256

  /** Number.MAX_SAFE_INTEGER, 2^53 - 1. */
  const MAX_SAFE_INTEGER: nat := 9007199254740991

  /** A prerelease identifier: the source turns an all-digit identifier into
      a number and keeps every other identifier as text. */
  datatype Identifier = Num(n: nat) | Alpha(s: string)

  /** The fields of a constructed `SemVer` object that the library reads. */
  datatype Version = Version(major: nat, minor: nat, patch: nat,
                             prerelease: seq<Identifier>, build: seq<string>)

  /** The TypeErrors the library throws. */
  datatype Error =
    | VersionTooLong
    | InvalidVersion(version: string)
    | InvalidMajor
    | InvalidMinor
    | InvalidPatch
    | InvalidComparator(comparator: string)
    | InvalidRange(range: string)
    | InvalidOperator(op: string)

  function ParseIdentifier(id: string): Identifier {
    if |id| > 0 && AllDigits(id) then Num(DigitsValue(id)) else Alpha(id)
  }

  function IdentifierText(id: Identifier): string {
    match id
    case Num(n) => NatToString(n)
    case Alpha(s) => s
  }

  /** `m[4].split(".").map(...)`: the prerelease identifiers of a captured
      prerelease. */
  function ParsePrerelease(pre: string): seq<Identifier> {
    var ids := Split(pre, '.');
    seq(|ids|, i requires 0 <= i < |ids| => ParseIdentifier(ids[i]))
  }

  function IdentifierTexts(ids: seq<Identifier>): (texts: seq<string>)
    ensures |texts| == |ids|
  {
    seq(|ids|, i requires 0 <= i < |ids| => IdentifierText(ids[i]))
  }

  /** `prerelease.join(".")`. */
  function PrereleaseText(ids: seq<Identifier>): string {
    Join(IdentifierTexts(ids), ".")
  }

  /** What every constructed version satisfies: components within
      MAX_SAFE_INTEGER, textual prerelease identifiers that are not all
      digits, and well-formed build identifiers. */
  predicate ValidIdentifier(id: Identifier) {
    id.Alpha? ==> IsNonNumericId(id.s)
  }

  predicate WellFormed(v: Version) {
    v.major <= MAX_SAFE_INTEGER && v.minor <= MAX_SAFE_INTEGER && v.patch <= MAX_SAFE_INTEGER
    && (forall i | 0 <= i < |v.prerelease| :: ValidIdentifier(v.prerelease[i]))
    && (forall i | 0 <= i < |v.build| :: IsBuildId(v.build[i]))
  }

  /** The constructor's range checks on the three captured numbers, in the
      order it makes them: each above MAX_SAFE_INTEGER throws its own error,
      and a version it builds carries the three values. */
  predicate NumbersChecked(m: FullMatch, r: Result<Version, Error>)
    requires AllDigits(m.major) && AllDigits(m.minor) && AllDigits(m.patch)
  {
    var major, minor, patch := DigitsValue(m.major), DigitsValue(m.minor), DigitsValue(m.patch);
    (major > MAX_SAFE_INTEGER ==> r == Err(InvalidMajor))
    && (major <= MAX_SAFE_INTEGER && minor > MAX_SAFE_INTEGER ==> r == Err(InvalidMinor))
    && (major <= MAX_SAFE_INTEGER && minor <= MAX_SAFE_INTEGER && patch > MAX_SAFE_INTEGER ==> r == Err(InvalidPatch))
    && (r.Ok? ==> r.value.major == major && r.value.minor == minor && r.value.patch == patch)
  }

  /** `new SemVer(version, loose)` on a string: the texts it throws on and
      the version it builds otherwise. */
  function NewSemVer(text: string, loose: bool): (r: Result<Version, Error>)
    ensures |text| > MAX_LENGTH ==> r == Err(VersionTooLong)
    ensures |text| <= MAX_LENGTH && MatchFull(Trim(text), loose).None? ==> r == Err(InvalidVersion(text))
    ensures |text| <= MAX_LENGTH && MatchFull(Trim(text), loose).Some? ==> NumbersChecked(MatchFull(Trim(text), loose).value, r)
    ensures r.Ok? ==> WellFormed(r.value)
  {
    if |text| > MAX_LENGTH then Err(VersionTooLong)
    else
      match MatchFull(Trim(text), loose)
      case None => Err(InvalidVersion(text))
      case Some(m) =>
        var major, minor, patch := DigitsValue(m.major), DigitsValue(m.minor), DigitsValue(m.patch);
        if major > MAX_SAFE_INTEGER then Err(InvalidMajor)
        else if minor > MAX_SAFE_INTEGER then Err(InvalidMinor)
        else if patch > MAX_SAFE_INTEGER then Err(InvalidPatch)
        else
          PrereleaseWellFormed(m.pre, loose);
          Ok(Version(major, minor, patch, PrereleaseOf(m.pre), BuildOf(m.build)))
  }

  function PrereleaseOf(pre: Option<string>): seq<Identifier> {
    match pre
    case None => []
    case Some(p) => ParsePrerelease(p)
  }

  function BuildOf(build: Option<string>): seq<string> {
    match build
    case None => []
    case Some(b) => Split(b, '.')
  }

  lemma PrereleaseWellFormed(pre: Option<string>, loose: bool)
    requires pre.Some? ==> IsPrerelease(pre.value, loose)
    ensures forall i | 0 <= i < |PrereleaseOf(pre)| :: ValidIdentifier(PrereleaseOf(pre)[i])
  {
    if pre.Some? {
      var ids := Split(pre.value, '.');
      forall i | 0 <= i < |ids| ensures ValidIdentifier(ParseIdentifier(ids[i])) {
        assert IsPrereleaseId(ids[i], loose);
      }
    }
  }

  /** `parse`: null for a text longer than MAX_LENGTH, for one that does not
      match untrimmed, and for one the constructor rejects. */
  function Parse(text: string, loose: bool): (r: Option<Version>)
    ensures |text| > MAX_LENGTH ==> r.None?
    ensures MatchFull(text, loose).None? ==> r.None?
    ensures |text| <= MAX_LENGTH && MatchFull(text, loose).Some? && NewSemVer(text, loose).Ok?
            ==> r == Some(NewSemVer(text, loose).value)
    ensures r.Some? ==> NewSemVer(text, loose) == Ok(r.value)
  {
    if |text| > MAX_LENGTH then None
    else if MatchFull(text, loose).None? then None
    else
      match NewSemVer(text, loose)
      case Ok(v) => Some(v)
      case Err(_) => None
  }

  /** `format`, the canonical text kept in the `version` field: the three
      numbers and, when there is one, the prerelease; never the build. */
  function Format(v: Version): string {
    NatToString(v.major) + "." + NatToString(v.minor) + "." + NatToString(v.patch)
    + (if |v.prerelease| > 0 then "-" + PrereleaseText(v.prerelease) else "")
  }

  /** `valid`: the canonical text of a version that parses. */
  function Valid(text: string, loose: bool): Option<string> {
    match Parse(text, loose)
    case None => None
    case Some(v) => Some(Format(v))
  }

  // ---------------------------------------------------------------------------
  // Properties of the constructor, `format`, `parse` and `valid`

  /** Rendering an identifier and reading it back gives it again. */
  lemma IdentifierRoundTrip(id: Identifier, loose: bool)
    requires ValidIdentifier(id)
    ensures ParseIdentifier(IdentifierText(id)) == id
    ensures IsPrereleaseId(IdentifierText(id), loose) && '.' !in IdentifierText(id)
  {
    match id
    case Num(n) =>
      NatToStringValue(n);
    case Alpha(s) =>
      assert forall i | 0 <= i < |s| :: IsIdChar(s[i]);
  }

  /** A rendered prerelease is a prerelease in either dialect, and reading it
      back gives the same identifiers. */
  lemma PrereleaseRoundTrip(ids: seq<Identifier>, loose: bool)
    requires |ids| > 0
    requires forall i | 0 <= i < |ids| :: ValidIdentifier(ids[i])
    ensures IsPrerelease(PrereleaseText(ids), loose)
    ensures ParsePrerelease(PrereleaseText(ids)) == ids
  {
    var texts := IdentifierTexts(ids);
    forall k | 0 <= k < |texts| ensures '.' !in texts[k] && IsPrereleaseId(texts[k], loose)
                               && ParseIdentifier(texts[k]) == ids[k] {
      IdentifierRoundTrip(ids[k], loose);
    }
    SplitJoin(texts, '.');
    assert Split(PrereleaseText(ids), '.') == texts;
  }

  /** In the strict dialect the identifiers of a prerelease render back to
      exactly the captured text. */
  lemma StrictPrereleaseText(pre: string)
    requires IsPrerelease(pre, false)
    ensures PrereleaseText(ParsePrerelease(pre)) == pre
  {
    var parts := Split(pre, '.');
    var ids := ParsePrerelease(pre);
    forall k | 0 <= k < |parts| ensures IdentifierText(ids[k]) == parts[k] {
      assert IsPrereleaseId(parts[k], false);
      if |parts[k]| > 0 && AllDigits(parts[k]) {
        CanonicalDigitsRoundTrip(parts[k]);
      }
    }
    assert IdentifierTexts(ids) == parts;
    JoinSplit(pre, '.');
  }

  /** The prerelease part of the canonical text. */
  function PrereleasePart(ids: seq<Identifier>): string {
    if |ids| > 0 then PrereleaseText(ids) else ""
  }

  lemma FormatIsVersionText(v: Version)
    requires WellFormed(v)
    ensures Format(v) == VersionText(NatToString(v.major), NatToString(v.minor), NatToString(v.patch),
                                     PrereleasePart(v.prerelease), "")
    ensures |v.prerelease| > 0 ==> PrereleasePart(v.prerelease) != []
  {
    if |v.prerelease| > 0 {
      var texts := IdentifierTexts(v.prerelease);
      IdentifierRoundTrip(v.prerelease[0], false);
      JoinNonEmpty(texts);
    }
  }

  lemma JoinNonEmpty(texts: seq<string>)
    requires |texts| > 0 && |texts[0]| > 0
    ensures Join(texts, ".") != []
  {
  }

  /** The constructor on a text whose trimmed form matches, with numbers in range. */
  lemma NewSemVerOfMatch(text: string, loose: bool, m: FullMatch)
    requires |text| <= MAX_LENGTH && MatchFull(Trim(text), loose) == Some(m)
    requires DigitsValue(m.major) <= MAX_SAFE_INTEGER && DigitsValue(m.minor) <= MAX_SAFE_INTEGER
             && DigitsValue(m.patch) <= MAX_SAFE_INTEGER
    ensures NewSemVer(text, loose) == Ok(Version(DigitsValue(m.major), DigitsValue(m.minor), DigitsValue(m.patch),
                                                 PrereleaseOf(m.pre), BuildOf(m.build)))
  {
  }

  lemma FormatMatches(v: Version, loose: bool)
    requires WellFormed(v)
    ensures MatchFull(Trim(Format(v)), loose)
            == Some(FullMatch(NatToString(v.major), NatToString(v.minor), NatToString(v.patch),
                              OptionOf(PrereleasePart(v.prerelease)), None))
    ensures MatchFull(Format(v), loose) == MatchFull(Trim(Format(v)), loose)
  {
    var major, minor, patch := NatToString(v.major), NatToString(v.minor), NatToString(v.patch);
    var pre := PrereleasePart(v.prerelease);
    FormatIsVersionText(v);
    if |v.prerelease| > 0 {
      PrereleaseRoundTrip(v.prerelease, loose);
    }
    VersionTextMatches(major, minor, patch, pre, "", loose);
    VersionTextNoSpace(major, minor, patch, pre, "", loose);
  }

  /** Re-parsing the canonical text gives the version back, without its
      build metadata, in either dialect. */
  lemma FormatRoundTrip(v: Version, loose: bool)
    requires WellFormed(v)
    requires |Format(v)| <= MAX_LENGTH
    ensures NewSemVer(Format(v), loose) == Ok(v.(build := []))
    ensures Parse(Format(v), loose) == Some(v.(build := []))
  {
    var pre := PrereleasePart(v.prerelease);
    FormatMatches(v, loose);
    if |v.prerelease| > 0 {
      PrereleaseRoundTrip(v.prerelease, loose);
    }
    assert PrereleaseOf(OptionOf(pre)) == v.prerelease;
    NatToStringValue(v.major);
    NatToStringValue(v.minor);
    NatToStringValue(v.patch);
    NewSemVerOfMatch(Format(v), loose, MatchFull(Trim(Format(v)), loose).value);
  }

  /** The build metadata as it appears after `+` in a version text. */
  function BuildText(build: seq<string>): string {
    if |build| > 0 then "+" + Join(build, ".") else ""
  }

  /** The text of a version built from a strict match. */
  lemma StrictFormatOfMatch(m: FullMatch, v: Version)
    requires IsNumericId(m.major, false) && IsNumericId(m.minor, false) && IsNumericId(m.patch, false)
    requires m.pre.Some? ==> IsPrerelease(m.pre.value, false)
    requires m.build.Some? ==> m.build.value != []
    requires v == Version(DigitsValue(m.major), DigitsValue(m.minor), DigitsValue(m.patch),
                          PrereleaseOf(m.pre), BuildOf(m.build))
    requires WellFormed(v)
    ensures Format(v) + BuildText(v.build) == VersionText(m.major, m.minor, m.patch, TextOf(m.pre), TextOf(m.build))
  {
    CanonicalDigitsRoundTrip(m.major);
    CanonicalDigitsRoundTrip(m.minor);
    CanonicalDigitsRoundTrip(m.patch);
    FormatIsVersionText(v);
    if m.pre.Some? {
      StrictPrereleaseText(m.pre.value);
    }
    assert PrereleasePart(v.prerelease) == TextOf(m.pre);
    if m.build.Some? {
      JoinSplit(m.build.value, '.');
    }
    assert BuildText(v.build) == (if TextOf(m.build) == [] then "" else "+" + TextOf(m.build));
    VersionTextBuild(m.major, m.minor, m.patch, TextOf(m.pre), TextOf(m.build));
  }

  /** In the strict dialect the canonical text is the trimmed input without
      its leading `v` and without the build metadata, which `BuildText`
      gives back. */
  lemma StrictFormat(text: string, v: Version)
    requires NewSemVer(text, false) == Ok(v)
    ensures Format(v) + BuildText(v.build) == StripDecoration(Trim(text), false)
    ensures |Format(v)| <= |text|
  {
    var m := MatchFull(Trim(text), false).value;
    BuiltFromMatch(text, false, v);
    VersionTextSound(Trim(text), m);
    StrictFormatOfMatch(m, v);
  }

  /** A constructed version is made of the captures of the trimmed text. */
  lemma BuiltFromMatch(text: string, loose: bool, v: Version)
    requires NewSemVer(text, loose) == Ok(v)
    ensures MatchFull(Trim(text), loose).Some?
    ensures var m := MatchFull(Trim(text), loose).value;
            v == Version(DigitsValue(m.major), DigitsValue(m.minor), DigitsValue(m.patch),
                         PrereleaseOf(m.pre), BuildOf(m.build))
  {
  }

  /** `valid` is idempotent: the canonical text is valid and canonical again,
      provided it still fits in MAX_LENGTH, which in the strict dialect it
      always does because it is never longer than the input. */
  lemma ValidIdempotent(text: string, loose: bool)
    requires Valid(text, loose).Some?
    ensures |Valid(text, loose).value| <= MAX_LENGTH ==> Valid(Valid(text, loose).value, loose) == Valid(text, loose)
    ensures !loose ==> |Valid(text, loose).value| <= |text|
  {
    var v := Parse(text, loose).value;
    if |Format(v)| <= MAX_LENGTH {
      FormatRoundTrip(v, loose);
      assert Format(v.(build := [])) == Format(v);
    }
    if !loose {
      StrictFormat(text, v);
    }
  }

  lemma {:induction false} Pow10Monotone(a: nat, b: nat)
    requires a <= b
    ensures Pow10(a) <= Pow10(b)
    decreases b
  {
    if a < b { Pow10Monotone(a, b - 1); }
  }

  lemma {:induction false} Pow10Add(a: nat, b: nat)
    ensures Pow10(a + b) == Pow10(a) * Pow10(b)
  {
    if a > 0 { Pow10Add(a - 1, b); }
  }

  /** A canonical number of 17 or more digits is above MAX_SAFE_INTEGER. */
  lemma SeventeenDigitsTooBig(d: string)
    requires IsCanonicalDigits(d) && |d| >= 17
    ensures DigitsValue(d) > MAX_SAFE_INTEGER
  {
    LeadingNonZero(d);
    Pow10Monotone(16, |d| - 1);
    assert Pow10(4) == 10000;
    Pow10Add(4, 4);
    Pow10Add(8, 8);
  }

  lemma NewSemVerPatchError(text: string, loose: bool, m: FullMatch)
    requires |text| <= MAX_LENGTH && MatchFull(Trim(text), loose) == Some(m)
    requires DigitsValue(m.major) <= MAX_SAFE_INTEGER && DigitsValue(m.minor) <= MAX_SAFE_INTEGER
    requires DigitsValue(m.patch) > MAX_SAFE_INTEGER
    ensures NewSemVer(text, loose) == Err(InvalidPatch)
  {
  }

  lemma OneTwoMatches(d: string, loose: bool)
    requires IsCanonicalDigits(d)
    ensures MatchFull(Trim("1.2." + d), loose) == Some(FullMatch("1", "2", d, None, None))
    ensures MatchFull("1.2." + d, loose) == Some(FullMatch("1", "2", d, None, None))
  {
    assert "1.2." + d == VersionText("1", "2", d, "", "");
    VersionTextMatches("1", "2", d, "", "", loose);
    VersionTextNoSpace("1", "2", d, "", "", loose);
  }

  /** A patch number of 17 or more digits is above MAX_SAFE_INTEGER, so the
      constructor throws the patch error, or the length error once the
      text passes MAX_LENGTH, and `parse` and `valid` give null. */
  lemma LongPatchRejected(d: string, loose: bool)
    requires IsCanonicalDigits(d) && |d| >= 17
    ensures |d| <= MAX_LENGTH - 4 ==> NewSemVer("1.2." + d, loose) == Err(InvalidPatch)
    ensures |d| > MAX_LENGTH - 4 ==> NewSemVer("1.2." + d, loose) == Err(VersionTooLong)
    ensures Parse("1.2." + d, loose) == None && Valid("1.2." + d, loose) == None
  {
    var text := "1.2." + d;
    OneTwoMatches(d, loose);
    SeventeenDigitsTooBig(d);
    assert DigitsValue("1") == 1 && DigitsValue("2") == 2;
    if |text| <= MAX_LENGTH {
      NewSemVerPatchError(text, loose, FullMatch("1", "2", d, None, None));
    }
  }

  /** A string of `n` copies of `c`: `new Array(n + 1).join(c)`. */
  function Repeat(c: char, n: nat): (s: string)
    ensures |s| == n && forall i | 0 <= i < n :: s[i] == c
  {
    seq(n, i => c)
  }

  /** The two big-number cases of the library's tests. */
  lemma BigNumberCases(loose: bool)
    ensures NewSemVer("1.2." + Repeat('1', 255), loose) == Err(VersionTooLong)
    ensures NewSemVer("1.2." + Repeat('1', 99), loose) == Err(InvalidPatch)
    ensures Valid("1.2." + Repeat('1', 255), loose) == None && Valid("1.2." + Repeat('1', 99), loose) == None
  {
    LongPatchRejected(Repeat('1', 255), loose);
    LongPatchRejected(Repeat('1', 99), loose);
  }
}
