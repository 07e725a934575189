/** The version and range grammar of semver.js (lines 23-281), written as
    recognizers over strings instead of compiled regular expressions.

    Each recognizer returns what the corresponding anchored expression
    captures, choosing among several possible matches the one the
    expression's backtracking order picks first.  For these expressions
    that order is maximal munch everywhere (digit runs, the `[v=\s]*`
    decoration, the `(<|>)?=?` operator) with two exceptions, both in the
    loose dialect and both written out below: the `-?` before a prerelease
    is taken only when what follows it still parses, and a patch number
    directly followed by `.` gives up its last digit to the prerelease
    (`1.2.34.5` is `1.2.3` with prerelease `4.5`). */
module Grammar {
  import opened Wrappers
  import opened Chars

  /** NUMERICIDENTIFIER `0|[1-9]\d*`, or NUMERICIDENTIFIERLOOSE `[0-9]+`. */
  predicate IsNumericId(s: string, loose: bool) {
    |s| > 0 && AllDigits(s) && (loose || IsCanonicalDigits(s))
  }

  predicate AllIdChars(s: string) { forall i | 0 <= i < |s| :: IsIdChar(s[i]) }

  /** NONNUMERICIDENTIFIER `\d*[a-zA-Z-][a-zA-Z0-9-]*`. */
  predicate IsNonNumericId(s: string) {
    |s| > 0 && AllIdChars(s) && !AllDigits(s)
  }

  /** PRERELEASEIDENTIFIER, or PRERELEASEIDENTIFIERLOOSE. */
  predicate IsPrereleaseId(s: string, loose: bool) {
    IsNumericId(s, loose) || IsNonNumericId(s)
  }

  /** BUILDIDENTIFIER `[0-9A-Za-z-]+`. */
  predicate IsBuildId(s: string) { |s| > 0 && AllIdChars(s) }

  /** One or more dot-separated prerelease identifiers. */
  predicate IsPrerelease(s: string, loose: bool) {
    var ids := Split(s, '.');
    forall k | 0 <= k < |ids| :: IsPrereleaseId(ids[k], loose)
  }

  /** One or more dot-separated build identifiers. */
  predicate IsBuild(s: string) {
    var ids := Split(s, '.');
    forall k | 0 <= k < |ids| :: IsBuildId(ids[k])
  }

  /** The characters of the loose `[v=\s]*` decoration. */
  predicate IsDecor(c: char) { c == 'v' || c == '=' || IsSpace(c) }

  // ---------------------------------------------------------------------------
  // The prerelease and build tail shared by FULL, LOOSE and XRANGEPLAIN

  datatype Tail = Tail(pre: Option<string>, build: Option<string>)

  /** `(?:-(PRE))?(?:\+(BUILD))?$` (strict) or `(?:-?(PRE))?(?:\+(BUILD))?$`
      (loose).  The prerelease, when present, runs up to the first `+`.  */
  function MatchTail(r: string, loose: bool): (t: Option<Tail>)
    ensures t.Some? && t.value.pre.Some? ==> IsPrerelease(t.value.pre.value, loose)
    ensures t.Some? && t.value.build.Some? ==> IsBuild(t.value.build.value)
  {
    var j := IndexOf(r, '+');
    var p := r[..j];
    var b := r[j..];
    if b != [] && !IsBuild(b[1..]) then None
    else
      var build := if b == [] then None else Some(b[1..]);
      if p == [] then Some(Tail(None, build))
      else if p[0] == '-' && IsPrerelease(p[1..], loose) then Some(Tail(Some(p[1..]), build))
      else if loose && IsPrerelease(p, loose) then Some(Tail(Some(p), build))
      else None
  }

  // ---------------------------------------------------------------------------
  // FULL and LOOSE

  datatype FullMatch = FullMatch(major: string, minor: string, patch: string,
                                 pre: Option<string>, build: Option<string>)

  /** Strip the decoration FULL (`v?`) or LOOSE (`[v=\s]*`) allows in front. */
  function StripDecoration(s: string, loose: bool): (t: string)
    ensures |t| <= |s|
  {
    if loose then s[LeadingRun(s, IsDecor)..]
    else if |s| > 0 && s[0] == 'v' then s[1..]
    else s
  }

  /** The anchored FULL expression (`loose == false`) or LOOSE expression. */
  function MatchFull(s: string, loose: bool): (r: Option<FullMatch>)
    ensures r.Some? ==> IsNumericId(r.value.major, loose) && IsNumericId(r.value.minor, loose)
                        && IsNumericId(r.value.patch, loose)
    ensures r.Some? && r.value.pre.Some? ==> IsPrerelease(r.value.pre.value, loose)
    ensures r.Some? && r.value.build.Some? ==> IsBuild(r.value.build.value)
  {
    MatchMain(StripDecoration(s, loose), loose)
  }

  /** The digit run at the start of `t` when a `.` follows it, and what
      follows the `.`. */
  function DigitsThenDot(t: string): (r: Option<(string, string)>)
    ensures r.Some? ==> AllDigits(r.value.0)
    ensures r.Some? ==> |r.value.0| < |t|
  {
    var a := LeadingRun(t, IsDigit);
    if a < |t| && t[a] == '.' then Some((t[..a], t[a + 1..])) else None
  }

  /** The three dot-separated digit runs at the start of an undecorated
      string, and what follows them. */
  datatype MainParts = MainParts(major: string, minor: string, patch: string, rest: string)

  function SplitMain(t: string): (r: Option<MainParts>)
    ensures r.Some? ==> AllDigits(r.value.major) && AllDigits(r.value.minor) && AllDigits(r.value.patch)
    ensures r.Some? && r.value.rest != [] ==> !IsDigit(r.value.rest[0])
  {
    match DigitsThenDot(t)
    case None => None
    case Some((major, t1)) =>
      match DigitsThenDot(t1)
      case None => None
      case Some((minor, t2)) =>
        var c := LeadingRun(t2, IsDigit);
        Some(MainParts(major, minor, t2[..c], t2[c..]))
  }

  /** MAINVERSION followed by the tail, on an undecorated string. */
  function MatchMain(t: string, loose: bool): (r: Option<FullMatch>)
    ensures r.Some? ==> IsNumericId(r.value.major, loose) && IsNumericId(r.value.minor, loose)
                        && IsNumericId(r.value.patch, loose)
    ensures r.Some? && r.value.pre.Some? ==> IsPrerelease(r.value.pre.value, loose)
    ensures r.Some? && r.value.build.Some? ==> IsBuild(r.value.build.value)
  {
    match SplitMain(t)
    case None => None
    case Some(MainParts(major, minor, patch, rest)) =>
      if !IsNumericId(major, loose) || !IsNumericId(minor, loose) || !IsNumericId(patch, loose) then None
      else
        match MatchTail(rest, loose)
        case Some(tail) => Some(FullMatch(major, minor, patch, tail.pre, tail.build))
        case None =>
          var c := |patch|;
          if loose && c >= 2 && rest != [] && rest[0] == '.' then
            match MatchTail(patch[c - 1..] + rest, loose)
            case Some(tail) => Some(FullMatch(major, minor, patch[..c - 1], tail.pre, tail.build))
            case None => None
          else None
  }

  // ---------------------------------------------------------------------------
  // XRANGEPLAIN and the expressions built on it

  /** An XRANGEPLAIN match.  A component whose group did not take part in the
      match is the empty string, which the desugaring treats as a wildcard
      just as the source treats `undefined`. */
  datatype XRangeMatch = XRangeMatch(major: string, minor: string, patch: string,
                                     pre: Option<string>, build: Option<string>)

  predicate IsWildcardChar(c: char) { c == 'x' || c == 'X' || c == '*' }

  /** The length of the XRANGEIDENTIFIER (`0|[1-9]\d*|x|X|\*`, or its loose
      form `[0-9]+|x|X|\*`) at the start of `t`. */
  function XId(t: string, loose: bool): (n: Option<nat>)
    ensures n.Some? ==> 0 < n.value <= |t|
    ensures n.Some? ==> (n.value == 1 && IsWildcardChar(t[0])) || IsNumericId(t[..n.value], loose)
    ensures n.Some? && n.value < |t| ==> !IsDigit(t[n.value]) || IsWildcardChar(t[0])
  {
    if |t| > 0 && IsWildcardChar(t[0]) then Some(1)
    else
      var d := LeadingRun(t, IsDigit);
      if d > 0 && IsNumericId(t[..d], loose) then Some(d) else None
  }

  /** An XRANGEIDENTIFIER: a wildcard character or a numeric identifier. */
  predicate IsXComponent(s: string, loose: bool) {
    (|s| == 1 && IsWildcardChar(s[0])) || IsNumericId(s, loose)
  }

  /** What an XRANGEPLAIN match can capture: a major component, then
      optional minor and patch components, and a prerelease or build only
      after a patch component. */
  predicate ValidXRangeMatch(x: XRangeMatch, loose: bool) {
    IsXComponent(x.major, loose)
    && (x.minor == [] || IsXComponent(x.minor, loose))
    && (x.patch == [] || IsXComponent(x.patch, loose))
    && (x.minor == [] ==> x.patch == [])
    && (x.patch == [] ==> x.pre.None? && x.build.None?)
    && (x.pre.Some? ==> IsPrerelease(x.pre.value, loose))
    && (x.build.Some? ==> IsBuild(x.build.value))
  }

  /** An XRANGEIDENTIFIER at the start of `t`, and what follows it. */
  function XIdThen(t: string, loose: bool): (r: Option<(string, string)>)
    ensures r.Some? ==> IsXComponent(r.value.0, loose)
    ensures r.Some? && r.value.1 != [] && !IsWildcardChar(r.value.0[0]) ==> !IsDigit(r.value.1[0])
    ensures r.Some? ==> |r.value.1| < |t|
  {
    match XId(t, loose)
    case None => None
    case Some(a) => Some((t[..a], t[a..]))
  }

  /** The tail after a patch component, with the loose backtrack of a
      numeric patch's last digit. */
  function MatchXTail(major: string, minor: string, patch: string, rest: string, loose: bool): (r: Option<XRangeMatch>)
    requires IsXComponent(major, loose) && IsXComponent(minor, loose) && IsXComponent(patch, loose)
    ensures r.Some? ==> ValidXRangeMatch(r.value, loose)
  {
    match MatchTail(rest, loose)
    case Some(tail) => Some(XRangeMatch(major, minor, patch, tail.pre, tail.build))
    case None =>
      var c := |patch|;
      if loose && c >= 2 && rest != [] && rest[0] == '.' then
        match MatchTail(patch[c - 1..] + rest, loose)
        case Some(tail) => Some(XRangeMatch(major, minor, patch[..c - 1], tail.pre, tail.build))
        case None => None
      else None
  }

  /** The anchored XRANGEPLAIN (or XRANGEPLAINLOOSE) expression:
      `[v=\s]*(XID)(?:\.(XID)(?:\.(XID)(?:PRE)?(?:BUILD)?)?)?`. */
  function MatchXRangePlain(s: string, loose: bool): (r: Option<XRangeMatch>)
    ensures r.Some? ==> ValidXRangeMatch(r.value, loose)
  {
    var t := s[LeadingRun(s, IsDecor)..];
    match XIdThen(t, loose)
    case None => None
    case Some((major, r)) =>
      if r == [] then Some(XRangeMatch(major, "", "", None, None))
      else if r[0] != '.' then None
      else
        match XIdThen(r[1..], loose)
        case None => None
        case Some((minor, r1)) =>
          if r1 == [] then Some(XRangeMatch(major, minor, "", None, None))
          else if r1[0] != '.' then None
          else
            match XIdThen(r1[1..], loose)
            case None => None
            case Some((patch, rest)) => MatchXTail(major, minor, patch, rest, loose)
  }

  /** TILDE `^(?:~>?)XRANGEPLAIN$`. */
  function MatchTilde(s: string, loose: bool): Option<XRangeMatch> {
    if |s| > 0 && s[0] == '~' then
      if |s| > 1 && s[1] == '>' then MatchXRangePlain(s[2..], loose) else MatchXRangePlain(s[1..], loose)
    else None
  }

  /** CARET `^(?:\^)XRANGEPLAIN$`. */
  function MatchCaret(s: string, loose: bool): Option<XRangeMatch> {
    if |s| > 0 && s[0] == '^' then MatchXRangePlain(s[1..], loose) else None
  }

  /** The length of the GTLT operator `(?:<|>)?=?` at the start of `s`. */
  function Gtlt(s: string): (n: nat)
    ensures n <= 2 && n <= |s|
    ensures s[..n] in {"", "<", ">", "<=", ">=", "="}
  {
    if |s| > 0 && (s[0] == '<' || s[0] == '>') then
      if |s| > 1 && s[1] == '=' then
        assert s[..2] == [s[0], '='];
        2
      else
        assert s[..1] == [s[0]];
        1
    else if |s| > 0 && s[0] == '=' then
      assert s[..1] == "=";
      1
    else 0
  }

  /** XRANGE `^GTLT\s*XRANGEPLAIN$`: the operator text and the operand.  The
      `\s*` is subsumed by the operand's own `[v=\s]*`. */
  function MatchXRange(s: string, loose: bool): Option<(string, XRangeMatch)> {
    var g := Gtlt(s);
    match MatchXRangePlain(s[g..], loose)
    case None => None
    case Some(x) => Some((s[..g], x))
  }

  /** What COMPARATOR (`^GTLT\s*(FULLPLAIN)$|^$`) or COMPARATORLOOSE captures. */
  datatype ComparatorMatch = EmptyMatch | OperatorMatch(op: string, version: string)

  function MatchComparator(s: string, loose: bool): (r: Option<ComparatorMatch>)
    ensures r == Some(EmptyMatch) <==> s == []
    ensures r.Some? && r.value.OperatorMatch? ==> MatchFull(r.value.version, loose).Some?
    ensures r.Some? && r.value.OperatorMatch? ==> r.value.op in {"", "<", ">", "<=", ">=", "="}
  {
    if s == [] then Some(EmptyMatch)
    else
      var g := Gtlt(s);
      var rest := s[g..];
      var v := rest[LeadingRun(rest, IsSpace)..];
      if MatchFull(v, loose).Some? then Some(OperatorMatch(s[..g], v)) else None
  }

  /** HYPHENRANGE `^\s*(XRANGEPLAIN)\s+-\s+(XRANGEPLAIN)\s*$`: the text of both
      sides and what each captures.  The first side's text ends at the first
      whitespace after its decoration, because nothing after the decoration
      may contain whitespace. */
  datatype HyphenMatch = HyphenMatch(from: string, fromParts: XRangeMatch, to: string, toParts: XRangeMatch)

  function MatchHyphen(s: string, loose: bool): (r: Option<HyphenMatch>)
    ensures r.Some? ==> ValidXRangeMatch(r.value.fromParts, loose) && ValidXRangeMatch(r.value.toParts, loose)
  {
    var c := s[LeadingRun(s, IsSpace)..];
    var d := LeadingRun(c, IsDecor);
    var e := d + FirstWhere(c[d..], IsSpace);
    var from, rest := c[..e], c[e..];
    var w1 := LeadingRun(rest, IsSpace);
    if w1 == 0 || w1 >= |rest| || rest[w1] != '-' then None
    else
      var rest2 := rest[w1 + 1..];
      var w2 := LeadingRun(rest2, IsSpace);
      if w2 == 0 then None
      else
        var to0 := rest2[w2..];
        var to := to0[..|to0| - TrailingRun(to0, IsSpace)];
        match (MatchXRangePlain(from, loose), MatchXRangePlain(to, loose))
        case (Some(f), Some(t)) => Some(HyphenMatch(from, f, to, t))
        case _ => None
  }
}

/** Lemmas: the recognizers read back the texts that the library assembles. */
module GrammarText {
  import opened Wrappers
  import opened Chars
  import opened Grammar

  function OptionOf(s: string): Option<string> {
    if s == [] then None else Some(s)
  }

  /** The text after the patch number: `-pre` and `+build`, each when present. */
  function TailText(pre: string, build: string): string {
    (if pre == [] then "" else "-" + pre) + (if build == [] then "" else "+" + build)
  }

  /** `M.m.p[-pre][+build]`. */
  function VersionText(major: string, minor: string, patch: string, pre: string, build: string): string {
    major + "." + minor + "." + patch + TailText(pre, build)
  }

  predicate ValidTail(pre: string, build: string, loose: bool) {
    (pre == [] || IsPrerelease(pre, loose)) && (build == [] || IsBuild(build))
  }

  lemma {:induction false} LeadingRunConcat(a: string, b: string, p: char -> bool)
    requires forall i | 0 <= i < |a| :: p(a[i])
    requires b != [] ==> !p(b[0])
    ensures LeadingRun(a + b, p) == |a|
  {
    if a != [] {
      assert (a + b)[1..] == a[1..] + b;
      LeadingRunConcat(a[1..], b, p);
    } else {
      assert a + b == b;
    }
  }

  predicate AllChars(s: string, q: char -> bool) { forall i | 0 <= i < |s| :: q(s[i]) }

  /** Every character of a string whose `c`-separated pieces all satisfy `q`
      satisfies `q` or is `c`. */
  lemma {:induction false} SplitPieceChars(s: string, c: char, q: char -> bool)
    requires forall k | 0 <= k < |Split(s, c)| :: AllChars(Split(s, c)[k], q)
    ensures forall i | 0 <= i < |s| :: q(s[i]) || s[i] == c
    ensures Split(s, c)[0] == s[..IndexOf(s, c)]
    decreases |s|
  {
    var j := IndexOf(s, c);
    var parts := Split(s, c);
    if j < |s| {
      var rest := Split(s[j + 1..], c);
      assert parts == [s[..j]] + rest;
      forall k | 0 <= k < |rest| ensures AllChars(rest[k], q) {
        assert rest[k] == parts[k + 1];
      }
      SplitPieceChars(s[j + 1..], c, q);
      assert AllChars(parts[0], q);
      forall i | 0 <= i < |s| ensures q(s[i]) || s[i] == c {
        if i < j { assert s[i] == parts[0][i]; }
        else if i > j { assert s[i] == s[j + 1..][i - j - 1]; }
      }
    } else {
      assert parts[0] == s;
      assert AllChars(parts[0], q);
    }
  }

  predicate IsIdCharOrDot(c: char) { IsIdChar(c) || c == '.' }

  lemma PrereleaseChars(s: string, loose: bool)
    requires IsPrerelease(s, loose)
    ensures forall i | 0 <= i < |s| :: IsIdCharOrDot(s[i])
    ensures |s| > 0
  {
    var parts := Split(s, '.');
    forall k | 0 <= k < |parts| ensures AllChars(parts[k], IsIdCharOrDot) {
      assert IsPrereleaseId(parts[k], loose);
    }
    SplitPieceChars(s, '.', IsIdCharOrDot);
    assert IsPrereleaseId(parts[0], loose);
  }

  lemma BuildChars(s: string)
    requires IsBuild(s)
    ensures forall i | 0 <= i < |s| :: IsIdCharOrDot(s[i])
    ensures |s| > 0
  {
    var parts := Split(s, '.');
    forall k | 0 <= k < |parts| ensures AllChars(parts[k], IsIdCharOrDot) {
      assert IsBuildId(parts[k]);
    }
    SplitPieceChars(s, '.', IsIdCharOrDot);
    assert IsBuildId(parts[0]);
  }

  lemma {:induction false} NoPlus(s: string)
    requires forall i | 0 <= i < |s| :: IsIdCharOrDot(s[i])
    ensures IndexOf(s, '+') == |s|
  {
    if s != [] { NoPlus(s[1..]); }
  }

  /** The tail recognizer reads back `-pre+build`. */
  lemma TailTextMatches(pre: string, build: string, loose: bool)
    requires ValidTail(pre, build, loose)
    ensures MatchTail(TailText(pre, build), loose) == Some(Tail(OptionOf(pre), OptionOf(build)))
  {
    var r := TailText(pre, build);
    var head := if pre == [] then "" else "-" + pre;
    var tail := if build == [] then "" else "+" + build;
    assert r == head + tail;
    if pre != [] {
      PrereleaseChars(pre, loose);
      NoPlus(pre);
      NoPlus(head[1..]);
      assert head[1..] == pre;
    }
    assert '+' !in head by {
      if pre != [] {
        forall i | 0 <= i < |head| ensures head[i] != '+' {
          if i > 0 { assert head[i] == pre[i - 1]; }
        }
      }
    }
    IndexOfConcat(head, '+', tail);
    if build != [] {
      assert IndexOf(tail, '+') == 0;
    }
    assert IndexOf(r, '+') == |head|;
    assert r[..|head|] == head;
    assert r[|head|..] == tail;
  }

  lemma DotAfter(x: string, rest: string)
    requires |x| > 0 && AllDigits(x)
    ensures LeadingRun(x + "." + rest, IsDigit) == |x|
    ensures (x + "." + rest)[|x|] == '.'
    ensures (x + "." + rest)[..|x|] == x && (x + "." + rest)[|x| + 1..] == rest
  {
    assert x + "." + rest == x + ("." + rest);
    LeadingRunConcat(x, "." + rest, IsDigit);
  }

  lemma DigitsThenDotOf(x: string, rest: string)
    requires |x| > 0 && AllDigits(x)
    ensures DigitsThenDot(x + "." + rest) == Some((x, rest))
  {
    DotAfter(x, rest);
  }

  /** SplitMain reads back three digit runs and a tail that does not start
      with a digit. */
  lemma SplitMainOf(major: string, minor: string, patch: string, tl: string)
    requires |major| > 0 && AllDigits(major) && |minor| > 0 && AllDigits(minor) && AllDigits(patch)
    requires tl != [] ==> !IsDigit(tl[0])
    ensures SplitMain(major + "." + minor + "." + patch + tl) == Some(MainParts(major, minor, patch, tl))
  {
    var t2 := patch + tl;
    var t1 := minor + "." + t2;
    DotsAssociate(major, minor, patch, tl);
    DigitsThenDotOf(major, t1);
    DigitsThenDotOf(minor, t2);
    DigitsThenRest(patch, tl);
  }

  lemma DotsAssociate(major: string, minor: string, patch: string, tl: string)
    ensures major + "." + minor + "." + patch + tl == major + "." + (minor + "." + (patch + tl))
  {
  }

  lemma DigitsThenRest(patch: string, tl: string)
    requires AllDigits(patch)
    requires tl != [] ==> !IsDigit(tl[0])
    ensures LeadingRun(patch + tl, IsDigit) == |patch|
    ensures (patch + tl)[..|patch|] == patch && (patch + tl)[|patch|..] == tl
  {
    LeadingRunConcat(patch, tl, IsDigit);
  }

  lemma MainMatches(major: string, minor: string, patch: string, pre: string, build: string, loose: bool)
    requires IsNumericId(major, loose) && IsNumericId(minor, loose) && IsNumericId(patch, loose)
    requires ValidTail(pre, build, loose)
    ensures MatchMain(VersionText(major, minor, patch, pre, build), loose)
            == Some(FullMatch(major, minor, patch, OptionOf(pre), OptionOf(build)))
  {
    var tl := TailText(pre, build);
    TailTextMatches(pre, build, loose);
    assert tl != [] ==> !IsDigit(tl[0]);
    SplitMainOf(major, minor, patch, tl);
  }

  /** FULL and LOOSE read back `M.m.p[-pre][+build]`. */
  lemma VersionTextMatches(major: string, minor: string, patch: string, pre: string, build: string, loose: bool)
    requires IsNumericId(major, loose) && IsNumericId(minor, loose) && IsNumericId(patch, loose)
    requires ValidTail(pre, build, loose)
    ensures MatchFull(VersionText(major, minor, patch, pre, build), loose)
            == Some(FullMatch(major, minor, patch, OptionOf(pre), OptionOf(build)))
  {
    var s := VersionText(major, minor, patch, pre, build);
    assert s[0] == major[0];
    assert LeadingRun(s, IsDecor) == 0;
    assert StripDecoration(s, loose) == s;
    MainMatches(major, minor, patch, pre, build, loose);
  }

  function TextOf(o: Option<string>): string {
    match o case None => "" case Some(s) => s
  }

  /** In the strict dialect the tail is exactly `-pre+build`. */
  lemma TailSound(r: string, tl: Tail)
    requires MatchTail(r, false) == Some(tl)
    ensures tl.pre.Some? ==> tl.pre.value != []
    ensures tl.build.Some? ==> tl.build.value != []
    ensures r == TailText(TextOf(tl.pre), TextOf(tl.build))
  {
    var j := IndexOf(r, '+');
    assert r == r[..j] + r[j..];
    if tl.pre.Some? { PrereleaseChars(tl.pre.value, false); }
    if tl.build.Some? { BuildChars(tl.build.value); }
  }

  lemma DigitsThenDotSound(t: string)
    requires DigitsThenDot(t).Some?
    ensures t == DigitsThenDot(t).value.0 + "." + DigitsThenDot(t).value.1
  {
    var a := LeadingRun(t, IsDigit);
    assert t == t[..a] + [t[a]] + t[a + 1..];
  }

  lemma Assemble(t: string, major: string, t1: string, minor: string, t2: string, patch: string, rest: string)
    requires t == major + "." + t1 && t1 == minor + "." + t2 && t2 == patch + rest
    ensures t == major + "." + minor + "." + patch + rest
  {
  }

  lemma SplitMainSound(t: string)
    requires SplitMain(t).Some?
    ensures var mp := SplitMain(t).value; t == mp.major + "." + mp.minor + "." + mp.patch + mp.rest
  {
    var mp := SplitMain(t).value;
    DigitsThenDotSound(t);
    var (major, t1) := DigitsThenDot(t).value;
    DigitsThenDotSound(t1);
    var (minor, t2) := DigitsThenDot(t1).value;
    var c := LeadingRun(t2, IsDigit);
    assert t2 == t2[..c] + t2[c..];
    Assemble(t, major, t1, minor, t2, t2[..c], t2[c..]);
  }

  lemma MainSound(t: string, m: FullMatch)
    requires MatchMain(t, false) == Some(m)
    ensures m.pre.Some? ==> m.pre.value != []
    ensures m.build.Some? ==> m.build.value != []
    ensures t == VersionText(m.major, m.minor, m.patch, TextOf(m.pre), TextOf(m.build))
  {
    var mp := SplitMain(t).value;
    SplitMainSound(t);
    var tl := MatchTail(mp.rest, false).value;
    assert m == FullMatch(mp.major, mp.minor, mp.patch, tl.pre, tl.build);
    TailSound(mp.rest, tl);
  }

  /** In the strict dialect a match takes the undecorated text apart exactly:
      putting the captured parts back together gives it again. */
  lemma VersionTextSound(s: string, m: FullMatch)
    requires MatchFull(s, false) == Some(m)
    ensures m.pre.Some? ==> m.pre.value != []
    ensures m.build.Some? ==> m.build.value != []
    ensures StripDecoration(s, false)
            == VersionText(m.major, m.minor, m.patch, TextOf(m.pre), TextOf(m.build))
  {
    MainSound(StripDecoration(s, false), m);
  }

  lemma AllCharsConcat(a: string, b: string, q: char -> bool)
    requires AllChars(a, q) && AllChars(b, q)
    ensures AllChars(a + b, q)
  {
    forall i | 0 <= i < |a + b| ensures q((a + b)[i]) {
      if i >= |a| { assert (a + b)[i] == b[i - |a|]; }
    }
  }

  predicate IsVersionChar(c: char) { IsIdCharOrDot(c) || c == '+' }

  lemma NumericIdChars(s: string, loose: bool)
    requires IsNumericId(s, loose)
    ensures AllChars(s, IsVersionChar)
  {
  }

  /** An assembled version text holds no whitespace, so trimming keeps it. */
  lemma VersionTextNoSpace(major: string, minor: string, patch: string, pre: string, build: string, loose: bool)
    requires IsNumericId(major, loose) && IsNumericId(minor, loose) && IsNumericId(patch, loose)
    requires ValidTail(pre, build, loose)
    ensures NoSpace(VersionText(major, minor, patch, pre, build))
    ensures AllChars(VersionText(major, minor, patch, pre, build), IsVersionChar)
  {
    NumericIdChars(major, loose);
    NumericIdChars(minor, loose);
    NumericIdChars(patch, loose);
    var head := if pre == [] then "" else "-" + pre;
    var tail := if build == [] then "" else "+" + build;
    if pre != [] {
      PrereleaseChars(pre, loose);
      assert AllChars(pre, IsVersionChar);
      AllCharsConcat("-", pre, IsVersionChar);
    }
    if build != [] {
      BuildChars(build);
      assert AllChars(build, IsVersionChar);
      AllCharsConcat("+", build, IsVersionChar);
    }
    AllCharsConcat(head, tail, IsVersionChar);
    AllCharsConcat(major, ".", IsVersionChar);
    AllCharsConcat(major + ".", minor, IsVersionChar);
    AllCharsConcat(major + "." + minor, ".", IsVersionChar);
    AllCharsConcat(major + "." + minor + ".", patch, IsVersionChar);
    AllCharsConcat(major + "." + minor + "." + patch, TailText(pre, build), IsVersionChar);
    var s := VersionText(major, minor, patch, pre, build);
    assert AllChars(s, IsVersionChar);
    forall i | 0 <= i < |s| ensures !IsSpace(s[i]) {
      assert IsVersionChar(s[i]);
    }
  }

  /** Appending `+build` to a text without build metadata. */
  lemma VersionTextBuild(major: string, minor: string, patch: string, pre: string, build: string)
    ensures VersionText(major, minor, patch, pre, "") + (if build == [] then "" else "+" + build)
            == VersionText(major, minor, patch, pre, build)
  {
  }

  // ---------------------------------------------------------------------------
  // XRANGEPLAIN reads back the partial versions it describes

  /** A full atom's text is the version text of its parts. */
  lemma PlainVersionText(x: XRangeMatch)
    requires x.minor != [] && x.patch != []
    ensures PlainText(x) == VersionText(x.major, x.minor, x.patch, TextOf(x.pre), TextOf(x.build))
  {
  }

  /** The text of an x-range atom: the components present, dot-separated,
      and the prerelease and build after a patch component. */
  function PlainText(x: XRangeMatch): string {
    x.major + (if x.minor == [] then ""
               else "." + x.minor + (if x.patch == [] then ""
                                     else "." + x.patch + TailText(TextOf(x.pre), TextOf(x.build))))
  }

  lemma XIdThenOf(x: string, rest: string, loose: bool)
    requires IsXComponent(x, loose)
    requires rest != [] && !IsWildcardChar(x[0]) ==> !IsDigit(rest[0])
    ensures XIdThen(x + rest, loose) == Some((x, rest))
  {
    var t := x + rest;
    assert t[0] == x[0];
    if IsWildcardChar(x[0]) {
      assert t[..1] == x && t[1..] == rest;
    } else {
      LeadingRunConcat(x, rest, IsDigit);
      assert t[..|x|] == x && t[|x|..] == rest;
    }
  }

  lemma OptionOfTextOf(o: Option<string>)
    requires o.Some? ==> o.value != []
    ensures OptionOf(TextOf(o)) == o
  {
  }

  lemma PlainPatchMatches(x: XRangeMatch, loose: bool)
    requires ValidXRangeMatch(x, loose) && x.patch != []
    ensures XIdThen(x.patch + TailText(TextOf(x.pre), TextOf(x.build)), loose) == Some((x.patch, TailText(TextOf(x.pre), TextOf(x.build))))
    ensures MatchXTail(x.major, x.minor, x.patch, TailText(TextOf(x.pre), TextOf(x.build)), loose) == Some(x)
  {
    var pre, build := TextOf(x.pre), TextOf(x.build);
    if x.pre.Some? { PrereleaseChars(x.pre.value, loose); }
    if x.build.Some? { BuildChars(x.build.value); }
    OptionOfTextOf(x.pre);
    OptionOfTextOf(x.build);
    TailTextMatches(pre, build, loose);
    XIdThenOf(x.patch, TailText(pre, build), loose);
  }

  /** MatchXRangePlain is the inverse of PlainText. */
  lemma PlainTextMatches(x: XRangeMatch, loose: bool)
    requires ValidXRangeMatch(x, loose)
    ensures MatchXRangePlain(PlainText(x), loose) == Some(x)
  {
    var s := PlainText(x);
    assert s[0] == x.major[0];
    assert LeadingRun(s, IsDecor) == 0;
    if x.minor == [] {
      PlainMajorMatches(x, loose);
    } else if x.patch == [] {
      PlainMinorMatches(x, loose);
    } else {
      PlainFullMatches(x, loose);
    }
  }

  lemma PlainMajorMatches(x: XRangeMatch, loose: bool)
    requires ValidXRangeMatch(x, loose) && x.minor == []
    requires LeadingRun(PlainText(x), IsDecor) == 0
    ensures MatchXRangePlain(PlainText(x), loose) == Some(x)
  {
    assert PlainText(x) == x.major + [];
    XIdThenOf(x.major, [], loose);
  }

  lemma PlainMinorMatches(x: XRangeMatch, loose: bool)
    requires ValidXRangeMatch(x, loose) && x.minor != [] && x.patch == []
    requires LeadingRun(PlainText(x), IsDecor) == 0
    ensures MatchXRangePlain(PlainText(x), loose) == Some(x)
  {
    assert PlainText(x) == x.major + ("." + x.minor);
    XIdThenOf(x.major, "." + x.minor, loose);
    assert ("." + x.minor)[1..] == x.minor + [];
    XIdThenOf(x.minor, [], loose);
  }

  lemma PlainFullSteps(x: XRangeMatch, loose: bool)
    requires ValidXRangeMatch(x, loose) && x.minor != [] && x.patch != []
    ensures var t2 := x.patch + TailText(TextOf(x.pre), TextOf(x.build));
            var t1 := x.minor + ("." + t2);
            XIdThen(PlainText(x), loose) == Some((x.major, "." + t1))
            && XIdThen(("." + t1)[1..], loose) == Some((x.minor, "." + t2))
            && ("." + t2)[1..] == t2
  {
    var t2 := x.patch + TailText(TextOf(x.pre), TextOf(x.build));
    var t1 := x.minor + ("." + t2);
    assert PlainText(x) == x.major + ("." + t1);
    XIdThenOf(x.major, "." + t1, loose);
    assert ("." + t1)[1..] == t1;
    XIdThenOf(x.minor, "." + t2, loose);
    assert ("." + t2)[1..] == t2;
  }

  lemma PlainFullMatches(x: XRangeMatch, loose: bool)
    requires ValidXRangeMatch(x, loose) && x.minor != [] && x.patch != []
    requires LeadingRun(PlainText(x), IsDecor) == 0
    ensures MatchXRangePlain(PlainText(x), loose) == Some(x)
  {
    var tl := TailText(TextOf(x.pre), TextOf(x.build));
    var t2 := x.patch + tl;
    var t1 := x.minor + ("." + t2);
    PlainFullSteps(x, loose);
    PlainPatchMatches(x, loose);
    var s := PlainText(x);
    assert s[LeadingRun(s, IsDecor)..] == s;
    assert XIdThen(s, loose) == Some((x.major, "." + t1));
    var r := "." + t1;
    assert r != [] && r[0] == '.';
    assert XIdThen(r[1..], loose) == Some((x.minor, "." + t2));
    var r1 := "." + t2;
    assert r1 != [] && r1[0] == '.';
    assert XIdThen(r1[1..], loose) == Some((x.patch, tl));
  }
}
