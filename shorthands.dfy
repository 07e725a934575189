/** What the shorthand ranges mean: each rewrite, read back through the
    range parser, gives the comparators its comment promises, and those
    comparators allow the interval of versions the rule describes. */
module Shorthands {
  import opened Wrappers
  import opened Chars
  import opened Grammar
  import opened GrammarText
  import opened SemVer
  import opened Ordering
  import opened Comparators
  import opened Desugar
  import opened Ranges

  // ---------------------------------------------------------------------------
  // Words that the later passes leave alone

  /** A comparator word that the tilde, x-range and star passes return
      unchanged. */
  predicate Settled(w: string, loose: bool) {
    IsWord(w) && ReplaceTilde(w, loose) == w && ReplaceXRange(w, loose) == w && '*' !in w
  }

  lemma TildesKeep(words: seq<string>, loose: bool)
    requires |words| > 0 && forall k | 0 <= k < |words| :: Settled(words[k], loose)
    ensures ReplaceTildes(Join(words, " "), loose) == Join(words, " ")
  {
    TrimJoinWords(words);
    WordsJoin(words);
    var t := seq(|words|, i requires 0 <= i < |words| => ReplaceTilde(words[i], loose));
    assert t == words;
  }

  lemma XRangesKeep(words: seq<string>, loose: bool)
    requires |words| > 0 && forall k | 0 <= k < |words| :: Settled(words[k], loose)
    ensures ReplaceXRanges(Join(words, " "), loose) == Join(words, " ")
  {
    WordsJoin(words);
    var t := seq(|words|, i requires 0 <= i < |words| => ReplaceXRange(words[i], loose));
    assert t == words;
  }

  lemma StarsKeep(words: seq<string>, loose: bool)
    requires |words| > 0 && forall k | 0 <= k < |words| :: Settled(words[k], loose)
    ensures ReplaceStars(Join(words, " ")) == Join(words, " ")
  {
    TrimJoinWords(words);
    JoinAvoids(words, '*');
  }

  /** Settled words survive the passes after the caret pass. */
  lemma SettledPasses(words: seq<string>, loose: bool)
    requires |words| > 0 && forall k | 0 <= k < |words| :: Settled(words[k], loose)
    ensures ReplaceStars(ReplaceXRanges(ReplaceTildes(Join(words, " "), loose), loose)) == Join(words, " ")
  {
    TildesKeep(words, loose);
    XRangesKeep(words, loose);
    StarsKeep(words, loose);
  }

  // ---------------------------------------------------------------------------
  // A range of one token

  lemma NoHyphen(tok: string, loose: bool)
    requires IsWord(tok)
    ensures MatchHyphen(tok, loose) == None
  {
    assert LeadingRun(tok, IsSpace) == 0;
    var d := LeadingRun(tok, IsDecor);
    assert FirstWhere(tok[d..], IsSpace) == |tok| - d;
  }

  /** A range text without whitespace is one token for `parseComparator`. */
  lemma DesugaredToken(tok: string, loose: bool)
    requires IsWord(tok)
    ensures DesugaredWords(tok, loose) == Words(ParseComparator(tok, loose))
  {
    NoHyphen(tok, loose);
    WordsOfWord(tok);
    assert Join([tok], " ") == tok;
    assert IndexOf(tok, ' ') == |tok|;
    assert Split(tok, ' ') == [tok];
    assert Map([tok], t => ParseComparator(t, loose)) == [ParseComparator(tok, loose)];
  }

  lemma {:induction false} KeepAll(words: seq<string>, loose: bool)
    requires forall k | 0 <= k < |words| :: MatchComparator(words[k], loose).Some?
    ensures KeepComparators(words, loose) == words
  {
    if words != [] {
      assert forall k | 1 <= k < |words| :: words[k] == words[1..][k - 1];
      KeepAll(words[1..], loose);
    }
  }


  /** The comparators of a one-token range whose rewrite is the given
      comparator words. */
  lemma ParseToken(tok: string, words: seq<string>, loose: bool)
    requires IsWord(tok)
    requires |words| > 0 && forall k | 0 <= k < |words| :: IsWord(words[k])
    requires forall k | 0 <= k < |words| :: MatchComparator(words[k], loose).Some?
    requires ParseComparator(tok, loose) == Join(words, " ")
    ensures ParseRange(tok, loose) == Constructed(words, loose)
  {
    DesugaredToken(tok, loose);
    WordsJoin(words);
    KeepAll(words, loose);
  }

  // ---------------------------------------------------------------------------
  // Bound texts

  /** The parts of a full version atom, as XRANGEPLAIN captures them. */
  predicate FullAtom(x: XRangeMatch, loose: bool) {
    ValidXRangeMatch(x, loose) && IsNumericId(x.major, loose) && IsNumericId(x.minor, loose)
    && IsNumericId(x.patch, loose)
  }

  /** A comparator text `op` + `M.m.p[-pre]` passes the later rewrites
      unchanged. */
  lemma BoundSettled(op: string, major: string, minor: string, patch: string, pre: string, loose: bool)
    requires op in {"", "<", ">", "<=", ">="}
    requires IsNumericId(major, loose) && IsNumericId(minor, loose) && IsNumericId(patch, loose)
    requires ValidTail(pre, "", loose)
    ensures Settled(op + VersionText(major, minor, patch, pre, ""), loose)
  {
    BoundChars(op, major, minor, patch, pre, loose);
    BoundXRange(op, major, minor, patch, pre, loose);
  }

  lemma BoundChars(op: string, major: string, minor: string, patch: string, pre: string, loose: bool)
    requires op in {"", "<", ">", "<=", ">="}
    requires IsNumericId(major, loose) && IsNumericId(minor, loose) && IsNumericId(patch, loose)
    requires ValidTail(pre, "", loose)
    ensures var w := op + VersionText(major, minor, patch, pre, "");
            IsWord(w) && '*' !in w && w[0] != '~'
  {
    var t := VersionText(major, minor, patch, pre, "");
    var w := op + t;
    VersionTextNoSpace(major, minor, patch, pre, "", loose);
    assert t[0] == major[0];
    forall i | 0 <= i < |w| ensures !IsSpace(w[i]) && w[i] != '*' {
      if i >= |op| { assert w[i] == t[i - |op|] && IsVersionChar(t[i - |op|]); }
    }
  }

  lemma BoundXRange(op: string, major: string, minor: string, patch: string, pre: string, loose: bool)
    requires op in {"", "<", ">", "<=", ">="}
    requires IsNumericId(major, loose) && IsNumericId(minor, loose) && IsNumericId(patch, loose)
    requires ValidTail(pre, "", loose)
    requires NoSpace(op + VersionText(major, minor, patch, pre, ""))
    ensures ReplaceXRange(op + VersionText(major, minor, patch, pre, ""), loose)
            == op + VersionText(major, minor, patch, pre, "")
  {
    var w := op + VersionText(major, minor, patch, pre, "");
    var x := XRangeMatch(major, minor, patch, OptionOf(pre), None);
    BoundMatchesXRange(op, major, minor, patch, pre, loose);
    NumericNotX(major, loose);
    NumericNotX(minor, loose);
    NumericNotX(patch, loose);
    FullXRangeKept(op, x, w, loose);
    NoSpaceTrim(w);
    XRangeKept(w, op, x, loose);
  }

  lemma NumericNotX(s: string, loose: bool)
    requires IsNumericId(s, loose)
    ensures !IsX(s)
  {
    assert IsDigit(s[0]);
  }

  lemma NoSpaceTrim(w: string)
    requires NoSpace(w)
    ensures Trim(w) == w
  {
    if w != [] { TrimEdges(w); }
  }

  lemma XRangeKept(w: string, gtlt: string, x: XRangeMatch, loose: bool)
    requires Trim(w) == w && MatchXRange(w, loose) == Some((gtlt, x))
    requires ValidXRangeMatch(x, loose) && XRangeTextAsWritten(gtlt, x, w, loose) == w
    ensures ReplaceXRange(w, loose) == w
  {
  }

  lemma BoundMatchesXRange(op: string, major: string, minor: string, patch: string, pre: string, loose: bool)
    requires op in {"", "<", ">", "<=", ">="}
    requires IsNumericId(major, loose) && IsNumericId(minor, loose) && IsNumericId(patch, loose)
    requires ValidTail(pre, "", loose)
    ensures ValidXRangeMatch(XRangeMatch(major, minor, patch, OptionOf(pre), None), loose)
    ensures MatchXRange(op + VersionText(major, minor, patch, pre, ""), loose)
            == Some((op, XRangeMatch(major, minor, patch, OptionOf(pre), None)))
  {
    var t := VersionText(major, minor, patch, pre, "");
    assert t[0] == major[0];
    var x := XRangeMatch(major, minor, patch, OptionOf(pre), None);
    PlainVersionText(x);
    PlainTextMatches(x, loose);
    GtltBeforeDigit(op, t);
  }

  /** An atom without wildcards is returned as it was matched. */
  lemma FullXRangeKept(gtlt: string, x: XRangeMatch, whole: string, loose: bool)
    requires ValidXRangeMatch(x, loose)
    requires !IsX(x.major) && !IsX(x.minor) && !IsX(x.patch)
    ensures XRangeTextAsWritten(gtlt, x, whole, loose) == whole
  {
  }

  // ---------------------------------------------------------------------------
  // A caret or tilde token on a full atom

  /** The text of a full atom is a version text, and one word. */
  lemma FullPlainWord(x: XRangeMatch, loose: bool)
    requires FullAtom(x, loose)
    ensures PlainText(x) == VersionText(x.major, x.minor, x.patch, TextOf(x.pre), TextOf(x.build))
    ensures IsWord(PlainText(x))
  {
    PlainVersionText(x);
    assert ValidTail(TextOf(x.pre), TextOf(x.build), loose);
    VersionTextNoSpace(x.major, x.minor, x.patch, TextOf(x.pre), TextOf(x.build), loose);
    assert PlainText(x)[0] == x.major[0];
  }

  /** A word with one more non-space character in front. */
  lemma PrefixedWord(c: char, w: string)
    requires IsWord(w) && !IsSpace(c)
    ensures IsWord([c] + w) && ([c] + w)[1..] == w
  {
    forall i | 0 <= i < |[c] + w| ensures !IsSpace(([c] + w)[i]) {
      if i > 0 { assert ([c] + w)[i] == w[i - 1]; }
    }
  }

  /** A rewrite pass over a one-word text rewrites that word. */
  lemma SingleWordPass(tok: string, out: string, words: seq<string>, rewritten: seq<string>)
    requires words == [tok] && |rewritten| == 1 && rewritten[0] == out
    ensures Join(rewritten, " ") == out
  {
  }

  lemma CaretMatches(x: XRangeMatch, loose: bool)
    requires FullAtom(x, loose)
    ensures IsWord("^" + PlainText(x))
    ensures MatchCaret("^" + PlainText(x), loose) == Some(x)
  {
    FullPlainWord(x, loose);
    PrefixedWord('^', PlainText(x));
    PlainTextMatches(x, loose);
  }

  /** The caret pass over one word rewrites that word. */
  lemma CaretsOfWord(tok: string, loose: bool)
    requires IsWord(tok)
    ensures ReplaceCarets(tok, loose) == ReplaceCaret(tok, loose)
  {
    NoSpaceTrim(tok);
    WordsOfWord(tok);
    var words := Words(Trim(tok));
    var rewritten := seq(|words|, i requires 0 <= i < |words| => ReplaceCaret(words[i], loose));
    SingleWordPass(tok, ReplaceCaret(tok, loose), words, rewritten);
  }

  /** The caret pass turns `^` and a full atom into the caret callback's text. */
  lemma CaretRewrite(x: XRangeMatch, loose: bool)
    requires FullAtom(x, loose)
    ensures IsWord("^" + PlainText(x))
    ensures ReplaceCarets("^" + PlainText(x), loose) == CaretText(x, loose)
  {
    CaretMatches(x, loose);
    CaretsOfWord("^" + PlainText(x), loose);
  }

  /** `>=M.m.p[-pre]`: the lower bound that the caret and tilde callbacks
      write for a full atom. */
  function LowerText(x: XRangeMatch): string {
    ">=" + VersionText(x.major, x.minor, x.patch, TextOf(x.pre), "")
  }

  /** `<` and the least version past a caret interval: the left-most
      non-zero component goes up by one. */
  function CaretUpperText(x: XRangeMatch): string
    requires AllDigits(x.major) && AllDigits(x.minor) && AllDigits(x.patch)
  {
    "<" + (if x.major != "0" then VersionText(Succ(x.major), "0", "0", "", "")
           else if x.minor != "0" then VersionText(x.major, Succ(x.minor), "0", "", "")
           else VersionText(x.major, x.minor, Succ(x.patch), "", ""))
  }

  /** `<` and the least version past a tilde interval: the minor
      component goes up by one. */
  function TildeUpperText(x: XRangeMatch): string
    requires AllDigits(x.minor)
  {
    "<" + VersionText(x.major, Succ(x.minor), "0", "", "")
  }

  /** The captured prerelease does not start with `-`, so the callbacks
      as written keep its separator. */
  predicate NoLeadingDash(pre: Option<string>) {
    pre.None? || |pre.value| == 0 || pre.value[0] != '-'
  }

  lemma SuffixTail(x: XRangeMatch, loose: bool)
    requires FullAtom(x, loose) && NoLeadingDash(x.pre)
    ensures PrereleaseSuffixAsWritten(x.pre) == TailText(TextOf(x.pre), "")
  {
    if x.pre.Some? { PrereleaseChars(x.pre.value, loose); }
  }

  /** The shape of the full-atom callbacks' texts. */
  lemma BoundsShape(M: string, m: string, p: string, pr: string, A: string, B: string, C: string)
    ensures ">=" + M + "." + m + "." + p + pr + " <" + A + "." + B + "." + C
            == (">=" + (M + "." + m + "." + p + pr)) + " " + ("<" + VersionText(A, B, C, "", ""))
  {
  }

  lemma CaretSplit(x: XRangeMatch, loose: bool)
    requires FullAtom(x, loose) && NoLeadingDash(x.pre)
    ensures CaretText(x, loose) == LowerText(x) + " " + CaretUpperText(x)
  {
    SuffixTail(x, loose);
    if x.major != "0" {
      CaretSplitMajor(x, loose);
    } else if x.minor != "0" {
      CaretSplitMinor(x, loose);
    } else {
      CaretSplitPatch(x, loose);
    }
  }

  lemma CaretSplitMajor(x: XRangeMatch, loose: bool)
    requires FullAtom(x, loose) && x.major != "0"
    requires PrereleaseSuffixAsWritten(x.pre) == TailText(TextOf(x.pre), "")
    ensures CaretText(x, loose) == LowerText(x) + " " + CaretUpperText(x)
  {
    BoundsShape(x.major, x.minor, x.patch, PrereleaseSuffixAsWritten(x.pre), Succ(x.major), "0", "0");
  }

  lemma CaretSplitMinor(x: XRangeMatch, loose: bool)
    requires FullAtom(x, loose) && x.major == "0" && x.minor != "0"
    requires PrereleaseSuffixAsWritten(x.pre) == TailText(TextOf(x.pre), "")
    ensures CaretText(x, loose) == LowerText(x) + " " + CaretUpperText(x)
  {
    BoundsShape(x.major, x.minor, x.patch, PrereleaseSuffixAsWritten(x.pre), x.major, Succ(x.minor), "0");
  }

  lemma CaretSplitPatch(x: XRangeMatch, loose: bool)
    requires FullAtom(x, loose) && x.major == "0" && x.minor == "0"
    requires PrereleaseSuffixAsWritten(x.pre) == TailText(TextOf(x.pre), "")
    ensures CaretText(x, loose) == LowerText(x) + " " + CaretUpperText(x)
  {
    BoundsShape(x.major, x.minor, x.patch, PrereleaseSuffixAsWritten(x.pre), x.major, x.minor, Succ(x.patch));
  }

  lemma TildeSplit(x: XRangeMatch, loose: bool)
    requires FullAtom(x, loose) && NoLeadingDash(x.pre)
    ensures TildeText(x, loose) == LowerText(x) + " " + TildeUpperText(x)
  {
    SuffixTail(x, loose);
  }

  // ---------------------------------------------------------------------------
  // Reading the bounds back

  /** The version a full atom names, without its build metadata. */
  function AtomVersion(x: XRangeMatch): Version
    requires AllDigits(x.major) && AllDigits(x.minor) && AllDigits(x.patch)
  {
    Version(DigitsValue(x.major), DigitsValue(x.minor), DigitsValue(x.patch), PrereleaseOf(x.pre), [])
  }

  /** A number up to MAX_SAFE_INTEGER has at most 16 digits. */
  lemma ShortNumber(d: string)
    requires IsCanonicalDigits(d) && DigitsValue(d) <= MAX_SAFE_INTEGER
    ensures |d| <= 16
  {
    if |d| >= 17 { SeventeenDigitsTooBig(d); }
  }

  lemma SuccValue(d: string)
    requires AllDigits(d)
    ensures IsCanonicalDigits(Succ(d)) && DigitsValue(Succ(d)) == DigitsValue(d) + 1
  {
    NatToStringValue(DigitsValue(d) + 1);
  }

  lemma LowerSettled(x: XRangeMatch, loose: bool)
    requires FullAtom(x, loose)
    ensures Settled(LowerText(x), loose)
  {
    BoundSettled(">=", x.major, x.minor, x.patch, TextOf(x.pre), loose);
  }

  lemma LowerParses(x: XRangeMatch, loose: bool)
    requires FullAtom(x, loose) && |PlainText(x)| <= MAX_LENGTH
    requires DigitsValue(x.major) <= MAX_SAFE_INTEGER && DigitsValue(x.minor) <= MAX_SAFE_INTEGER
             && DigitsValue(x.patch) <= MAX_SAFE_INTEGER
    ensures NewComparator(LowerText(x), loose) == Ok(Bound(GteOp, AtomVersion(x)))
  {
    var P := TextOf(x.pre);
    if x.pre.Some? { PrereleaseChars(x.pre.value, loose); }
    OptionOfTextOf(x.pre);
    PlainVersionText(x);
    VersionTextBuild(x.major, x.minor, x.patch, P, TextOf(x.build));
    BoundTextParses(">=", x.major, x.minor, x.patch, P, loose);
  }

  lemma UpperSettled(A: string, B: string, C: string, loose: bool)
    requires IsCanonicalDigits(A) && IsCanonicalDigits(B) && IsCanonicalDigits(C)
    ensures Settled("<" + VersionText(A, B, C, "", ""), loose)
  {
    BoundSettled("<", A, B, C, "", loose);
  }

  /** `<A.B.C` with canonical numbers up to MAX_SAFE_INTEGER. */
  lemma UpperParses(A: string, B: string, C: string, loose: bool)
    requires IsCanonicalDigits(A) && IsCanonicalDigits(B) && IsCanonicalDigits(C)
    requires DigitsValue(A) <= MAX_SAFE_INTEGER && DigitsValue(B) <= MAX_SAFE_INTEGER
             && DigitsValue(C) <= MAX_SAFE_INTEGER
    ensures NewComparator("<" + VersionText(A, B, C, "", ""), loose)
            == Ok(Bound(LtOp, Version(DigitsValue(A), DigitsValue(B), DigitsValue(C), [], [])))
  {
    ShortNumber(A);
    ShortNumber(B);
    ShortNumber(C);
    ShortVersionText(A, B, C);
    UpperTextParses(A, B, C, loose);
  }

  lemma UpperTextParses(A: string, B: string, C: string, loose: bool)
    requires IsCanonicalDigits(A) && IsCanonicalDigits(B) && IsCanonicalDigits(C)
    requires DigitsValue(A) <= MAX_SAFE_INTEGER && DigitsValue(B) <= MAX_SAFE_INTEGER
             && DigitsValue(C) <= MAX_SAFE_INTEGER
    requires |VersionText(A, B, C, "", "")| <= MAX_LENGTH
    ensures NewComparator("<" + VersionText(A, B, C, "", ""), loose)
            == Ok(Bound(LtOp, Version(DigitsValue(A), DigitsValue(B), DigitsValue(C), [], [])))
  {
    var P: string := [];
    assert ParseOperator("<") == Some(LtOp);
    assert PrereleaseOf(OptionOf(P)) == [];
    BoundTextParses("<", A, B, C, P, loose);
  }

  lemma ShortVersionText(A: string, B: string, C: string)
    requires |A| <= 16 && |B| <= 16 && |C| <= 16
    ensures |VersionText(A, B, C, "", "")| <= MAX_LENGTH
  {
    assert TailText("", "") == "";
  }

  /** The least version past the caret interval of `v`. */
  function CaretUpper(v: Version): Version {
    if v.major != 0 then Version(v.major + 1, 0, 0, [], [])
    else if v.minor != 0 then Version(0, v.minor + 1, 0, [], [])
    else Version(0, 0, v.patch + 1, [], [])
  }

  /** The least version past the tilde interval of `v`. */
  function TildeUpper(v: Version): Version {
    Version(v.major, v.minor + 1, 0, [], [])
  }

  lemma ZeroText(d: string)
    requires IsCanonicalDigits(d)
    ensures d == "0" <==> DigitsValue(d) == 0
  {
    LeadingNonZero(d);
    if d[0] == '0' { assert d == "0"; }
  }

  /** The components of a full atom's upper bound. */
  lemma CaretUpperParts(x: XRangeMatch, loose: bool) returns (A: string, B: string, C: string)
    requires FullAtom(x, loose) && IsCanonicalDigits(x.major) && IsCanonicalDigits(x.minor)
    requires DigitsValue(x.major) < MAX_SAFE_INTEGER && DigitsValue(x.minor) < MAX_SAFE_INTEGER
             && DigitsValue(x.patch) < MAX_SAFE_INTEGER
    ensures IsCanonicalDigits(A) && IsCanonicalDigits(B) && IsCanonicalDigits(C)
    ensures DigitsValue(A) <= MAX_SAFE_INTEGER && DigitsValue(B) <= MAX_SAFE_INTEGER
            && DigitsValue(C) <= MAX_SAFE_INTEGER
    ensures CaretUpperText(x) == "<" + VersionText(A, B, C, "", "")
    ensures CaretUpper(AtomVersion(x)) == Version(DigitsValue(A), DigitsValue(B), DigitsValue(C), [], [])
  {
    ZeroText(x.major);
    ZeroText(x.minor);
    assert DigitsValue("0") == 0;
    if x.major != "0" {
      SuccValue(x.major);
      A, B, C := Succ(x.major), "0", "0";
    } else if x.minor != "0" {
      SuccValue(x.minor);
      A, B, C := x.major, Succ(x.minor), "0";
    } else {
      SuccValue(x.patch);
      A, B, C := x.major, x.minor, Succ(x.patch);
    }
  }

  lemma TildeUpperParts(x: XRangeMatch, loose: bool) returns (A: string, B: string, C: string)
    requires FullAtom(x, loose) && IsCanonicalDigits(x.major)
    requires DigitsValue(x.major) <= MAX_SAFE_INTEGER && DigitsValue(x.minor) < MAX_SAFE_INTEGER
    ensures IsCanonicalDigits(A) && IsCanonicalDigits(B) && IsCanonicalDigits(C)
    ensures DigitsValue(A) <= MAX_SAFE_INTEGER && DigitsValue(B) <= MAX_SAFE_INTEGER
            && DigitsValue(C) <= MAX_SAFE_INTEGER
    ensures TildeUpperText(x) == "<" + VersionText(A, B, C, "", "")
    ensures TildeUpper(AtomVersion(x)) == Version(DigitsValue(A), DigitsValue(B), DigitsValue(C), [], [])
  {
    assert DigitsValue("0") == 0;
    SuccValue(x.minor);
    A, B, C := x.major, Succ(x.minor), "0";
  }

  // ---------------------------------------------------------------------------
  // Caret and tilde ranges

  lemma JoinTwo(lo: string, hi: string)
    ensures Join([lo, hi], " ") == lo + " " + hi
  {
    assert [lo, hi][1..] == [hi];
  }

  /** Two comparator words meet the premises of ParseToken. */
  lemma TwoWords(words: seq<string>, lo: string, hi: string, loose: bool)
    requires words == [lo, hi] && IsWord(lo) && IsWord(hi)
    requires MatchComparator(lo, loose).Some? && MatchComparator(hi, loose).Some?
    ensures Join(words, " ") == lo + " " + hi
    ensures forall k | 0 <= k < |words| :: IsWord(words[k]) && MatchComparator(words[k], loose).Some?
  {
    JoinTwo(lo, hi);
  }

  lemma ConstructedTwo(lo: string, hi: string, a: Comparator, b: Comparator, loose: bool)
    requires NewComparator(lo, loose) == Ok(a) && NewComparator(hi, loose) == Ok(b)
    ensures Constructed([lo, hi], loose) == Ok([a, b])
  {
    var words := [lo, hi];
    var rs := Map(words, w => NewComparator(w, loose));
    assert rs[0] == Ok(a);
    assert rs[1] == Ok(b);
    CollectTwo(rs, a, b);
  }

  lemma OkMatches(text: string, loose: bool)
    requires NewComparator(text, loose).Ok?
    ensures MatchComparator(text, loose).Some?
  {
  }

  lemma CollectTwo<T, E>(rs: seq<Result<T, E>>, a: T, b: T)
    requires |rs| == 2 && rs[0] == Ok(a) && rs[1] == Ok(b)
    ensures Collect(rs) == Ok([a, b])
  {
    var r := Collect(rs);
    assert r.value[0] == a;
    assert r.value[1] == b;
    assert r.value == [a, b];
  }

  /** The later passes keep two settled bounds. */
  lemma TwoSettled(lo: string, hi: string, loose: bool)
    requires Settled(lo, loose) && Settled(hi, loose)
    ensures ReplaceStars(ReplaceXRanges(ReplaceTildes(lo + " " + hi, loose), loose)) == lo + " " + hi
  {
    JoinTwo(lo, hi);
    SettledPasses([lo, hi], loose);
  }

  lemma CaretComparators(x: XRangeMatch, loose: bool, hi: string)
    requires FullAtom(x, loose) && NoLeadingDash(x.pre) && hi == CaretUpperText(x) && Settled(hi, loose)
    ensures IsWord("^" + PlainText(x))
    ensures ParseComparator("^" + PlainText(x), loose) == LowerText(x) + " " + hi
  {
    CaretRewrite(x, loose);
    CaretSplit(x, loose);
    LowerSettled(x, loose);
    TwoSettled(LowerText(x), hi, loose);
  }

  /** `^M.m.p[-pre]` is the interval from the atom's version up to, not
      including, the version that bumps its left-most non-zero component:
      `>=M.m.p[-pre] <(M+1).0.0`, `<0.(m+1).0` when M is 0, `<0.0.(p+1)`
      when M and m are 0.  A prerelease that starts with `-` loses its
      separator in the callback, so it is excluded here. */
  lemma CaretRange(x: XRangeMatch, loose: bool)
    requires FullAtom(x, loose) && IsCanonicalDigits(x.major) && IsCanonicalDigits(x.minor)
    requires NoLeadingDash(x.pre) && |PlainText(x)| <= MAX_LENGTH
    requires DigitsValue(x.major) < MAX_SAFE_INTEGER && DigitsValue(x.minor) < MAX_SAFE_INTEGER
             && DigitsValue(x.patch) < MAX_SAFE_INTEGER
    ensures ParseRange("^" + PlainText(x), loose)
            == Ok([Bound(GteOp, AtomVersion(x)), Bound(LtOp, CaretUpper(AtomVersion(x)))])
  {
    var A, B, C := CaretUpperParts(x, loose);
    UpperSettled(A, B, C, loose);
    UpperParses(A, B, C, loose);
    LowerSettled(x, loose);
    LowerParses(x, loose);
    CaretComparators(x, loose, CaretUpperText(x));
    OkMatches(LowerText(x), loose);
    OkMatches(CaretUpperText(x), loose);
    TwoWords([LowerText(x), CaretUpperText(x)], LowerText(x), CaretUpperText(x), loose);
    ParseToken("^" + PlainText(x), [LowerText(x), CaretUpperText(x)], loose);
    ConstructedTwo(LowerText(x), CaretUpperText(x), Bound(GteOp, AtomVersion(x)),
                   Bound(LtOp, CaretUpper(AtomVersion(x))), loose);
  }

  /** The two spellings TILDE accepts before an atom: `~` and `~>`. */
  predicate TildeSign(t: string) { t == "~" || t == "~>" }

  /** A tilde sign before a word that does not itself start with `>` is a
      word whose TILDE match is that word's XRANGEPLAIN match. */
  lemma TildeWord(t: string, w: string, loose: bool)
    requires TildeSign(t) && IsWord(w) && w[0] != '>'
    ensures IsWord(t + w) && (t + w)[0] == '~'
    ensures MatchTilde(t + w, loose) == MatchXRangePlain(w, loose)
  {
    if t == "~" {
      PrefixedWord('~', w);
      assert t + w == ['~'] + w;
    } else {
      PrefixedWord('>', w);
      PrefixedWord('~', ['>'] + w);
      assert t + w == ['~'] + (['>'] + w);
      assert (t + w)[2..] == w;
    }
  }

  lemma TildeMatches(t: string, x: XRangeMatch, loose: bool)
    requires TildeSign(t) && FullAtom(x, loose)
    ensures IsWord(t + PlainText(x))
    ensures MatchTilde(t + PlainText(x), loose) == Some(x)
    ensures MatchCaret(t + PlainText(x), loose) == None
  {
    FullPlainWord(x, loose);
    assert PlainText(x)[0] == x.major[0];
    TildeWord(t, PlainText(x), loose);
    PlainTextMatches(x, loose);
  }

  /** The tilde pass over one word rewrites that word. */
  lemma TildesOfWord(tok: string, loose: bool)
    requires IsWord(tok)
    ensures ReplaceTildes(tok, loose) == ReplaceTilde(tok, loose)
  {
    NoSpaceTrim(tok);
    WordsOfWord(tok);
    var words := Words(Trim(tok));
    var rewritten := seq(|words|, i requires 0 <= i < |words| => ReplaceTilde(words[i], loose));
    SingleWordPass(tok, ReplaceTilde(tok, loose), words, rewritten);
  }

  /** The caret pass leaves `~` and a full atom alone, and the tilde pass
      turns it into the tilde callback's text. */
  lemma TildeRewrite(t: string, x: XRangeMatch, loose: bool)
    requires TildeSign(t) && FullAtom(x, loose)
    ensures IsWord(t + PlainText(x))
    ensures ReplaceTildes(ReplaceCarets(t + PlainText(x), loose), loose) == TildeText(x, loose)
  {
    TildeMatches(t, x, loose);
    CaretsOfWord(t + PlainText(x), loose);
    TildesOfWord(t + PlainText(x), loose);
  }

  lemma TildeComparators(t: string, x: XRangeMatch, loose: bool, hi: string)
    requires TildeSign(t) && FullAtom(x, loose) && NoLeadingDash(x.pre) && hi == TildeUpperText(x) && Settled(hi, loose)
    ensures IsWord(t + PlainText(x))
    ensures ParseComparator(t + PlainText(x), loose) == LowerText(x) + " " + hi
  {
    TildeRewrite(t, x, loose);
    TildeSplit(x, loose);
    LowerSettled(x, loose);
    TwoSettledAfterTildes(LowerText(x), hi, loose);
  }

  lemma TwoSettledAfterTildes(lo: string, hi: string, loose: bool)
    requires Settled(lo, loose) && Settled(hi, loose)
    ensures ReplaceStars(ReplaceXRanges(lo + " " + hi, loose)) == lo + " " + hi
  {
    JoinTwo(lo, hi);
    XRangesKeep([lo, hi], loose);
    StarsKeep([lo, hi], loose);
  }

  /** `~M.m.p[-pre]` is the interval from the atom's version up to, not
      including, the next minor version: `>=M.m.p[-pre] <M.(m+1).0`, for a
      prerelease that does not start with `-`; `~>` is the same as `~`. */
  lemma TildeRange(t: string, x: XRangeMatch, loose: bool)
    requires TildeSign(t) && FullAtom(x, loose) && IsCanonicalDigits(x.major)
    requires NoLeadingDash(x.pre) && |PlainText(x)| <= MAX_LENGTH
    requires DigitsValue(x.major) <= MAX_SAFE_INTEGER && DigitsValue(x.minor) < MAX_SAFE_INTEGER
             && DigitsValue(x.patch) <= MAX_SAFE_INTEGER
    ensures ParseRange(t + PlainText(x), loose)
            == Ok([Bound(GteOp, AtomVersion(x)), Bound(LtOp, TildeUpper(AtomVersion(x)))])
  {
    var A, B, C := TildeUpperParts(x, loose);
    UpperSettled(A, B, C, loose);
    UpperParses(A, B, C, loose);
    LowerSettled(x, loose);
    LowerParses(x, loose);
    TildeComparators(t, x, loose, TildeUpperText(x));
    OkMatches(LowerText(x), loose);
    OkMatches(TildeUpperText(x), loose);
    TwoWords([LowerText(x), TildeUpperText(x)], LowerText(x), TildeUpperText(x), loose);
    ParseToken(t + PlainText(x), [LowerText(x), TildeUpperText(x)], loose);
    ConstructedTwo(LowerText(x), TildeUpperText(x), Bound(GteOp, AtomVersion(x)),
                   Bound(LtOp, TildeUpper(AtomVersion(x))), loose);
  }
}
