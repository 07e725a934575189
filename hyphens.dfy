/** What a hyphen range `f - t` means (semver.js lines 893-917).  When
    both ends are partial versions: from the floor of `f` up to, but not
    including, the next unit above `t`, so `1.2 - 3.4` is
    `>=1.2.0 <3.5.0`; when both are full versions: from `f` to `t`, both
    included, so `1.2.3 - 2.3.4` is `>=1.2.3 <=2.3.4`. */
module Hyphens {
  import opened Wrappers
  import opened Chars
  import opened Grammar
  import opened GrammarText
  import opened SemVer
  import opened Ordering
  import opened Comparators
  import opened Desugar
  import opened Ranges
  import opened Shorthands
  import opened Intervals
  import opened XRanges

  // ---------------------------------------------------------------------------
  // What HYPHENRANGE captures

  /** The first side ends at the first space, which comes right after it. */
  lemma HyphenFirstSide(P: string, Q: string)
    requires IsWord(P) && IsWord(Q) && !IsDecor(P[0])
    ensures var s := P + " - " + Q;
            LeadingRun(s, IsSpace) == 0 && LeadingRun(s, IsDecor) == 0
            && FirstWhere(s, IsSpace) == |P| && s[..|P|] == P && s[|P|..] == " - " + Q
  {
    var s := P + " - " + Q;
    assert s == P + (" - " + Q);
    assert s[0] == P[0];
    FirstSpaceConcat(P, " - " + Q);
  }

  /** After the first side: one space, the dash, one space, the second side. */
  lemma HyphenSecondSide(Q: string)
    requires IsWord(Q)
    ensures var rest := " - " + Q;
            LeadingRun(rest, IsSpace) == 1 && rest[1] == '-'
            && LeadingRun(rest[2..], IsSpace) == 1 && rest[2..][1..] == Q
            && TrailingRun(Q, IsSpace) == 0
  {
    var rest := " - " + Q;
    assert rest[1] == '-';
    assert rest[2..] == " " + Q;
    assert (" " + Q)[1] == Q[0];
    assert (" " + Q)[1..] == Q;
  }

  /** On a text laid out as `from`, whitespace, `-`, whitespace, `to`, a
      HYPHENRANGE match takes `from` and `to` as its two sides. */
  lemma LaidOutSides(s: string, from: string, rest: string, to: string, loose: bool)
    requires LeadingRun(s, IsSpace) == 0 && LeadingRun(s, IsDecor) == 0
    requires FirstWhere(s, IsSpace) == |from| && s[..|from|] == from && s[|from|..] == rest
    requires |rest| > 2 && LeadingRun(rest, IsSpace) == 1 && rest[1] == '-'
    requires LeadingRun(rest[2..], IsSpace) == 1 && rest[2..][1..] == to && TrailingRun(to, IsSpace) == 0
    requires MatchHyphen(s, loose).Some?
    ensures MatchHyphen(s, loose).value.from == from && MatchHyphen(s, loose).value.to == to
  {
    assert s[0..] == s;
    assert s[0..][0..] == s;
    assert to[..|to| - 0] == to;
  }

  /** ... and what XRANGEPLAIN reads from each side. */
  lemma LaidOutParts(s: string, from: string, rest: string, to: string, loose: bool)
    requires LeadingRun(s, IsSpace) == 0 && LeadingRun(s, IsDecor) == 0
    requires FirstWhere(s, IsSpace) == |from| && s[..|from|] == from && s[|from|..] == rest
    requires |rest| > 2 && LeadingRun(rest, IsSpace) == 1 && rest[1] == '-'
    requires LeadingRun(rest[2..], IsSpace) == 1 && rest[2..][1..] == to && TrailingRun(to, IsSpace) == 0
    requires MatchHyphen(s, loose).Some?
    ensures MatchXRangePlain(from, loose) == Some(MatchHyphen(s, loose).value.fromParts)
    ensures MatchXRangePlain(to, loose) == Some(MatchHyphen(s, loose).value.toParts)
  {
    assert s[0..] == s;
    assert s[0..][0..] == s;
    assert to[..|to| - 0] == to;
  }

  /** A HYPHENRANGE match of `P - Q` has `P` and `Q` as its sides, read as
      XRANGEPLAIN reads them. */
  lemma HyphenCaptures(P: string, Q: string, loose: bool)
    requires IsWord(P) && IsWord(Q) && !IsDecor(P[0])
    requires MatchHyphen(P + " - " + Q, loose).Some?
    ensures var h := MatchHyphen(P + " - " + Q, loose).value;
            h.from == P && h.to == Q
            && MatchXRangePlain(P, loose) == Some(h.fromParts) && MatchXRangePlain(Q, loose) == Some(h.toParts)
  {
    HyphenFirstSide(P, Q);
    HyphenSecondSide(Q);
    LaidOutSides(P + " - " + Q, P, " - " + Q, Q, loose);
    LaidOutParts(P + " - " + Q, P, " - " + Q, Q, loose);
  }

  // ---------------------------------------------------------------------------
  // The rewrite and its comparators

  /** Two words joined by a space have no whitespace at either end. */
  lemma TrimTwo(lo: string, hi: string)
    requires IsWord(lo) && IsWord(hi)
    ensures Trim(lo + " " + hi) == lo + " " + hi
  {
    JoinTwo(lo, hi);
    TrimJoinWords([lo, hi]);
  }

  lemma HyphenFrom(f: XRangeMatch, loose: bool)
    requires PartialAtom(f, loose)
    ensures (if IsX(f.minor) then ">=" + f.major + ".0.0" else ">=" + f.major + "." + f.minor + ".0")
            == ">=" + FloorText(f)
  {
    PieceText(f.major, FloorMinor(f));
  }

  lemma HyphenTo(t: XRangeMatch, loose: bool)
    requires PartialAtom(t, loose)
    ensures (if IsX(t.minor) then "<" + Succ(t.major) + ".0.0" else "<" + t.major + "." + Succ(t.minor) + ".0")
            == "<" + CeilingText(t)
  {
    PieceText(CeilingParts(t).0, CeilingParts(t).1);
  }

  lemma HyphenParts(h: HyphenMatch, loose: bool)
    requires PartialAtom(h.fromParts, loose) && PartialAtom(h.toParts, loose)
    ensures HyphenText(h, loose) == Trim((">=" + FloorText(h.fromParts)) + " " + ("<" + CeilingText(h.toParts)))
  {
    HyphenFrom(h.fromParts, loose);
    HyphenTo(h.toParts, loose);
  }

  /** `hyphenReplace` on partial sides writes the floor of the first side
      and the ceiling of the second. */
  lemma HyphenPartialText(h: HyphenMatch, loose: bool)
    requires PartialAtom(h.fromParts, loose) && PartialAtom(h.toParts, loose)
    ensures HyphenText(h, loose) == (">=" + FloorText(h.fromParts)) + " " + ("<" + CeilingText(h.toParts))
  {
    HyphenParts(h, loose);
    FloorChars(">=", h.fromParts, loose);
    CeilingChars("<", h.toParts, loose);
    TrimTwo(">=" + FloorText(h.fromParts), "<" + CeilingText(h.toParts));
  }

  /** A bound word that the shorthand passes keep. */
  lemma SettledKept(w: string, loose: bool)
    requires Settled(w, loose) && w[0] != '^' && w[0] != '~'
    ensures ParseComparator(w, loose) == w
  {
    NoCaretNoTilde(w, loose);
    CaretsOfWord(w, loose);
    assert Join([w], " ") == w;
    SettledPasses([w], loose);
  }

  lemma FloorSettled(x: XRangeMatch, loose: bool)
    requires PartialAtom(x, loose)
    ensures Settled(">=" + FloorText(x), loose) && (">=" + FloorText(x))[0] == '>'
  {
    var Z: string := "0";
    var P: string := [];
    assert IsNumericId(Z, loose) && ValidTail(P, "", loose);
    BoundSettled(">=", x.major, FloorMinor(x), Z, P, loose);
  }

  lemma CeilingSettled(x: XRangeMatch, loose: bool)
    requires PartialAtom(x, loose)
    ensures Settled("<" + CeilingText(x), loose) && ("<" + CeilingText(x))[0] == '<'
  {
    UpperSettled(CeilingParts(x).0, CeilingParts(x).1, "0", loose);
  }

  /** Two words joined by a space are the two tokens of the token loop of
      `parseRange`. */
  lemma TwoTokens(lo: string, hi: string)
    requires IsWord(lo) && IsWord(hi)
    ensures Split(Join(Words(lo + " " + hi), " "), ' ') == [lo, hi]
  {
    JoinTwo(lo, hi);
    WordsJoin([lo, hi]);
    assert IsSpace(' ');
    SplitJoin([lo, hi], ' ');
  }

  /** Tokens that `parseComparator` leaves alone pass the token loop of
      `parseRange` unchanged. */
  lemma FixedTokens(tokens: seq<string>, loose: bool)
    requires forall k | 0 <= k < |tokens| :: ParseComparator(tokens[k], loose) == tokens[k]
    ensures Map(tokens, t => ParseComparator(t, loose)) == tokens
  {
  }

  lemma FixedTwo(tokens: seq<string>, lo: string, hi: string, loose: bool)
    requires tokens == [lo, hi]
    requires ParseComparator(lo, loose) == lo && ParseComparator(hi, loose) == hi
    ensures forall k | 0 <= k < |tokens| :: ParseComparator(tokens[k], loose) == tokens[k]
  {
    forall k | 0 <= k < |tokens| ensures ParseComparator(tokens[k], loose) == tokens[k] {
      if k == 0 { assert tokens[k] == lo; } else { assert tokens[k] == hi; }
    }
  }

  /** The token loop of `parseRange` on two words it keeps. */
  lemma TokenLoop(tokens: seq<string>, lo: string, hi: string, loose: bool)
    requires tokens == [lo, hi] && IsWord(lo) && IsWord(hi)
    requires ParseComparator(lo, loose) == lo && ParseComparator(hi, loose) == hi
    ensures Words(Join(Map(tokens, t => ParseComparator(t, loose)), " ")) == [lo, hi]
  {
    FixedTwo(tokens, lo, hi, loose);
    FixedTokens(tokens, loose);
    JoinTwo(lo, hi);
    WordsJoin([lo, hi]);
  }

  /** A hyphen range rewritten to two words that `parseComparator` keeps. */
  lemma TwoTokenWords(range: string, h: HyphenMatch, lo: string, hi: string, loose: bool)
    requires MatchHyphen(Trim(range), loose) == Some(h)
    requires HyphenText(h, loose) == lo + " " + hi
    requires IsWord(lo) && IsWord(hi)
    requires ParseComparator(lo, loose) == lo && ParseComparator(hi, loose) == hi
    ensures DesugaredWords(range, loose) == [lo, hi]
  {
    TwoTokens(lo, hi);
    TokenLoop(Split(Join(Words(lo + " " + hi), " "), ' '), lo, hi, loose);
  }

  /** The comparator words of a hyphen range with partial sides. */
  lemma HyphenWords(range: string, h: HyphenMatch, loose: bool)
    requires MatchHyphen(Trim(range), loose) == Some(h)
    requires PartialAtom(h.fromParts, loose) && PartialAtom(h.toParts, loose)
    ensures DesugaredWords(range, loose) == [">=" + FloorText(h.fromParts), "<" + CeilingText(h.toParts)]
  {
    var lo, hi := ">=" + FloorText(h.fromParts), "<" + CeilingText(h.toParts);
    HyphenPartialText(h, loose);
    FloorSettled(h.fromParts, loose);
    CeilingSettled(h.toParts, loose);
    SettledKept(lo, loose);
    SettledKept(hi, loose);
    TwoTokenWords(range, h, lo, hi, loose);
  }

  /** A range text whose comparator words all match COMPARATOR is made of
      the comparators of those words. */
  lemma WordsKept(range: string, words: seq<string>, loose: bool)
    requires DesugaredWords(range, loose) == words
    requires forall k | 0 <= k < |words| :: MatchComparator(words[k], loose).Some?
    ensures ParseRange(range, loose) == Constructed(words, loose)
  {
    KeepAll(words, loose);
  }

  /** A range text that HYPHENRANGE reads with partial sides `f` and `t`
      is `>=` the floor of `f` and `<` the ceiling of `t`: `1.2 - 3.4` is
      `>=1.2.0 <3.5.0`, `1 - 2` is `>=1.0.0 <3.0.0`. */
  lemma HyphenRange(range: string, h: HyphenMatch, loose: bool)
    requires MatchHyphen(Trim(range), loose) == Some(h)
    requires PartialAtom(h.fromParts, loose) && PartialAtom(h.toParts, loose)
    requires Bumpable(h.fromParts) && Bumpable(h.toParts)
    ensures ParseRange(range, loose) == Ok([Bound(GteOp, Floor(h.fromParts)), Bound(LtOp, Ceiling(h.toParts))])
  {
    var f, t := h.fromParts, h.toParts;
    var lo, hi := ">=" + FloorText(f), "<" + CeilingText(t);
    HyphenWords(range, h, loose);
    LowerBoundParses(f, loose);
    UpperBoundParses(t, loose);
    OkMatches(lo, loose);
    OkMatches(hi, loose);
    TwoWords([lo, hi], lo, hi, loose);
    WordsKept(range, [lo, hi], loose);
    ConstructedTwo(lo, hi, Bound(GteOp, Floor(f)), Bound(LtOp, Ceiling(t)), loose);
  }

  /** A version without a prerelease is in such a range exactly when its
      leading components are at least those of `f` and at most those of
      `t`. */
  lemma HyphenAllows(f: XRangeMatch, t: XRangeMatch, v: Version, includePrerelease: bool)
    requires AllDigits(f.major) && (!IsX(f.minor) ==> AllDigits(f.minor))
    requires AllDigits(t.major) && (!IsX(t.minor) ==> AllDigits(t.minor))
    requires v.prerelease == []
    ensures SetAllows([Bound(GteOp, Floor(f)), Bound(LtOp, Ceiling(t))], v, includePrerelease)
            <==> ComparePrefix(v, f) >= 0 && ComparePrefix(v, t) <= 0
  {
    IntervalAllows(Floor(f), Ceiling(t), v, includePrerelease);
    FloorOrder(v, f);
    CeilingOrder(v, t);
  }

  // ---------------------------------------------------------------------------
  // Full sides

  /** `<=M.m.p[-pre]`: the upper end a full second side becomes. */
  function InclusiveText(t: XRangeMatch): string {
    "<=" + VersionText(t.major, t.minor, t.patch, TextOf(t.pre), "")
  }

  /** `hyphenReplace` on full sides without build metadata or leading `v`
      or `=`: `>=` the first side and `<=` the second, the second rebuilt
      from its components when it has a prerelease and taken as written
      otherwise, which comes to the same text. */
  lemma HyphenFullText(h: HyphenMatch, loose: bool)
    requires FullAtom(h.fromParts, loose) && FullAtom(h.toParts, loose)
    requires h.fromParts.build.None? && h.toParts.build.None?
    requires h.from == PlainText(h.fromParts) && h.to == PlainText(h.toParts)
    ensures HyphenText(h, loose) == LowerText(h.fromParts) + " " + InclusiveText(h.toParts)
  {
    HyphenFullParts(h, loose);
    LowerSettled(h.fromParts, loose);
    InclusiveSettled(h.toParts, loose);
    TrimTwo(LowerText(h.fromParts), InclusiveText(h.toParts));
  }

  lemma HyphenFullParts(h: HyphenMatch, loose: bool)
    requires FullAtom(h.fromParts, loose) && FullAtom(h.toParts, loose)
    requires h.fromParts.build.None? && h.toParts.build.None?
    requires h.from == PlainText(h.fromParts) && h.to == PlainText(h.toParts)
    ensures HyphenText(h, loose) == Trim(LowerText(h.fromParts) + " " + InclusiveText(h.toParts))
  {
    var f, t := h.fromParts, h.toParts;
    NumericNotX(f.major, loose);
    NumericNotX(f.minor, loose);
    NumericNotX(f.patch, loose);
    NumericNotX(t.major, loose);
    NumericNotX(t.minor, loose);
    NumericNotX(t.patch, loose);
    FullFrom(f, h.from);
    FullTo(t, h.to, loose);
  }

  lemma FullFrom(f: XRangeMatch, from: string)
    requires f.minor != [] && f.patch != [] && f.build.None? && from == PlainText(f)
    ensures ">=" + from == LowerText(f)
  {
    PlainVersionText(f);
  }

  lemma FullTo(t: XRangeMatch, to: string, loose: bool)
    requires FullAtom(t, loose) && t.build.None? && to == PlainText(t)
    ensures (if t.pre.Some? then "<=" + t.major + "." + t.minor + "." + t.patch + "-" + t.pre.value else "<=" + to)
            == InclusiveText(t)
  {
    PlainVersionText(t);
    if t.pre.Some? { PrereleaseChars(t.pre.value, loose); }
  }

  lemma InclusiveSettled(t: XRangeMatch, loose: bool)
    requires FullAtom(t, loose)
    ensures Settled(InclusiveText(t), loose) && InclusiveText(t)[0] == '<'
  {
    BoundSettled("<=", t.major, t.minor, t.patch, TextOf(t.pre), loose);
  }

  lemma InclusiveParses(t: XRangeMatch, loose: bool)
    requires FullAtom(t, loose) && |PlainText(t)| <= MAX_LENGTH
    requires DigitsValue(t.major) <= MAX_SAFE_INTEGER && DigitsValue(t.minor) <= MAX_SAFE_INTEGER
             && DigitsValue(t.patch) <= MAX_SAFE_INTEGER
    ensures NewComparator(InclusiveText(t), loose) == Ok(Bound(LteOp, AtomVersion(t)))
  {
    var P := TextOf(t.pre);
    if t.pre.Some? { PrereleaseChars(t.pre.value, loose); }
    OptionOfTextOf(t.pre);
    PlainVersionText(t);
    VersionTextBuild(t.major, t.minor, t.patch, P, TextOf(t.build));
    assert ParseOperator("<=") == Some(LteOp);
    BoundTextParses("<=", t.major, t.minor, t.patch, P, loose);
  }

  lemma LowerFirst(f: XRangeMatch, loose: bool)
    requires FullAtom(f, loose)
    ensures Settled(LowerText(f), loose) && LowerText(f)[0] == '>'
  {
    LowerSettled(f, loose);
  }

  /** The comparator words of a hyphen range with full sides. */
  lemma HyphenFullWords(range: string, h: HyphenMatch, loose: bool)
    requires MatchHyphen(Trim(range), loose) == Some(h)
    requires FullAtom(h.fromParts, loose) && FullAtom(h.toParts, loose)
    requires h.fromParts.build.None? && h.toParts.build.None?
    requires h.from == PlainText(h.fromParts) && h.to == PlainText(h.toParts)
    ensures DesugaredWords(range, loose) == [LowerText(h.fromParts), InclusiveText(h.toParts)]
  {
    var lo, hi := LowerText(h.fromParts), InclusiveText(h.toParts);
    HyphenFullText(h, loose);
    LowerFirst(h.fromParts, loose);
    InclusiveSettled(h.toParts, loose);
    SettledKept(lo, loose);
    SettledKept(hi, loose);
    TwoTokenWords(range, h, lo, hi, loose);
  }

  /** A range text that HYPHENRANGE reads with full sides `f` and `t` is
      `>=f <=t`: `1.2.3 - 2.3.4` is `>=1.2.3 <=2.3.4`. */
  lemma HyphenFullRange(range: string, h: HyphenMatch, loose: bool)
    requires MatchHyphen(Trim(range), loose) == Some(h)
    requires FullAtom(h.fromParts, loose) && FullAtom(h.toParts, loose)
    requires h.fromParts.build.None? && h.toParts.build.None?
    requires h.from == PlainText(h.fromParts) && h.to == PlainText(h.toParts)
    requires |h.from| <= MAX_LENGTH && |h.to| <= MAX_LENGTH
    requires DigitsValue(h.fromParts.major) <= MAX_SAFE_INTEGER && DigitsValue(h.fromParts.minor) <= MAX_SAFE_INTEGER
             && DigitsValue(h.fromParts.patch) <= MAX_SAFE_INTEGER
    requires DigitsValue(h.toParts.major) <= MAX_SAFE_INTEGER && DigitsValue(h.toParts.minor) <= MAX_SAFE_INTEGER
             && DigitsValue(h.toParts.patch) <= MAX_SAFE_INTEGER
    ensures ParseRange(range, loose)
            == Ok([Bound(GteOp, AtomVersion(h.fromParts)), Bound(LteOp, AtomVersion(h.toParts))])
  {
    var f, t := h.fromParts, h.toParts;
    var lo, hi := LowerText(f), InclusiveText(t);
    HyphenFullWords(range, h, loose);
    LowerParses(f, loose);
    InclusiveParses(t, loose);
    OkMatches(lo, loose);
    OkMatches(hi, loose);
    LowerFirst(f, loose);
    InclusiveSettled(t, loose);
    TwoWords([lo, hi], lo, hi, loose);
    WordsKept(range, [lo, hi], loose);
    ConstructedTwo(lo, hi, Bound(GteOp, AtomVersion(f)), Bound(LteOp, AtomVersion(t)), loose);
  }

  /** The set `>=low <=up`: the versions from `low` to `up`, both
      included; a prerelease gets through only when prereleases are
      included or it shares its numbers with an end that has one. */
  lemma HyphenFullAllows(low: Version, up: Version, v: Version, includePrerelease: bool)
    ensures SetAllows([Bound(GteOp, low), Bound(LteOp, up)], v, includePrerelease)
            <==> Compare(v, low) >= 0 && Compare(v, up) <= 0
                 && (v.prerelease == [] || includePrerelease
                     || (low.prerelease != [] && SameMain(v, low)) || (up.prerelease != [] && SameMain(v, up)))
  {
    var comps := [Bound(GteOp, low), Bound(LteOp, up)];
    assert Holds(comps[0], v) <==> Compare(v, low) >= 0;
    assert Holds(comps[1], v) <==> Compare(v, up) <= 0;
    assert AdmitsPrerelease(comps[0], v) <==> low.prerelease != [] && SameMain(v, low);
    assert AdmitsPrerelease(comps[1], v) <==> up.prerelease != [] && SameMain(v, up);
  }
}
