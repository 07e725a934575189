/** What the x-range shorthands mean: an operator before a partial version
    `M`, `M.x`, `M.m` or `M.m.x` (semver.js lines 812-879) acts on the
    components that are present, and a wildcard major means every version,
    or none after `<` and `>`. */
module XRanges {
  import opened Wrappers
  import opened Chars
  import opened Grammar
  import opened GrammarText
  import opened SemVer
  import opened Ordering
  import opened Comparators
  import opened Desugar
  import opened Ranges
  import opened Shorthands
  import opened Findings

  /** The GTLT operator texts. */
  predicate IsGtlt(g: string) {
    g == "" || g == "=" || g == "<" || g == ">" || g == "<=" || g == ">="
  }

  /** A partial version `M`, `M.x`, `M.m` or `M.m.x` in canonical digits,
      with no prerelease or build. */
  predicate PartialAtom(x: XRangeMatch, loose: bool) {
    ValidXRangeMatch(x, loose) && IsCanonicalDigits(x.major) && x.pre.None? && x.build.None?
    && (IsX(x.minor) || (IsCanonicalDigits(x.minor) && IsX(x.patch)))
  }

  // ---------------------------------------------------------------------------
  // The text pipeline

  /** The text of a partial version is one word that starts with a digit. */
  lemma PartialWord(x: XRangeMatch, loose: bool)
    requires PartialAtom(x, loose)
    ensures IsWord(PlainText(x)) && IsDigit(PlainText(x)[0])
  {
    var s := PlainText(x);
    assert s[0] == x.major[0];
    assert TailText(TextOf(x.pre), TextOf(x.build)) == "";
    forall i | 0 <= i < |s| ensures !IsSpace(s[i]) {
      if i >= |x.major| + 1 + |x.minor| + 1 {
        assert s[i] == x.patch[i - |x.major| - |x.minor| - 2];
      } else if i >= |x.major| + 1 {
        assert s[i] == '.' || s[i] == x.minor[i - |x.major| - 1];
      } else if i < |x.major| {
        assert s[i] == x.major[i];
      }
    }
  }

  /** An operator and a word starting with a digit or a wildcard form a
      word that starts with neither `^` nor `~`. */
  lemma GtltWord(g: string, t: string)
    requires IsGtlt(g) && IsWord(t) && (IsDigit(t[0]) || IsWildcardChar(t[0]))
    ensures IsWord(g + t) && (g + t)[0] != '^' && (g + t)[0] != '~'
  {
    var tok := g + t;
    assert tok[0] == if g == "" then t[0] else g[0];
    forall i | 0 <= i < |tok| ensures !IsSpace(tok[i]) {
      if i >= |g| { assert tok[i] == t[i - |g|]; }
    }
  }

  /** The caret and tilde passes leave a word alone that starts with
      neither `^` nor `~`. */
  lemma NoCaretNoTilde(tok: string, loose: bool)
    requires IsWord(tok) && tok[0] != '^' && tok[0] != '~'
    ensures ReplaceTildes(ReplaceCarets(tok, loose), loose) == tok
  {
    CaretsOfWord(tok, loose);
    assert ReplaceCaret(tok, loose) == tok;
    TildesOfWord(tok, loose);
  }

  /** The x-range pass over one word rewrites that word. */
  lemma XRangesOfWord(tok: string, loose: bool)
    requires IsWord(tok)
    ensures ReplaceXRanges(tok, loose) == ReplaceXRange(tok, loose)
  {
    WordsOfWord(tok);
    var words := Words(tok);
    var rewritten := seq(|words|, i requires 0 <= i < |words| => ReplaceXRange(words[i], loose));
    SingleWordPass(tok, ReplaceXRange(tok, loose), words, rewritten);
  }

  /** XRANGE reads back an operator and a partial version. */
  lemma PartialMatches(g: string, x: XRangeMatch, loose: bool)
    requires IsGtlt(g) && PartialAtom(x, loose)
    ensures IsWord(g + PlainText(x))
    ensures ReplaceTildes(ReplaceCarets(g + PlainText(x), loose), loose) == g + PlainText(x)
    ensures ReplaceXRanges(g + PlainText(x), loose) == XRangeTextAsWritten(g, x, g + PlainText(x), loose)
  {
    var tok := g + PlainText(x);
    PartialWord(x, loose);
    GtltWord(g, PlainText(x));
    NoCaretNoTilde(tok, loose);
    XRangesOfWord(tok, loose);
    NoSpaceTrim(tok);
    GtltBeforeDigit(g, PlainText(x));
    PlainTextMatches(x, loose);
    assert MatchXRange(tok, loose) == Some((g, x));
  }

  // ---------------------------------------------------------------------------
  // The rewritten texts

  /** The minor component of the least version a partial version covers. */
  function FloorMinor(x: XRangeMatch): string {
    if IsX(x.minor) then "0" else x.minor
  }

  /** `M.0.0` or `M.m.0`: the least version a partial version covers. */
  function FloorText(x: XRangeMatch): string {
    VersionText(x.major, FloorMinor(x), "0", "", "")
  }

  /** The major and minor components of the least version above a partial
      version. */
  function CeilingParts(x: XRangeMatch): (string, string)
    requires AllDigits(x.major) && (!IsX(x.minor) ==> AllDigits(x.minor))
  {
    if IsX(x.minor) then (Succ(x.major), "0") else (x.major, Succ(x.minor))
  }

  /** `(M+1).0.0` or `M.(m+1).0`: the least version above every version a
      partial version covers. */
  function CeilingText(x: XRangeMatch): string
    requires AllDigits(x.major) && (!IsX(x.minor) ==> AllDigits(x.minor))
  {
    VersionText(CeilingParts(x).0, CeilingParts(x).1, "0", "", "")
  }

  /** The comparator texts that the x-range callback writes for an
      operator before a partial version. */
  lemma PartialText(g: string, x: XRangeMatch, whole: string, loose: bool)
    requires IsGtlt(g) && PartialAtom(x, loose)
    ensures XRangeTextAsWritten(g, x, whole, loose)
            == if g == "" || g == "=" then (">=" + FloorText(x)) + " " + ("<" + CeilingText(x))
               else if g == ">" then ">=" + CeilingText(x)
               else if g == "<=" then "<" + CeilingText(x)
               else g + FloorText(x)
  {
    if g == "" || g == "=" {
      PairText(g, x, whole, loose);
    } else if g == ">" || g == "<=" {
      CeilingOnlyText(g, x, whole, loose);
    } else {
      FloorOnlyText(g, x, whole, loose);
    }
  }

  lemma PairText(g: string, x: XRangeMatch, whole: string, loose: bool)
    requires (g == "" || g == "=") && PartialAtom(x, loose)
    ensures XRangeTextAsWritten(g, x, whole, loose) == (">=" + FloorText(x)) + " " + ("<" + CeilingText(x))
  {
    if IsX(x.minor) {
      PairTextMajor(g, x, whole, loose);
    } else {
      PairTextMinor(g, x, whole, loose);
    }
  }

  lemma PairTextMajor(g: string, x: XRangeMatch, whole: string, loose: bool)
    requires (g == "" || g == "=") && PartialAtom(x, loose) && IsX(x.minor)
    ensures XRangeTextAsWritten(g, x, whole, loose) == (">=" + FloorText(x)) + " " + ("<" + CeilingText(x))
  {
    assert XRangeTextAsWritten(g, x, whole, loose)
           == ">=" + x.major + "." + "0" + ".0" + " <" + Succ(x.major) + "." + "0" + ".0";
    AssemblePair(x.major, "0", Succ(x.major), "0");
  }

  lemma PairTextMinor(g: string, x: XRangeMatch, whole: string, loose: bool)
    requires (g == "" || g == "=") && PartialAtom(x, loose) && !IsX(x.minor)
    ensures XRangeTextAsWritten(g, x, whole, loose) == (">=" + FloorText(x)) + " " + ("<" + CeilingText(x))
  {
    assert XRangeTextAsWritten(g, x, whole, loose)
           == ">=" + x.major + "." + x.minor + ".0" + " <" + x.major + "." + Succ(x.minor) + ".0";
    AssemblePair(x.major, x.minor, x.major, Succ(x.minor));
  }

  lemma AssemblePair(M: string, m: string, A: string, B: string)
    ensures ">=" + M + "." + m + ".0" + " <" + A + "." + B + ".0"
         == (">=" + VersionText(M, m, "0", "", "")) + " " + ("<" + VersionText(A, B, "0", "", ""))
  {
    PieceText(M, m);
    PieceText(A, B);
  }

  /** `A.B.0` as VersionText writes it. */
  lemma PieceText(A: string, B: string)
    ensures VersionText(A, B, "0", "", "") == A + "." + B + ".0"
  {
    assert TailText("", "") == "";
  }

  lemma CeilingOnlyText(g: string, x: XRangeMatch, whole: string, loose: bool)
    requires (g == ">" || g == "<=") && PartialAtom(x, loose)
    ensures XRangeTextAsWritten(g, x, whole, loose) == CeilingOp(g) + CeilingText(x)
  {
    if IsX(x.minor) {
      CeilingMajorText(g, x, whole, loose);
    } else {
      CeilingMinorText(g, x, whole, loose);
    }
    PieceText(CeilingParts(x).0, CeilingParts(x).1);
  }

  lemma CeilingMajorText(g: string, x: XRangeMatch, whole: string, loose: bool)
    requires (g == ">" || g == "<=") && PartialAtom(x, loose) && IsX(x.minor)
    ensures XRangeTextAsWritten(g, x, whole, loose) == CeilingOp(g) + (CeilingParts(x).0 + "." + CeilingParts(x).1 + ".0")
  {
    assert CeilingParts(x) == (Succ(x.major), "0");
  }

  lemma CeilingMinorText(g: string, x: XRangeMatch, whole: string, loose: bool)
    requires (g == ">" || g == "<=") && PartialAtom(x, loose) && !IsX(x.minor)
    ensures XRangeTextAsWritten(g, x, whole, loose) == CeilingOp(g) + (CeilingParts(x).0 + "." + CeilingParts(x).1 + ".0")
  {
    assert CeilingParts(x) == (x.major, Succ(x.minor));
  }

  lemma FloorOnlyText(g: string, x: XRangeMatch, whole: string, loose: bool)
    requires (g == "<" || g == ">=") && PartialAtom(x, loose)
    ensures XRangeTextAsWritten(g, x, whole, loose) == g + FloorText(x)
  {
    var B := FloorMinor(x);
    if IsX(x.minor) {
      assert XRangeTextAsWritten(g, x, whole, loose) == g + (x.major + "." + B + ".0");
    } else {
      assert XRangeTextAsWritten(g, x, whole, loose) == g + (x.major + "." + B + ".0");
    }
    PieceText(x.major, B);
  }

  // ---------------------------------------------------------------------------
  // The bounds they construct

  /** The least version a partial version covers. */
  function Floor(x: XRangeMatch): Version
    requires AllDigits(x.major) && (!IsX(x.minor) ==> AllDigits(x.minor))
  {
    Version(DigitsValue(x.major), if IsX(x.minor) then 0 else DigitsValue(x.minor), 0, [], [])
  }

  /** The least version above every version a partial version covers. */
  function Ceiling(x: XRangeMatch): Version
    requires AllDigits(x.major) && (!IsX(x.minor) ==> AllDigits(x.minor))
  {
    if IsX(x.minor) then Version(DigitsValue(x.major) + 1, 0, 0, [], [])
    else Version(DigitsValue(x.major), DigitsValue(x.minor) + 1, 0, [], [])
  }

  /** The components of a partial version stay below MAX_SAFE_INTEGER. */
  predicate Bumpable(x: XRangeMatch)
    requires AllDigits(x.major) && (!IsX(x.minor) ==> AllDigits(x.minor))
  {
    DigitsValue(x.major) < MAX_SAFE_INTEGER && (!IsX(x.minor) ==> DigitsValue(x.minor) < MAX_SAFE_INTEGER)
  }

  /** A comparator text over three canonical components. */
  lemma ShortBoundParses(op: string, A: string, B: string, loose: bool)
    requires op in {"<", ">="}
    requires IsCanonicalDigits(A) && IsCanonicalDigits(B)
    requires DigitsValue(A) <= MAX_SAFE_INTEGER && DigitsValue(B) <= MAX_SAFE_INTEGER
    ensures NewComparator(op + VersionText(A, B, "0", "", ""), loose)
            == Ok(Bound(ParseOperator(op).value, Version(DigitsValue(A), DigitsValue(B), 0, [], [])))
    ensures IsWord(op + VersionText(A, B, "0", "", "")) && '*' !in op + VersionText(A, B, "0", "", "")
  {
    var P: string := [];
    var Z: string := "0";
    assert DigitsValue(Z) == 0;
    assert PrereleaseOf(OptionOf(P)) == [];
    ShortNumber(A);
    ShortNumber(B);
    ShortVersionText(A, B, Z);
    BoundTextParses(op, A, B, Z, P, loose);
    BoundChars(op, A, B, Z, P, loose);
  }

  lemma FloorParses(op: string, x: XRangeMatch, loose: bool)
    requires op in {"<", ">="} && PartialAtom(x, loose) && Bumpable(x)
    ensures NewComparator(op + FloorText(x), loose) == Ok(Bound(ParseOperator(op).value, Floor(x)))
    ensures IsWord(op + FloorText(x)) && '*' !in op + FloorText(x)
  {
    var Z: string := "0";
    assert DigitsValue(Z) == 0;
    ShortBoundParses(op, x.major, FloorMinor(x), loose);
  }

  lemma CeilingParses(op: string, x: XRangeMatch, loose: bool)
    requires op in {"<", ">="} && PartialAtom(x, loose) && Bumpable(x)
    ensures NewComparator(op + CeilingText(x), loose) == Ok(Bound(ParseOperator(op).value, Ceiling(x)))
    ensures IsWord(op + CeilingText(x)) && '*' !in op + CeilingText(x)
  {
    var Z: string := "0";
    assert DigitsValue(Z) == 0;
    var A, B := CeilingParts(x).0, CeilingParts(x).1;
    if IsX(x.minor) {
      SuccValue(x.major);
      assert A == Succ(x.major) && B == Z;
    } else {
      SuccValue(x.minor);
      assert A == x.major && B == Succ(x.minor);
    }
    assert Ceiling(x) == Version(DigitsValue(A), DigitsValue(B), 0, [], []);
    ShortBoundParses(op, A, B, loose);
  }

  /** The floor and ceiling texts are words without `*`. */
  lemma FloorChars(op: string, x: XRangeMatch, loose: bool)
    requires op in {"<", ">="} && PartialAtom(x, loose)
    ensures IsWord(op + FloorText(x)) && '*' !in op + FloorText(x)
  {
    var Z: string := "0";
    var P: string := [];
    assert IsNumericId(Z, loose) && ValidTail(P, "", loose);
    BoundChars(op, x.major, FloorMinor(x), Z, P, loose);
  }

  lemma CeilingChars(op: string, x: XRangeMatch, loose: bool)
    requires op in {"<", ">="} && PartialAtom(x, loose)
    ensures IsWord(op + CeilingText(x)) && '*' !in op + CeilingText(x)
  {
    var Z: string := "0";
    var P: string := [];
    assert IsNumericId(Z, loose) && ValidTail(P, "", loose);
    BoundChars(op, CeilingParts(x).0, CeilingParts(x).1, Z, P, loose);
  }

  // ---------------------------------------------------------------------------
  // Ranges of one x-range token

  /** The star pass keeps words without `*` joined by single spaces. */
  lemma StarFreeWords(words: seq<string>)
    requires |words| > 0 && forall k | 0 <= k < |words| :: IsWord(words[k]) && '*' !in words[k]
    ensures ReplaceStars(Join(words, " ")) == Join(words, " ")
  {
    TrimJoinWords(words);
    JoinAvoids(words, '*');
  }

  /** A token whose caret and tilde passes keep it and whose x-range pass
      turns it into comparator words without `*`. */
  lemma RewrittenComparator(tok: string, words: seq<string>, loose: bool)
    requires ReplaceTildes(ReplaceCarets(tok, loose), loose) == tok
    requires |words| > 0 && forall k | 0 <= k < |words| :: IsWord(words[k]) && '*' !in words[k]
    requires ReplaceXRanges(tok, loose) == Join(words, " ")
    ensures ParseComparator(tok, loose) == Join(words, " ")
  {
    StarFreeWords(words);
  }

  /** The same for one word. */
  lemma RewrittenWord(tok: string, w: string, loose: bool)
    requires ReplaceTildes(ReplaceCarets(tok, loose), loose) == tok
    requires IsWord(w) && '*' !in w
    requires ReplaceXRanges(tok, loose) == w
    ensures ParseComparator(tok, loose) == w
  {
    assert Join([w], " ") == w;
    StarFreeWords([w]);
  }

  /** The same for two words. */
  lemma RewrittenPair(tok: string, lo: string, hi: string, loose: bool)
    requires ReplaceTildes(ReplaceCarets(tok, loose), loose) == tok
    requires IsWord(lo) && '*' !in lo && IsWord(hi) && '*' !in hi
    requires ReplaceXRanges(tok, loose) == lo + " " + hi
    ensures ParseComparator(tok, loose) == lo + " " + hi
  {
    JoinTwo(lo, hi);
    PairWords(lo, hi);
    RewrittenComparator(tok, [lo, hi], loose);
  }

  lemma PairWords(lo: string, hi: string)
    requires IsWord(lo) && '*' !in lo && IsWord(hi) && '*' !in hi
    ensures forall k | 0 <= k < |[lo, hi]| :: IsWord([lo, hi][k]) && '*' !in [lo, hi][k]
  {
  }

  lemma ConstructedOne(w: string, c: Comparator, loose: bool)
    requires NewComparator(w, loose) == Ok(c)
    ensures Constructed([w], loose) == Ok([c])
  {
    var rs := seq(1, k requires 0 <= k < 1 => NewComparator([w][k], loose));
    assert rs[0] == Ok(c);
    CollectOne(rs, c);
  }

  lemma CollectOne<T, E>(rs: seq<Result<T, E>>, a: T)
    requires |rs| == 1 && rs[0] == Ok(a)
    ensures Collect(rs) == Ok([a])
  {
    var r := Collect(rs);
    assert r.value[0] == a;
    assert r.value == [a];
  }

  /** A one-token range whose rewrite is two comparator words. */
  lemma TwoWordRange(tok: string, lo: string, hi: string, a: Comparator, b: Comparator, loose: bool)
    requires IsWord(tok) && IsWord(lo) && IsWord(hi)
    requires MatchComparator(lo, loose).Some? && MatchComparator(hi, loose).Some?
    requires ParseComparator(tok, loose) == Join([lo, hi], " ")
    requires NewComparator(lo, loose) == Ok(a) && NewComparator(hi, loose) == Ok(b)
    ensures ParseRange(tok, loose) == Ok([a, b])
  {
    TwoWords([lo, hi], lo, hi, loose);
    ParseToken(tok, [lo, hi], loose);
    ConstructedTwo(lo, hi, a, b, loose);
  }

  /** A token the rewrites turn into one comparator word. */
  lemma RewrittenOne(tok: string, w: string, c: Comparator, loose: bool)
    requires IsWord(tok) && ParseComparator(tok, loose) == w && IsWord(w)
    requires NewComparator(w, loose) == Ok(c)
    ensures ParseRange(tok, loose) == Ok([c])
  {
    OneWordDesugared(tok, w, loose);
    OkMatches(w, loose);
    KeepOne(w, loose);
    assert ParseRange(tok, loose) == Constructed([w], loose);
    ConstructedOne(w, c, loose);
  }

  lemma KeepOne(w: string, loose: bool)
    requires MatchComparator(w, loose).Some?
    ensures KeepComparators([w], loose) == [w]
  {
    assert [w][1..] == [];
  }

  lemma OneWordDesugared(tok: string, w: string, loose: bool)
    requires IsWord(tok) && ParseComparator(tok, loose) == w && IsWord(w)
    ensures DesugaredWords(tok, loose) == [w]
  {
    DesugaredToken(tok, loose);
    WordsOfWord(w);
  }

  /** A token the rewrites turn into two comparator words. */
  lemma RewrittenTwo(tok: string, lo: string, hi: string, a: Comparator, b: Comparator, loose: bool)
    requires IsWord(tok) && ParseComparator(tok, loose) == lo + " " + hi
    requires IsWord(lo) && IsWord(hi)
    requires NewComparator(lo, loose) == Ok(a) && NewComparator(hi, loose) == Ok(b)
    ensures ParseRange(tok, loose) == Ok([a, b])
  {
    JoinTwo(lo, hi);
    OkMatches(lo, loose);
    OkMatches(hi, loose);
    TwoWordRange(tok, lo, hi, a, b, loose);
  }

  /** The operator a GTLT text stands for; `""` and `=` both mean equality. */
  function GtltOp(g: string): Op
    requires IsGtlt(g)
  {
    ParseOperator(g).value
  }

  /** The comparators an operator before a partial version stands for:
      between the floor and the ceiling for equality, at or above the
      ceiling for `>`, below the ceiling for `<=`, and the operator on the
      floor for `<` and `>=`. */
  function PartialComparators(g: string, x: XRangeMatch): seq<Comparator>
    requires IsGtlt(g) && AllDigits(x.major) && (!IsX(x.minor) ==> AllDigits(x.minor))
  {
    if g == "" || g == "=" then [Bound(GteOp, Floor(x)), Bound(LtOp, Ceiling(x))]
    else if g == ">" then [Bound(GteOp, Ceiling(x))]
    else if g == "<=" then [Bound(LtOp, Ceiling(x))]
    else [Bound(GtltOp(g), Floor(x))]
  }

  /** `>1.2` is `>=1.3.0`, `<=1.2.x` is `<1.3.0`, `1.2.x` is
      `>=1.2.0 <1.3.0`, `<1` is `<1.0.0`, and so on: what the range parser
      builds from an operator and a partial version. */
  lemma PartialRange(g: string, x: XRangeMatch, loose: bool)
    requires IsGtlt(g) && PartialAtom(x, loose) && Bumpable(x)
    ensures ParseRange(g + PlainText(x), loose) == Ok(PartialComparators(g, x))
  {
    if g == "" || g == "=" {
      PartialPair(g, x, loose);
    } else if g == ">" || g == "<=" {
      PartialCeiling(g, x, loose);
    } else {
      PartialFloor(g, x, loose);
    }
  }

  lemma PartialFloor(g: string, x: XRangeMatch, loose: bool)
    requires (g == "<" || g == ">=") && PartialAtom(x, loose) && Bumpable(x)
    ensures ParseRange(g + PlainText(x), loose) == Ok(PartialComparators(g, x))
  {
    FloorRewrite(g, x, loose);
    FloorParses(g, x, loose);
    FloorList(g, x);
    RewrittenOne(g + PlainText(x), g + FloorText(x), Bound(GtltOp(g), Floor(x)), loose);
  }

  lemma FloorList(g: string, x: XRangeMatch)
    requires (g == "<" || g == ">=") && AllDigits(x.major) && (!IsX(x.minor) ==> AllDigits(x.minor))
    ensures PartialComparators(g, x) == [Bound(GtltOp(g), Floor(x))]
  {
  }

  lemma FloorRewrite(g: string, x: XRangeMatch, loose: bool)
    requires (g == "<" || g == ">=") && PartialAtom(x, loose)
    ensures IsWord(g + PlainText(x))
    ensures ParseComparator(g + PlainText(x), loose) == g + FloorText(x)
  {
    FloorPasses(g, x, loose);
    FloorChars(g, x, loose);
    RewrittenWord(g + PlainText(x), g + FloorText(x), loose);
  }

  lemma FloorPasses(g: string, x: XRangeMatch, loose: bool)
    requires (g == "<" || g == ">=") && PartialAtom(x, loose)
    ensures IsWord(g + PlainText(x))
    ensures ReplaceTildes(ReplaceCarets(g + PlainText(x), loose), loose) == g + PlainText(x)
    ensures ReplaceXRanges(g + PlainText(x), loose) == g + FloorText(x)
  {
    PartialMatches(g, x, loose);
    FloorOnlyText(g, x, g + PlainText(x), loose);
  }

  /** The operator written before the ceiling for `>` and `<=`. */
  function CeilingOp(g: string): string {
    if g == ">" then ">=" else "<"
  }

  lemma PartialCeiling(g: string, x: XRangeMatch, loose: bool)
    requires (g == ">" || g == "<=") && PartialAtom(x, loose) && Bumpable(x)
    ensures ParseRange(g + PlainText(x), loose) == Ok(PartialComparators(g, x))
  {
    CeilingRewrite(g, x, loose);
    CeilingParses(CeilingOp(g), x, loose);
    CeilingList(g, x);
    RewrittenOne(g + PlainText(x), CeilingOp(g) + CeilingText(x),
                 Bound(ParseOperator(CeilingOp(g)).value, Ceiling(x)), loose);
  }

  lemma CeilingList(g: string, x: XRangeMatch)
    requires (g == ">" || g == "<=") && AllDigits(x.major) && (!IsX(x.minor) ==> AllDigits(x.minor))
    ensures PartialComparators(g, x) == [Bound(ParseOperator(CeilingOp(g)).value, Ceiling(x))]
  {
  }

  lemma CeilingRewrite(g: string, x: XRangeMatch, loose: bool)
    requires (g == ">" || g == "<=") && PartialAtom(x, loose) && Bumpable(x)
    ensures IsWord(g + PlainText(x))
    ensures ParseComparator(g + PlainText(x), loose) == CeilingOp(g) + CeilingText(x)
  {
    CeilingPasses(g, x, loose);
    CeilingChars(CeilingOp(g), x, loose);
    RewrittenWord(g + PlainText(x), CeilingOp(g) + CeilingText(x), loose);
  }

  lemma CeilingPasses(g: string, x: XRangeMatch, loose: bool)
    requires (g == ">" || g == "<=") && PartialAtom(x, loose) && Bumpable(x)
    ensures IsWord(g + PlainText(x))
    ensures ReplaceTildes(ReplaceCarets(g + PlainText(x), loose), loose) == g + PlainText(x)
    ensures ReplaceXRanges(g + PlainText(x), loose) == CeilingOp(g) + CeilingText(x)
  {
    PartialMatches(g, x, loose);
    CeilingOnlyText(g, x, g + PlainText(x), loose);
  }

  lemma PartialPair(g: string, x: XRangeMatch, loose: bool)
    requires (g == "" || g == "=") && PartialAtom(x, loose) && Bumpable(x)
    ensures ParseRange(g + PlainText(x), loose) == Ok(PartialComparators(g, x))
  {
    PairRewrite(g, x, loose);
    LowerBoundParses(x, loose);
    UpperBoundParses(x, loose);
    PairList(g, x);
    RewrittenTwo(g + PlainText(x), ">=" + FloorText(x), "<" + CeilingText(x),
                 Bound(GteOp, Floor(x)), Bound(LtOp, Ceiling(x)), loose);
  }

  lemma LowerBoundParses(x: XRangeMatch, loose: bool)
    requires PartialAtom(x, loose) && Bumpable(x)
    ensures NewComparator(">=" + FloorText(x), loose) == Ok(Bound(GteOp, Floor(x)))
    ensures IsWord(">=" + FloorText(x))
  {
    var op := ">=";
    assert ParseOperator(op) == Some(GteOp);
    FloorParses(op, x, loose);
  }

  lemma UpperBoundParses(x: XRangeMatch, loose: bool)
    requires PartialAtom(x, loose) && Bumpable(x)
    ensures NewComparator("<" + CeilingText(x), loose) == Ok(Bound(LtOp, Ceiling(x)))
    ensures IsWord("<" + CeilingText(x))
  {
    var op := "<";
    assert ParseOperator(op) == Some(LtOp);
    CeilingParses(op, x, loose);
  }

  lemma PairList(g: string, x: XRangeMatch)
    requires (g == "" || g == "=") && AllDigits(x.major) && (!IsX(x.minor) ==> AllDigits(x.minor))
    ensures PartialComparators(g, x) == [Bound(GteOp, Floor(x)), Bound(LtOp, Ceiling(x))]
  {
  }

  lemma PairRewrite(g: string, x: XRangeMatch, loose: bool)
    requires (g == "" || g == "=") && PartialAtom(x, loose) && Bumpable(x)
    ensures IsWord(g + PlainText(x))
    ensures ParseComparator(g + PlainText(x), loose) == (">=" + FloorText(x)) + " " + ("<" + CeilingText(x))
  {
    PairPasses(g, x, loose);
    FloorChars(">=", x, loose);
    CeilingChars("<", x, loose);
    RewrittenPair(g + PlainText(x), ">=" + FloorText(x), "<" + CeilingText(x), loose);
  }

  lemma PairPasses(g: string, x: XRangeMatch, loose: bool)
    requires (g == "" || g == "=") && PartialAtom(x, loose) && Bumpable(x)
    ensures IsWord(g + PlainText(x))
    ensures ReplaceTildes(ReplaceCarets(g + PlainText(x), loose), loose) == g + PlainText(x)
    ensures ReplaceXRanges(g + PlainText(x), loose) == (">=" + FloorText(x)) + " " + ("<" + CeilingText(x))
  {
    PartialMatches(g, x, loose);
    PairText(g, x, g + PlainText(x), loose);
  }

  // ---------------------------------------------------------------------------
  // What the comparators of a partial version allow

  /** How a version's leading components compare with the ones a partial
      version gives: the major alone for `M`, major then minor for `M.m`. */
  function ComparePrefix(v: Version, x: XRangeMatch): (r: int)
    requires AllDigits(x.major) && (!IsX(x.minor) ==> AllDigits(x.minor))
    ensures r in {-1, 0, 1}
  {
    var M := DigitsValue(x.major);
    if v.major < M then -1
    else if v.major > M then 1
    else if IsX(x.minor) then 0
    else
      var m := DigitsValue(x.minor);
      if v.minor < m then -1 else if v.minor > m then 1 else 0
  }

  /** Against a version without a prerelease, `compare` is `compareMain`. */
  lemma ReleaseCompare(v: Version, w: Version)
    requires v.prerelease == [] && w.prerelease == []
    ensures Compare(v, w) == CompareMain(v, w)
  {
  }

  /** The floor is the least version with the given components. */
  lemma FloorOrder(v: Version, x: XRangeMatch)
    requires AllDigits(x.major) && (!IsX(x.minor) ==> AllDigits(x.minor))
    requires v.prerelease == []
    ensures Compare(v, Floor(x)) >= 0 <==> ComparePrefix(v, x) >= 0
  {
    ReleaseCompare(v, Floor(x));
  }

  /** The ceiling is the least version above the given components. */
  lemma CeilingOrder(v: Version, x: XRangeMatch)
    requires AllDigits(x.major) && (!IsX(x.minor) ==> AllDigits(x.minor))
    requires v.prerelease == []
    ensures Compare(v, Ceiling(x)) < 0 <==> ComparePrefix(v, x) <= 0
  {
    ReleaseCompare(v, Ceiling(x));
  }

  /** A version without a prerelease satisfies the comparators of `g`
      before a partial version exactly when its leading components satisfy
      `g` against the ones given: `1.2` is every `1.2.*`, `>1` is
      everything from `2.0.0` on, `<=1.2` everything below `1.3.0`. */
  lemma PartialAllows(g: string, x: XRangeMatch, v: Version, includePrerelease: bool)
    requires IsGtlt(g) && AllDigits(x.major) && (!IsX(x.minor) ==> AllDigits(x.minor))
    requires v.prerelease == []
    ensures SetAllows(PartialComparators(g, x), v, includePrerelease)
            <==> Satisfied(GtltOp(g), ComparePrefix(v, x))
  {
    FloorOrder(v, x);
    CeilingOrder(v, x);
    var cs := PartialComparators(g, x);
    if g == "" || g == "=" {
      assert Holds(cs[0], v) <==> Compare(v, Floor(x)) >= 0;
      assert Holds(cs[1], v) <==> Compare(v, Ceiling(x)) < 0;
    } else if g == ">" {
      assert Holds(cs[0], v) <==> Compare(v, Ceiling(x)) >= 0;
    } else if g == "<=" {
      assert Holds(cs[0], v) <==> Compare(v, Ceiling(x)) < 0;
    } else {
      assert Holds(cs[0], v) <==> Satisfied(GtltOp(g), Compare(v, Floor(x)));
    }
  }

  /** None of these comparators lets a prerelease through unless
      prereleases are included. */
  lemma PartialPrerelease(g: string, x: XRangeMatch, v: Version, includePrerelease: bool)
    requires IsGtlt(g) && AllDigits(x.major) && (!IsX(x.minor) ==> AllDigits(x.minor))
    requires v.prerelease != [] && !includePrerelease
    ensures !SetAllows(PartialComparators(g, x), v, includePrerelease)
  {
    var cs := PartialComparators(g, x);
    forall i | 0 <= i < |cs|
      ensures !AdmitsPrerelease(cs[i], v)
    {
      assert cs[i].version.prerelease == [];
    }
  }

  // ---------------------------------------------------------------------------
  // A wildcard major

  /** An x-range atom whose major is `*`, `x` or `X`, without a prerelease
      or build. */
  predicate WildAtom(x: XRangeMatch, loose: bool) {
    ValidXRangeMatch(x, loose) && IsX(x.major) && x.pre.None? && x.build.None?
  }

  lemma WildWord(x: XRangeMatch, loose: bool)
    requires WildAtom(x, loose)
    ensures IsWord(PlainText(x)) && IsWildcardChar(PlainText(x)[0])
  {
    var s := PlainText(x);
    assert s[0] == x.major[0];
    assert TailText(TextOf(x.pre), TextOf(x.build)) == "";
    forall i | 0 <= i < |s| ensures !IsSpace(s[i]) {
      if i >= |x.major| + 1 + |x.minor| + 1 {
        assert s[i] == x.patch[i - |x.major| - |x.minor| - 2];
      } else if i >= |x.major| + 1 {
        assert s[i] == '.' || s[i] == x.minor[i - |x.major| - 1];
      } else if i < |x.major| {
        assert s[i] == x.major[i];
      }
    }
  }

  lemma GtltBeforeWildcard(g: string, t: string)
    requires IsGtlt(g) && |t| > 0 && IsWildcardChar(t[0])
    ensures Gtlt(g + t) == |g|
    ensures (g + t)[..|g|] == g && (g + t)[|g|..] == t
  {
  }

  /** XRANGE reads back an operator and a wildcard atom. */
  lemma WildMatches(g: string, x: XRangeMatch, loose: bool)
    requires IsGtlt(g) && WildAtom(x, loose)
    ensures IsWord(g + PlainText(x))
    ensures ReplaceTildes(ReplaceCarets(g + PlainText(x), loose), loose) == g + PlainText(x)
    ensures ReplaceXRanges(g + PlainText(x), loose) == XRangeTextAsWritten(g, x, g + PlainText(x), loose)
  {
    var tok := g + PlainText(x);
    WildWord(x, loose);
    GtltWord(g, PlainText(x));
    NoCaretNoTilde(tok, loose);
    XRangesOfWord(tok, loose);
    NoSpaceTrim(tok);
    GtltBeforeWildcard(g, PlainText(x));
    PlainTextMatches(x, loose);
    assert MatchXRange(tok, loose) == Some((g, x));
  }

  /** The star pass removes a lone `*`. */
  lemma StarRemoved()
    ensures ReplaceStars("*") == ""
  {
    var t := "*";
    assert Trim(t) == t by { TrimEdges(t); }
    assert IndexOf(t, '*') == 0;
    assert StarStart(t, 0) == 0;
  }

  /** A set that stands for every version, read from the empty text. */
  lemma EmptyComparatorRange(tok: string, loose: bool)
    requires IsWord(tok) && ParseComparator(tok, loose) == ""
    ensures ParseRange(tok, loose) == Ok([AnyVersion])
  {
    DesugaredToken(tok, loose);
    var e: string := [];
    assert Words(e) == [e];
    OkMatches(e, loose);
    KeepAll([e], loose);
    var rs := seq(1, k requires 0 <= k < 1 => NewComparator([e][k], loose));
    assert rs[0] == Ok(AnyVersion);
    CollectOne(rs, AnyVersion);
  }

  /** Every pass of `parseComparator` leaves the empty text empty. */
  lemma BlankPasses(loose: bool)
    ensures ParseComparator([], loose) == []
  {
    var e: string := [];
    assert Trim(e) == e;
    assert Words(e) == [e];
    assert Join([e], " ") == e;
    assert MatchCaret(e, loose) == None;
    assert MatchTilde(e, loose) == None;
    assert ReplaceCarets(e, loose) == e;
    assert ReplaceTildes(e, loose) == e;
    assert MatchXRangePlain(e, loose) == None;
    assert ReplaceXRange(e, loose) == e;
    assert ReplaceXRanges(e, loose) == e;
    assert IndexOf(e, '*') == 0;
  }

  /** A blank text desugars to the one empty word. */
  lemma BlankWords(range: string, loose: bool)
    requires Trim(range) == []
    ensures DesugaredWords(range, loose) == [[]]
  {
    var e: string := [];
    assert MatchHyphen(e, loose) == None;
    assert Words(e) == [e];
    assert Join([e], " ") == e;
    assert Split(e, ' ') == [e];
    BlankPasses(loose);
    var rewritten := seq(1, k requires 0 <= k < 1 => ParseComparator([e][k], loose));
    assert rewritten == [e];
  }

  /** A blank `||` part is one comparator that every version satisfies. */
  lemma BlankRange(range: string, loose: bool)
    requires Trim(range) == []
    ensures ParseRange(range, loose) == Ok([AnyVersion])
  {
    var e: string := [];
    BlankWords(range, loose);
    OkMatches(e, loose);
    KeepAll([e], loose);
    var rs := seq(1, k requires 0 <= k < 1 => NewComparator([e][k], loose));
    assert rs[0] == Ok(AnyVersion);
    CollectOne(rs, AnyVersion);
  }

  /** A range text of whitespace only, the empty one included, constructs
      the range of one set holding `ANY`. */
  lemma BlankNewRange(range: string, options: Options)
    requires forall i | 0 <= i < |range| :: IsSpace(range[i])
    ensures NewRange(range, options) == Ok(Range(range, options, [[AnyVersion]]))
  {
    BlankParts(range, options.loose);
    OneAnySet(range, options);
  }

  lemma BlankParts(range: string, loose: bool)
    requires forall i | 0 <= i < |range| :: IsSpace(range[i])
    ensures PartSets(range, loose) == [Ok([AnyVersion])]
  {
    assert IndexOfBars(range) == |range|;
    assert SplitBars(range) == [range];
    assert LeadingRun(range, IsSpace) == |range|;
    assert Trim(range) == [];
    BlankRange(Trim(range), loose);
    assert [range][1..] == [];
  }

  lemma OneAnySet(range: string, options: Options)
    requires PartSets(range, options.loose) == [Ok([AnyVersion])]
    ensures NewRange(range, options) == Ok(Range(range, options, [[AnyVersion]]))
  {
    AnySetKept(range, options, PartSets(range, options.loose));
  }

  lemma AnySetKept(range: string, options: Options, rs: seq<Result<seq<Comparator>, Error>>)
    requires rs == [Ok([AnyVersion])]
    ensures AllOk(rs) && KeepSets(range, options, Values(rs)) == Ok(Range(range, options, [[AnyVersion]]))
  {
    var sets: seq<seq<Comparator>> := [[AnyVersion]];
    assert Values(rs) == sets;
    NonEmptySetsConcat(sets, []);
    assert sets + [] == sets;
  }

  /** `*`, `x`, `>=*`, `<=1.x` with a wildcard major, and so on: any
      version, as far as the comparators go. */
  lemma WildcardRange(g: string, x: XRangeMatch, loose: bool)
    requires IsGtlt(g) && g != ">" && g != "<" && WildAtom(x, loose)
    ensures ParseRange(g + PlainText(x), loose) == Ok([AnyVersion])
  {
    WildcardText(g, x, loose);
    EmptyComparatorRange(g + PlainText(x), loose);
  }

  lemma WildcardText(g: string, x: XRangeMatch, loose: bool)
    requires IsGtlt(g) && g != ">" && g != "<" && WildAtom(x, loose)
    ensures IsWord(g + PlainText(x)) && ParseComparator(g + PlainText(x), loose) == ""
  {
    WildMatches(g, x, loose);
    WildcardCallback(g, x, g + PlainText(x), loose);
    StarRemoved();
  }

  lemma WildcardCallback(g: string, x: XRangeMatch, whole: string, loose: bool)
    requires IsGtlt(g) && g != ">" && g != "<" && ValidXRangeMatch(x, loose) && IsX(x.major)
    ensures XRangeTextAsWritten(g, x, whole, loose) == "*"
  {
  }

  /** The comparator text `<0.0.0` is a word without `*`. */
  lemma ZeroBoundWord(w: string, loose: bool)
    requires w == "<" + VersionText("0", "0", "0", "", "")
    ensures IsWord(w) && '*' !in w
  {
    var Z: string := "0";
    assert IsNumericId(Z, loose) && ValidTail([], "", loose);
    BoundChars("<", Z, Z, Z, [], loose);
  }

  /** `>*` and `<x`: the one comparator `<0.0.0`. */
  lemma NothingRange(g: string, x: XRangeMatch, loose: bool)
    requires (g == ">" || g == "<") && WildAtom(x, loose)
    ensures ParseRange(g + PlainText(x), loose) == Ok([Bound(LtOp, Version(0, 0, 0, [], []))])
  {
    var Z: string := "0";
    var w := "<" + VersionText(Z, Z, Z, "", "");
    NothingText(g, x, w, loose);
    ZeroBoundParses(w, loose);
    RewrittenOne(g + PlainText(x), w, Bound(LtOp, Version(0, 0, 0, [], [])), loose);
  }

  lemma NothingText(g: string, x: XRangeMatch, w: string, loose: bool)
    requires (g == ">" || g == "<") && WildAtom(x, loose)
    requires w == "<" + VersionText("0", "0", "0", "", "")
    ensures IsWord(g + PlainText(x)) && IsWord(w)
    ensures ParseComparator(g + PlainText(x), loose) == w
  {
    NothingPasses(g, x, w, loose);
    ZeroBoundWord(w, loose);
    RewrittenWord(g + PlainText(x), w, loose);
  }

  lemma NothingPasses(g: string, x: XRangeMatch, w: string, loose: bool)
    requires (g == ">" || g == "<") && WildAtom(x, loose)
    requires w == "<" + VersionText("0", "0", "0", "", "")
    ensures IsWord(g + PlainText(x))
    ensures ReplaceTildes(ReplaceCarets(g + PlainText(x), loose), loose) == g + PlainText(x)
    ensures ReplaceXRanges(g + PlainText(x), loose) == w
  {
    WildMatches(g, x, loose);
    NothingCallback(g, x, g + PlainText(x), w, loose);
  }

  lemma NothingCallback(g: string, x: XRangeMatch, whole: string, w: string, loose: bool)
    requires (g == ">" || g == "<") && ValidXRangeMatch(x, loose) && IsX(x.major)
    requires w == "<" + VersionText("0", "0", "0", "", "")
    ensures XRangeTextAsWritten(g, x, whole, loose) == w
  {
  }

  lemma ZeroBoundParses(w: string, loose: bool)
    requires w == "<" + VersionText("0", "0", "0", "", "")
    ensures NewComparator(w, loose) == Ok(Bound(LtOp, Version(0, 0, 0, [], [])))
  {
    var P: string := [];
    assert PrereleaseOf(OptionOf(P)) == [];
    ZeroTextParses(w, P, loose);
  }

  /** The set `<0.0.0` that `>*` and `<x` become allows no release, and
      no version at all unless prereleases are included: exactly the
      prereleases of `0.0.0`. */
  lemma NothingAllows(v: Version, includePrerelease: bool)
    ensures SetAllows([Bound(LtOp, Version(0, 0, 0, [], []))], v, includePrerelease)
            <==> includePrerelease && v.prerelease != [] && v.major == 0 && v.minor == 0 && v.patch == 0
    ensures v.prerelease == [] ==> !SetAllows([Bound(LtOp, Version(0, 0, 0, [], []))], v, includePrerelease)
  {
    var c := Bound(LtOp, Version(0, 0, 0, [], []));
    assert Holds([c][0], v) <==> Compare(v, c.version) < 0;
    assert !AdmitsPrerelease([c][0], v);
  }

  /** ANY holds for every version, and lets a prerelease through only when
      prereleases are included. */
  lemma AnyAllows(v: Version, includePrerelease: bool)
    ensures SetAllows([AnyVersion], v, includePrerelease) <==> v.prerelease == [] || includePrerelease
  {
    assert Holds([AnyVersion][0], v);
    assert !AdmitsPrerelease([AnyVersion][0], v);
  }
}
