/** Reading back the text of a range: `Range.prototype.format` (semver.js
    lines 601-609) writes a text that the `Range` constructor (lines
    573-599) reads back to the same sets, less their build metadata. */
module RangeFormat {
  import opened Wrappers
  import opened Chars
  import opened Grammar
  import opened GrammarText
  import opened SemVer
  import opened Comparators
  import opened Desugar
  import opened Ranges
  import opened Shorthands
  import opened Hyphens

  /** The comparator that reading back its value gives: a bound loses its
      build metadata. */
  function Unbuilt(c: Comparator): Comparator {
    if c.Bound? then c.(version := c.version.(build := [])) else c
  }

  function UnbuiltSet(comps: seq<Comparator>): seq<Comparator> {
    seq(|comps|, i requires 0 <= i < |comps| => Unbuilt(comps[i]))
  }

  function UnbuiltSets(sets: seq<seq<Comparator>>): seq<seq<Comparator>> {
    seq(|sets|, k requires 0 <= k < |sets| => UnbuiltSet(sets[k]))
  }

  /** A bound whose value the constructor reads back. */
  predicate Printable(c: Comparator) {
    c.Bound? && WellFormed(c.version) && |Format(c.version)| <= MAX_LENGTH
  }

  /** The text of one set, as `format` writes it. */
  function SetText(comps: seq<Comparator>): string {
    Join(ComparatorTexts(comps), " ")
  }

  // ---------------------------------------------------------------------------
  // One comparator

  /** The value of a bound is a word that the shorthand passes keep, and
      it holds no `|` and starts with neither `-` nor the `v` or `=`
      decoration. */
  lemma BoundTextKept(c: Comparator, loose: bool)
    requires c.Bound? && WellFormed(c.version)
    ensures var w := ComparatorText(c); IsWord(w) && w[0] != '-' && !IsDecor(w[0]) && '|' !in w
    ensures ParseComparator(ComparatorText(c), loose) == ComparatorText(c)
  {
    var v := c.version;
    FormatIsVersionText(v);
    OperatorTextParses(c.op);
    if |v.prerelease| > 0 {
      PrereleaseRoundTrip(v.prerelease, loose);
    }
    BoundWordKept(OperatorText(c.op), NatToString(v.major), NatToString(v.minor), NatToString(v.patch),
                  PrereleasePart(v.prerelease), loose);
  }

  /** `op` + `M.m.p[-pre]` is such a word. */
  lemma BoundWordKept(op: string, major: string, minor: string, patch: string, pre: string, loose: bool)
    requires op in {"", "<", ">", "<=", ">="}
    requires IsNumericId(major, loose) && IsNumericId(minor, loose) && IsNumericId(patch, loose)
    requires ValidTail(pre, "", loose)
    ensures var w := op + VersionText(major, minor, patch, pre, ""); IsWord(w) && w[0] != '-' && !IsDecor(w[0]) && '|' !in w
    ensures ParseComparator(op + VersionText(major, minor, patch, pre, ""), loose) == op + VersionText(major, minor, patch, pre, "")
  {
    BoundSettled(op, major, minor, patch, pre, loose);
    BoundBars(op, major, minor, patch, pre, loose);
    SettledKept(op + VersionText(major, minor, patch, pre, ""), loose);
  }

  lemma BoundBars(op: string, major: string, minor: string, patch: string, pre: string, loose: bool)
    requires op in {"", "<", ">", "<=", ">="}
    requires IsNumericId(major, loose) && IsNumericId(minor, loose) && IsNumericId(patch, loose)
    requires ValidTail(pre, "", loose)
    ensures var w := op + VersionText(major, minor, patch, pre, ""); |w| > 0 && w[0] != '-' && !IsDecor(w[0]) && '|' !in w
  {
    var t := VersionText(major, minor, patch, pre, "");
    VersionTextNoSpace(major, minor, patch, pre, "", loose);
    assert t[0] == major[0] && IsDigit(major[0]);
    var w := op + t;
    forall i | 0 <= i < |w| ensures w[i] != '|' {
      if i >= |op| {
        assert w[i] == t[i - |op|] && IsVersionChar(t[i - |op|]);
      }
    }
  }

  // ---------------------------------------------------------------------------
  // One set

  /** Words of this kind are words that HYPHENRANGE does not read: the
      second one does not start with `-`. */
  lemma JoinNoHyphen(texts: seq<string>, loose: bool)
    requires |texts| > 0
    requires forall k | 0 <= k < |texts| :: IsWord(texts[k]) && texts[k][0] != '-' && !IsDecor(texts[k][0])
    ensures MatchHyphen(Join(texts, " "), loose) == None
  {
    if |texts| == 1 {
      NoHyphen(texts[0], loose);
    } else {
      var a, b := texts[0], Join(texts[1..], " ");
      assert Join(texts, " ") == a + " " + b;
      JoinStartsWithWord(texts[1..]);
      assert b[0] == texts[1][0] by {
        if |texts| > 2 {
          assert b == texts[1] + " " + Join(texts[2..], " ");
        }
      }
      WordThenNoDash(a, b, loose);
    }
  }

  lemma WordThenNoDash(a: string, b: string, loose: bool)
    requires IsWord(a) && !IsDecor(a[0])
    requires |b| > 0 && !IsSpace(b[0]) && b[0] != '-'
    ensures MatchHyphen(a + " " + b, loose) == None
  {
    var s := a + " " + b;
    assert s[0] == a[0];
    FirstSpaceConcat(a, " " + b);
    assert s == a + (" " + b);
    assert s[|a|] == ' ' && s[|a| + 1] == b[0];
    SecondWordNoDash(s, |a|, loose);
  }

  /** HYPHENRANGE needs a `-` after the first word and its whitespace. */
  lemma SecondWordNoDash(s: string, e: nat, loose: bool)
    requires |s| > 0 && !IsDecor(s[0])
    requires e == FirstWhere(s, IsSpace) && e + 1 < |s| && s[e] == ' ' && !IsSpace(s[e + 1]) && s[e + 1] != '-'
    ensures MatchHyphen(s, loose) == None
  {
    assert LeadingRun(s, IsSpace) == 0 && s[0..] == s;
    assert LeadingRun(s, IsDecor) == 0 && s[0..] == s;
    var rest := s[e..];
    assert rest[0] == ' ' && rest[1] == s[e + 1];
    assert LeadingRun(rest[1..], IsSpace) == 0;
    assert LeadingRun(rest, IsSpace) == 1;
  }

  /** Words that the passes keep and HYPHENRANGE does not read, joined by
      spaces, are the words of their set. */
  lemma KeptWords(texts: seq<string>, loose: bool)
    requires |texts| > 0
    requires forall k | 0 <= k < |texts| :: IsWord(texts[k]) && texts[k][0] != '-' && !IsDecor(texts[k][0])
    requires forall k | 0 <= k < |texts| :: ParseComparator(texts[k], loose) == texts[k]
    ensures DesugaredWords(Join(texts, " "), loose) == texts
  {
    TrimJoinWords(texts);
    JoinNoHyphen(texts, loose);
    WordsJoin(texts);
    forall k | 0 <= k < |texts| ensures ' ' !in texts[k] {
      assert IsWord(texts[k]);
      assert IsSpace(' ');
    }
    SplitJoin(texts, ' ');
    FixedTokens(texts, loose);
  }

  /** Words that each construct a comparator construct them all, in order. */
  lemma ConstructedOks(words: seq<string>, loose: bool, comps: seq<Comparator>)
    requires |comps| == |words| && forall k | 0 <= k < |words| :: NewComparator(words[k], loose) == Ok(comps[k])
    ensures Constructed(words, loose) == Ok(comps)
  {
    var r := Constructed(words, loose);
    assert r.Ok?;
    assert r.value == comps;
  }

  /** The text `format` writes for a set of bounds parses back to the set,
      less build metadata. */
  lemma SetParses(comps: seq<Comparator>, loose: bool)
    requires |comps| > 0 && forall i | 0 <= i < |comps| :: Printable(comps[i])
    ensures ParseRange(SetText(comps), loose) == Ok(UnbuiltSet(comps))
  {
    var texts := ComparatorTexts(comps);
    forall k | 0 <= k < |texts|
      ensures IsWord(texts[k]) && texts[k][0] != '-' && !IsDecor(texts[k][0])
      ensures ParseComparator(texts[k], loose) == texts[k]
      ensures NewComparator(texts[k], loose) == Ok(UnbuiltSet(comps)[k])
      ensures MatchComparator(texts[k], loose).Some?
    {
      BoundTextKept(comps[k], loose);
      ComparatorRoundTrip(comps[k], loose);
    }
    KeptWords(texts, loose);
    WordsKept(SetText(comps), texts, loose);
    ConstructedOks(texts, loose, UnbuiltSet(comps));
  }

  /** The text of a set of bounds holds no `|`, and needs no trimming. */
  lemma SetTextPlain(comps: seq<Comparator>)
    requires |comps| > 0 && forall i | 0 <= i < |comps| :: Printable(comps[i])
    ensures '|' !in SetText(comps) && Trim(SetText(comps)) == SetText(comps)
  {
    var texts := ComparatorTexts(comps);
    forall k | 0 <= k < |texts| ensures '|' !in texts[k] {
      BoundTextKept(comps[k], false);
    }
    JoinAvoids(texts, '|');
    SetTextWords(comps);
  }

  // ---------------------------------------------------------------------------
  // The `||` parts

  /** Each part, trimmed, parses to the set at its index. */
  predicate PartsParseTo(parts: seq<string>, loose: bool, sets: seq<seq<Comparator>>) {
    |parts| == |sets| && forall k | 0 <= k < |parts| :: ParseRange(Trim(parts[k]), loose) == Ok(sets[k])
  }

  lemma ParsedOks(parts: seq<string>, loose: bool, sets: seq<seq<Comparator>>)
    requires PartsParseTo(parts, loose, sets)
    ensures AllOk(ParsedParts(parts, loose)) && Values(ParsedParts(parts, loose)) == sets
  {
    OksValues(ParsedParts(parts, loose), sets);
  }

  lemma OksValues<T, E>(rs: seq<Result<T, E>>, vs: seq<T>)
    requires |rs| == |vs| && forall k | 0 <= k < |rs| :: rs[k] == Ok(vs[k])
    ensures AllOk(rs) && Values(rs) == vs
  {
  }

  /** Non-empty sets are all kept. */
  lemma {:induction false} NonEmptyKept(sets: seq<seq<Comparator>>)
    requires forall k | 0 <= k < |sets| :: |sets[k]| > 0
    ensures NonEmptySets(sets) == sets
  {
    if sets != [] {
      NonEmptySetsConcat(sets[..1], sets[1..]);
      assert sets == sets[..1] + sets[1..];
      NonEmptyKept(sets[1..]);
    }
  }

  // ---------------------------------------------------------------------------
  // The round trip of a whole range

  /** The texts of the sets, each read back as the set with no build. */
  lemma TextsParse(sets: seq<seq<Comparator>>, texts: seq<string>, loose: bool)
    requires |texts| == |sets| && forall k | 0 <= k < |sets| :: texts[k] == SetText(sets[k])
    requires forall k | 0 <= k < |sets| :: |sets[k]| > 0
    requires forall k, i | 0 <= k < |sets| && 0 <= i < |sets[k]| :: Printable(sets[k][i])
    ensures forall k | 0 <= k < |texts| :: '|' !in texts[k]
    ensures PartsParseTo(texts, loose, UnbuiltSets(sets))
  {
    forall k | 0 <= k < |sets|
      ensures '|' !in texts[k] && ParseRange(Trim(texts[k]), loose) == Ok(UnbuiltSets(sets)[k])
    {
      SetTextPlain(sets[k]);
      SetParses(sets[k], loose);
    }
  }

  /** A text made of bar-free parts joined by `||`, each part parsing,
      gives the sets of the parts. */
  lemma JoinedPartsOk(text: string, texts: seq<string>, loose: bool, sets: seq<seq<Comparator>>)
    requires |texts| > 0 && text == Join(texts, "||")
    requires forall k | 0 <= k < |texts| :: '|' !in texts[k]
    requires PartsParseTo(texts, loose, sets)
    ensures AllOk(PartSets(text, loose)) && Values(PartSets(text, loose)) == sets
  {
    SplitBarsJoin(texts);
    ParsedOks(texts, loose, sets);
  }

  /** Parts that all parse to non-empty sets make a range of those sets. */
  lemma AllPartsKept(text: string, options: Options, sets: seq<seq<Comparator>>)
    requires AllOk(PartSets(text, options.loose)) && Values(PartSets(text, options.loose)) == sets
    requires |sets| > 0 && forall k | 0 <= k < |sets| :: |sets[k]| > 0
    ensures NewRange(text, options) == Ok(Range(text, options, sets))
  {
    NonEmptyKept(sets);
    assert sets[0] != [];
  }

  /** Dropping builds keeps each set's length. */
  lemma UnbuiltNonEmpty(sets: seq<seq<Comparator>>)
    requires |sets| > 0 && forall k | 0 <= k < |sets| :: |sets[k]| > 0
    ensures var u := UnbuiltSets(sets); |u| > 0 && forall k | 0 <= k < |u| :: |u[k]| > 0
  {
  }

  /** `format` joins the texts of the sets with `||`. */
  lemma SetTextsJoin(r: Range) returns (texts: seq<string>)
    requires forall k | 0 <= k < |r.sets| :: |r.sets[k]| > 0
    requires forall k, i | 0 <= k < |r.sets| && 0 <= i < |r.sets[k]| :: Printable(r.sets[k][i])
    ensures |texts| == |r.sets| && forall k | 0 <= k < |r.sets| :: texts[k] == SetText(r.sets[k])
    ensures RangeText(r) == Join(texts, "||")
  {
    texts := seq(|r.sets|, k requires 0 <= k < |r.sets| => SetText(r.sets[k]));
    RangeTextOfBounds(r);
    assert seq(|r.sets|, k requires 0 <= k < |r.sets| => Join(ComparatorTexts(r.sets[k]), " ")) == texts;
  }

  /** The texts of the sets of `r`, joined by `||`, are its `format`, and
      each reads back as its set with no build. */
  lemma SetTextsOf(r: Range) returns (texts: seq<string>)
    requires |r.sets| > 0 && forall k | 0 <= k < |r.sets| :: |r.sets[k]| > 0
    requires forall k, i | 0 <= k < |r.sets| && 0 <= i < |r.sets[k]| :: Printable(r.sets[k][i])
    ensures |texts| > 0 && RangeText(r) == Join(texts, "||")
    ensures forall k | 0 <= k < |texts| :: '|' !in texts[k]
    ensures PartsParseTo(texts, r.options.loose, UnbuiltSets(r.sets))
  {
    texts := SetTextsJoin(r);
    TextsParse(r.sets, texts, r.options.loose);
  }

  /** `format` of a range whose sets are non-empty sets of bounds, each
      version within MAX_LENGTH, is read back by the Range constructor as
      the same sets, less build metadata, under the same options. */
  lemma RangeTextRoundTrip(r: Range)
    requires |r.sets| > 0 && forall k | 0 <= k < |r.sets| :: |r.sets[k]| > 0
    requires forall k, i | 0 <= k < |r.sets| && 0 <= i < |r.sets[k]| :: Printable(r.sets[k][i])
    ensures NewRange(RangeText(r), r.options) == Ok(Range(RangeText(r), r.options, UnbuiltSets(r.sets)))
  {
    var texts := SetTextsOf(r);
    UnbuiltNonEmpty(r.sets);
    JoinedPartsOk(RangeText(r), texts, r.options.loose, UnbuiltSets(r.sets));
    AllPartsKept(RangeText(r), r.options, UnbuiltSets(r.sets));
  }
}
