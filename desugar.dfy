/** The shorthand rewrites of range texts: `replaceCaret`, `replaceTilde`,
    `replaceXRange`, `replaceStars`, `hyphenReplace` and `parseComparator`
    (semver.js lines 656-917).  Each rewrite works on text, as the source
    does: it turns a shorthand into space-separated comparator texts that
    `new Comparator` reads afterwards. */
module Desugar {
  import opened Wrappers
  import opened Chars
  import opened Grammar

  /** `isX`: a missing component or a wildcard. */
  predicate IsX(id: string) {
    id == [] || id == "x" || id == "X" || id == "*"
  }

  /** `+id + 1`, rendered as a decimal. */
  function Succ(id: string): (s: string)
    requires AllDigits(id)
    ensures IsCanonicalDigits(s)
  {
    NatToString(DigitsValue(id) + 1)
  }

  /** The prerelease suffix `replaceTilde` and `replaceCaret` append as
      written: `pr`, with a `-` put in front unless it already starts with
      one.  The captured `pr` never holds the separating `-`, so a first
      identifier that itself starts with `-` loses its separator. */
  function PrereleaseSuffixAsWritten(pre: Option<string>): string {
    match pre
    case None => ""
    case Some(pr) => if |pr| > 0 && pr[0] == '-' then pr else "-" + pr
  }

  /** The intended suffix: the separator and the captured prerelease.  The
      passes below use the suffix as written; this one only states what the
      callbacks evidently mean. */
  function PrereleaseSuffix(pre: Option<string>): (s: string)
    ensures pre.Some? && (|pre.value| == 0 || pre.value[0] != '-') ==> s == PrereleaseSuffixAsWritten(pre)
    ensures pre.None? ==> s == PrereleaseSuffixAsWritten(pre)
  {
    match pre
    case None => ""
    case Some(pr) => "-" + pr
  }

  /** The callback of `replaceCaret`: `^M.m.p` allows the changes that keep
      the left-most non-zero component. */
  function CaretText(x: XRangeMatch, loose: bool): string
    requires ValidXRangeMatch(x, loose)
  {
    var M, m, p := x.major, x.minor, x.patch;
    if IsX(M) then ""
    else if IsX(m) then ">=" + M + ".0.0 <" + Succ(M) + ".0.0"
    else if IsX(p) then
      if M == "0" then ">=" + M + "." + m + ".0 <" + M + "." + Succ(m) + ".0"
      else ">=" + M + "." + m + ".0 <" + Succ(M) + ".0.0"
    else
      var pr := PrereleaseSuffixAsWritten(x.pre);
      if M == "0" then
        if m == "0" then ">=" + M + "." + m + "." + p + pr + " <" + M + "." + m + "." + Succ(p)
        else ">=" + M + "." + m + "." + p + pr + " <" + M + "." + Succ(m) + ".0"
      else ">=" + M + "." + m + "." + p + pr + " <" + Succ(M) + ".0.0"
  }

  /** The callback of `replaceTilde`: `~M.m.p` allows patch-level changes. */
  function TildeText(x: XRangeMatch, loose: bool): string
    requires ValidXRangeMatch(x, loose)
  {
    var M, m, p := x.major, x.minor, x.patch;
    if IsX(M) then ""
    else if IsX(m) then ">=" + M + ".0.0 <" + Succ(M) + ".0.0"
    else if IsX(p) then ">=" + M + "." + m + ".0 <" + M + "." + Succ(m) + ".0"
    else ">=" + M + "." + m + "." + p + PrereleaseSuffixAsWritten(x.pre) + " <" + M + "." + Succ(m) + ".0"
  }

  /** The callback of `replaceXRange` as written; `whole` is the matched
      text, which it returns when no component is a wildcard.  A wildcard
      major after `<` or `>` gives `<0.0.0`, meant to allow nothing. */
  function XRangeTextAsWritten(gtlt: string, x: XRangeMatch, whole: string, loose: bool): string
    requires ValidXRangeMatch(x, loose)
  {
    var M, m := x.major, x.minor;
    var xM := IsX(M);
    var xm := xM || IsX(m);
    var xp := xm || IsX(x.patch);
    var g := if gtlt == "=" && xp then "" else gtlt;
    if xM then
      if g == ">" || g == "<" then "<0.0.0" else "*"
    else if g != "" && xp then
      if g == ">" then
        if xm then ">=" + Succ(M) + ".0.0" else ">=" + M + "." + Succ(m) + ".0"
      else if g == "<=" then
        if xm then "<" + Succ(M) + ".0.0" else "<" + M + "." + Succ(m) + ".0"
      else g + M + "." + (if xm then "0" else m) + ".0"
    else if xm then ">=" + M + ".0.0 <" + Succ(M) + ".0.0"
    else if xp then ">=" + M + "." + m + ".0 <" + M + "." + Succ(m) + ".0"
    else whole
  }

  /** The intended callback: what nothing satisfies is `<0.0.0-0`, the
      bound below the least version of all.  `replaceXRange` below uses the
      callback as written. */
  function XRangeText(gtlt: string, x: XRangeMatch, whole: string, loose: bool): (r: string)
    requires ValidXRangeMatch(x, loose)
    ensures !(IsX(x.major) && (gtlt == ">" || gtlt == "<")) ==> r == XRangeTextAsWritten(gtlt, x, whole, loose)
  {
    if IsX(x.major) && (gtlt == ">" || gtlt == "<") then "<0.0.0-0"
    else XRangeTextAsWritten(gtlt, x, whole, loose)
  }

  /** `hyphenReplace`: the lower end becomes `>=`, and a partial upper end
      becomes `<` the next unit, a full one `<=`. */
  function HyphenText(h: HyphenMatch, loose: bool): string
    requires ValidXRangeMatch(h.fromParts, loose) && ValidXRangeMatch(h.toParts, loose)
  {
    var f, t := h.fromParts, h.toParts;
    var from :=
      if IsX(f.major) then ""
      else if IsX(f.minor) then ">=" + f.major + ".0.0"
      else if IsX(f.patch) then ">=" + f.major + "." + f.minor + ".0"
      else ">=" + h.from;
    var to :=
      if IsX(t.major) then ""
      else if IsX(t.minor) then "<" + Succ(t.major) + ".0.0"
      else if IsX(t.patch) then "<" + t.major + "." + Succ(t.minor) + ".0"
      else if t.pre.Some? then "<=" + t.major + "." + t.minor + "." + t.patch + "-" + t.pre.value
      else "<=" + h.to;
    Trim(from + " " + to)
  }

  // ---------------------------------------------------------------------------
  // The passes of `parseComparator`

  /** `replaceCaret`: the anchored CARET expression replaces the whole
      token, or nothing. */
  function ReplaceCaret(comp: string, loose: bool): string {
    match MatchCaret(comp, loose)
    case Some(x) => CaretText(x, loose)
    case None => comp
  }

  function ReplaceTilde(comp: string, loose: bool): string {
    match MatchTilde(comp, loose)
    case Some(x) => TildeText(x, loose)
    case None => comp
  }

  function ReplaceXRange(comp: string, loose: bool): string {
    var t := Trim(comp);
    match MatchXRange(t, loose)
    case Some((gtlt, x)) => XRangeTextAsWritten(gtlt, x, t, loose)
    case None => t
  }

  /** `replaceCarets`: trim, split on whitespace, rewrite each word, join
      with single spaces. */
  function ReplaceCarets(comp: string, loose: bool): string {
    var words := Words(Trim(comp));
    Join(seq(|words|, i requires 0 <= i < |words| => ReplaceCaret(words[i], loose)), " ")
  }

  function ReplaceTildes(comp: string, loose: bool): string {
    var words := Words(Trim(comp));
    Join(seq(|words|, i requires 0 <= i < |words| => ReplaceTilde(words[i], loose)), " ")
  }

  /** `replaceXRanges`, which splits without trimming first. */
  function ReplaceXRanges(comp: string, loose: bool): string {
    var words := Words(comp);
    Join(seq(|words|, i requires 0 <= i < |words| => ReplaceXRange(words[i], loose)), " ")
  }

  /** Where the leftmost match of STAR `(<|>)?=?\s*\*` starts, given the
      position of the first `*`: the operator and whitespace right before
      that `*` belong to the match. */
  function StarStart(s: string, k: nat): (j: nat)
    requires k < |s|
    ensures j <= k
  {
    var j0 := k - TrailingRun(s[..k], IsSpace);
    var j1 := if j0 > 0 && s[j0 - 1] == '=' then j0 - 1 else j0;
    if j1 > 0 && (s[j1 - 1] == '<' || s[j1 - 1] == '>') then j1 - 1 else j1
  }

  /** `replaceStars`: remove the first STAR match from the trimmed text. */
  function ReplaceStars(comp: string): string {
    var t := Trim(comp);
    var k := IndexOf(t, '*');
    if k == |t| then t else t[..StarStart(t, k)] + t[k + 1..]
  }

  /** `parseComparator`: the four passes in order. */
  function ParseComparator(comp: string, loose: bool): string {
    ReplaceStars(ReplaceXRanges(ReplaceTildes(ReplaceCarets(comp, loose), loose), loose))
  }
}
