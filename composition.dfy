/** Within one `||` part of a range, the comparators are ANDed: when the
    part is not a hyphen range, it parses to the comparators of its tokens,
    each token parsed on its own, in order (semver.js lines 629-648), and
    `testSet` (lines 956-986) then asks every one of them to hold. */
module Composition {
  import opened Wrappers
  import opened Chars
  import opened Grammar
  import opened SemVer
  import opened Comparators
  import opened Desugar
  import opened Ranges
  import opened Shorthands

  /** What `parseRange` gives for each token of a part, parsed on its own. */
  function TokenSets(tokens: seq<string>, loose: bool): (ps: seq<Result<seq<Comparator>, Error>>)
    ensures |ps| == |tokens| && forall k | 0 <= k < |tokens| :: ps[k] == ParseRange(tokens[k], loose)
  {
    Map(tokens, t => ParseRange(t, loose))
  }

  /** The comparators of the sets put end to end, or the first error. */
  function Conjoined(ps: seq<Result<seq<Comparator>, Error>>): (r: Result<seq<Comparator>, Error>)
    ensures r.Ok? <==> forall k | 0 <= k < |ps| :: ps[k].Ok?
    ensures r.Err? ==> exists k | 0 <= k < |ps| :: ps[k] == Err(r.error) && OkBefore(ps, k)
  {
    match Collect(ps)
    case Err(e) => Err(e)
    case Ok(groups) => Ok(Concat(groups))
  }

  /** The comparator texts `parseRange` goes on to construct. */
  function Kept(words: seq<string>, loose: bool): seq<string> {
    if loose then KeepComparators(words, loose) else words
  }

  /** A token parsed on its own: the words it rewrites to, constructed. */
  lemma TokenParses(t: string, loose: bool)
    requires IsWord(t)
    ensures ParseRange(t, loose) == Constructed(Kept(Words(ParseComparator(t, loose)), loose), loose)
  {
    DesugaredToken(t, loose);
  }

  /** One step of the induction below: a first group of words before the
      rest. */
  lemma ConstructedStep(w: seq<string>, a: seq<string>, loose: bool,
                        p: Result<seq<Comparator>, Error>, ps: seq<Result<seq<Comparator>, Error>>)
    requires p == Constructed(Kept(w, loose), loose)
    requires Constructed(Kept(a, loose), loose) == Conjoined(ps)
    ensures Constructed(Kept(w + a, loose), loose) == Conjoined([p] + ps)
  {
    if loose {
      KeepComparatorsConcat(w, a, loose);
    }
    assert Kept(w + a, loose) == Kept(w, loose) + Kept(a, loose);
    ConstructedConcat(Kept(w, loose), Kept(a, loose), loose);
    CollectConcat([p], ps);
    if Collect([p] + ps).Ok? {
      var groups := Collect([p] + ps).value;
      assert groups == [p.value] + Collect(ps).value;
      assert Concat(groups) == p.value + Concat(groups[1..]);
    }
  }

  /** Constructing the words of all the rewritten tokens is parsing each
      token on its own and putting the comparators end to end. */
  lemma GroupsConstructed(tokens: seq<string>, loose: bool)
    requires forall k | 0 <= k < |tokens| :: IsWord(tokens[k])
    ensures Constructed(Kept(AllWords(Map(tokens, t => ParseComparator(t, loose))), loose), loose)
            == Conjoined(TokenSets(tokens, loose))
  {
    var ps := TokenSets(tokens, loose);
    forall k | 0 <= k < |tokens|
      ensures ps[k] == Constructed(Kept(Words(ParseComparator(tokens[k], loose)), loose), loose)
    {
      TokenParses(tokens[k], loose);
    }
    var f := t => ParseComparator(t, loose);
    assert GroupsOf(tokens, loose, f, ps);
    WordGroupsConstructed(tokens, loose, f, ps);
  }

  /** Each set in `ps` is what the words of the rewritten token at the same
      index construct. */
  predicate GroupsOf(tokens: seq<string>, loose: bool, f: string -> string, ps: seq<Result<seq<Comparator>, Error>>) {
    |ps| == |tokens| && forall k | 0 <= k < |tokens| :: ps[k] == Constructed(Kept(Words(f(tokens[k])), loose), loose)
  }

  lemma GroupsOfTail(tokens: seq<string>, loose: bool, f: string -> string, ps: seq<Result<seq<Comparator>, Error>>)
    requires GroupsOf(tokens, loose, f, ps) && |tokens| > 0
    ensures GroupsOf(tokens[1..], loose, f, ps[1..])
  {
    forall k | 0 <= k < |tokens| - 1
      ensures ps[1..][k] == Constructed(Kept(Words(f(tokens[1..][k])), loose), loose)
    {
      assert ps[1..][k] == ps[k + 1] && tokens[1..][k] == tokens[k + 1];
    }
  }

  /** The induction behind `GroupsConstructed`, over any rewriting `f` of
      the tokens and the sets they give. */
  lemma {:induction false} WordGroupsConstructed(tokens: seq<string>, loose: bool, f: string -> string,
                                                 ps: seq<Result<seq<Comparator>, Error>>)
    requires GroupsOf(tokens, loose, f, ps)
    ensures Constructed(Kept(AllWords(Map(tokens, f)), loose), loose) == Conjoined(ps)
  {
    if tokens == [] {
      assert Map(tokens, f) == [];
      assert ps == [];
      NothingConstructed(loose);
    } else {
      AllWordsStep(tokens, f);
      GroupsOfTail(tokens, loose, f, ps);
      WordGroupsConstructed(tokens[1..], loose, f, ps[1..]);
      assert ps == [ps[0]] + ps[1..];
      ConstructedStep(Words(f(tokens[0])), AllWords(Map(tokens[1..], f)), loose, ps[0], ps[1..]);
    }
  }

  lemma NothingConstructed(loose: bool)
    ensures Constructed(Kept([], loose), loose) == Conjoined([])
  {
    assert Kept([], loose) == [];
    assert Map([], w => NewComparator(w, loose)) == [];
    assert Constructed([], loose) == Ok([]);
    assert Collect<seq<Comparator>, Error>([]) == Ok([]);
  }

  lemma AllWordsStep(texts: seq<string>, f: string -> string)
    requires |texts| > 0
    ensures AllWords(Map(texts, f)) == Words(f(texts[0])) + AllWords(Map(texts[1..], f))
  {
    var m := Map(texts, f);
    assert m == [f(texts[0])] + Map(texts[1..], f);
    assert m[1..] == Map(texts[1..], f);
  }

  /** A part that is not a hyphen range, and whose tokens each rewrite to
      text without whitespace at its ends, parses to the conjunction of its
      tokens. */
  lemma PartConjunction(part: string, loose: bool)
    requires Trim(part) != [] && MatchHyphen(Trim(part), loose).None?
    requires forall k | 0 <= k < |Words(Trim(part))| :: Unpadded(ParseComparator(Words(Trim(part))[k], loose))
    ensures ParseRange(part, loose) == Conjoined(TokenSets(Words(Trim(part)), loose))
  {
    var s := Trim(part);
    var tokens := Words(s);
    WordsOfUnpadded(s);
    forall k | 0 <= k < |tokens| ensures ' ' !in tokens[k] {
      assert IsWord(tokens[k]);
      assert IsSpace(' ');
    }
    SplitJoin(tokens, ' ');
    assert Split(Join(Words(s), " "), ' ') == tokens;
    var texts := Map(tokens, t => ParseComparator(t, loose));
    WordsJoinTexts(texts);
    assert DesugaredWords(part, loose) == AllWords(texts);
    GroupsConstructed(tokens, loose);
  }

  // ---------------------------------------------------------------------------
  // Testing a conjunction

  predicate AllHold(comps: seq<Comparator>, v: Version) {
    forall c | c in comps :: Holds(c, v)
  }

  predicate SomeAdmits(comps: seq<Comparator>, v: Version) {
    exists c | c in comps :: AdmitsPrerelease(c, v)
  }

  /** `testSet` read over the members of a set rather than its indices. */
  lemma MembersAllow(comps: seq<Comparator>, v: Version, ip: bool)
    ensures SetAllows(comps, v, ip) <==> AllHold(comps, v) && (v.prerelease == [] || ip || SomeAdmits(comps, v))
  {
    if SomeAdmits(comps, v) {
      var c :| c in comps && AdmitsPrerelease(c, v);
      var i :| 0 <= i < |comps| && comps[i] == c;
    }
  }

  /** Both halves of a concatenation hold, and one of them admits. */
  lemma AppendHolds(a: seq<Comparator>, b: seq<Comparator>, v: Version)
    ensures AllHold(a + b, v) <==> AllHold(a, v) && AllHold(b, v)
    ensures SomeAdmits(a + b, v) <==> SomeAdmits(a, v) || SomeAdmits(b, v)
  {
  }

  lemma {:induction false} ConcatHolds(groups: seq<seq<Comparator>>, v: Version)
    ensures AllHold(Concat(groups), v) <==> forall k | 0 <= k < |groups| :: AllHold(groups[k], v)
    ensures SomeAdmits(Concat(groups), v) <==> exists k | 0 <= k < |groups| :: SomeAdmits(groups[k], v)
  {
    if groups != [] {
      var rest := groups[1..];
      ConcatHolds(rest, v);
      assert Concat(groups) == groups[0] + Concat(rest);
      AppendHolds(groups[0], Concat(rest), v);
      assert forall k | 0 <= k < |rest| :: rest[k] == groups[k + 1];
      if exists k | 0 <= k < |groups| :: SomeAdmits(groups[k], v) {
        var k :| 0 <= k < |groups| && SomeAdmits(groups[k], v);
        if k > 0 {
          assert SomeAdmits(rest[k - 1], v);
        }
      }
    }
  }

  /** Testing comparators put end to end: every group holds, and the
      prerelease clause is met by some comparator of some group. */
  lemma ConcatAllows(groups: seq<seq<Comparator>>, v: Version, ip: bool)
    ensures SetAllows(Concat(groups), v, ip)
            <==> (forall k | 0 <= k < |groups| :: AllHold(groups[k], v))
                 && (v.prerelease == [] || ip || exists k | 0 <= k < |groups| :: SomeAdmits(groups[k], v))
  {
    MembersAllow(Concat(groups), v, ip);
    ConcatHolds(groups, v);
  }

  /** The AND of one part: a part that is not a hyphen range, whose tokens
      each rewrite to unpadded text and each parse on their own, parses; a
      version then passes `testSet` on it exactly when the comparators of
      every token hold, and the prerelease clause is met by a comparator of
      some token. */
  lemma PartAllows(part: string, loose: bool, v: Version, ip: bool)
    requires Trim(part) != [] && MatchHyphen(Trim(part), loose).None?
    requires forall k | 0 <= k < |Words(Trim(part))| :: Unpadded(ParseComparator(Words(Trim(part))[k], loose))
    requires AllOk(TokenSets(Words(Trim(part)), loose))
    ensures ParseRange(part, loose).Ok?
    ensures var ps := TokenSets(Words(Trim(part)), loose);
            SetAllows(ParseRange(part, loose).value, v, ip)
            <==> (forall k | 0 <= k < |ps| :: AllHold(ps[k].value, v))
                 && (v.prerelease == [] || ip || exists k | 0 <= k < |ps| :: SomeAdmits(ps[k].value, v))
  {
    PartConjunction(part, loose);
    GroupsAllow(ParseRange(part, loose), TokenSets(Words(Trim(part)), loose), v, ip);
  }

  /** `ConcatAllows` for the sets of the tokens, all of which parsed. */
  lemma GroupsAllow(r: Result<seq<Comparator>, Error>, ps: seq<Result<seq<Comparator>, Error>>, v: Version, ip: bool)
    requires AllOk(ps)
    requires r == Conjoined(ps)
    ensures r.Ok?
    ensures SetAllows(r.value, v, ip)
            <==> (forall k | 0 <= k < |ps| :: AllHold(ps[k].value, v))
                 && (v.prerelease == [] || ip || exists k | 0 <= k < |ps| :: SomeAdmits(ps[k].value, v))
  {
    var groups := Collect(ps).value;
    assert Conjoined(ps).value == Concat(groups);
    assert forall k | 0 <= k < |ps| :: ps[k].value == groups[k];
    ConcatAllows(groups, v, ip);
  }
}
