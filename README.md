# semver.js in Dafny

A model of the core of `semver.js`, the node-semver library, together with proofs about it. The library implements Semantic Versioning 2.0.0 (`SEMVER_SPEC_VERSION`). It does four things:

- reads version strings, in a strict and a loose dialect;
- orders versions by precedence;
- rewrites range shorthands into comparators, and builds a range from the comparators;
- decides whether a version satisfies a range.

The model keeps the library's own pipeline, text to text:

- Each regular expression of the grammar is a hand-written recognizer over `string` (`Grammar`).
  - `MatchFull` stands for FULL and LOOSE, `MatchXRangePlain` for XRANGEPLAIN, and so on.
  - Where the expression could match in several ways, the recognizer returns the match the expression's backtracking order picks (see the module comment in `grammar.dfy`).
- The `SemVer` constructor, `parse`, `valid` and `format` are in `SemVer`. A constructed version is the datatype `Version`.
  - The length limit is `MAX_LENGTH` (256); each of major, minor and patch must be at most `MAX_SAFE_INTEGER` (2^53 - 1).
  - An all-digit prerelease identifier becomes a number (`Num`); every other identifier stays text (`Alpha`).
- `compareIdentifiers`, `compareMain`, `comparePre`, `compare`, the `gt/gte/lt/lte/eq` family and `cmp` are in `Ordering`.
  - `comparePre` and `SemVer.prototype.compare` are also methods. They carry the source's loop and are proved equal to the functions.
- A `Comparator` (`Comparators`) is the ANY sentinel or an operator and a version. Its constructor and `test` are modelled as well as its `value` text.
- The shorthand rewrites are in `Desugar`, each written as the callback the source passes to `String.prototype.replace`:
  - `replaceCaret`, `replaceTilde`, `replaceXRange`, `replaceStars`, `hyphenReplace`;
  - the passes of `parseComparator`.
  - The range pipeline uses these callbacks as the code writes them. `PrereleaseSuffix` and `XRangeText` are the intended forms of two of them; only `Findings` uses them.
- `Range` (`Ranges`) holds the construction of a range: `parseRange` with its loose-mode filter, the `||` split and the removal of empty sets. It also holds `testSet` and `Range.prototype.test`, both as methods with their loops, and `satisfies`. `Ranges.RangeIsDisjunction` says a range is the OR of its `||` parts; `Composition` says a part is the AND of its tokens.

The proofs say what the rewrites mean and that the texts round-trip (modules `GrammarText`, `Shorthands`, `XRanges`, `Hyphens`, `PartialShorthands`, `Intervals`, `RangeFormat`):

- A caret, tilde, x-range or hyphen range text is parsed all the way into its comparators.
- Those comparators allow exactly the versions of the interval the shorthand stands for.
- The texts the library writes (`format` of a version and of a range, comparator values) read back to what they came from.

`Findings` holds two places where a rewrite does not do what its comment says. For each it gives the rewrite as written, and the intended rewrite with the property it should have.

Options are one explicit record: `loose`, and `includePrerelease` for ranges. A version given to `Range.prototype.test` is an `Input`: missing, a text, or an already constructed version.

All numbers are `nat`. Thrown `TypeError`s are the `Error` datatype, returned through `Result`; `parse`'s `null` is `None`.

A range string made only of whitespace constructs without error (semver.js:573-599, 611-651). Its one `||` part trims to the empty text, and the empty text is the empty comparator, ANY. So such a range is one set that allows every release version (`XRanges.BlankNewRange`).

## Model

| member | source | states |
|---|---|---|
| Chars.Trim | semver.js:350 | the result is no longer than the text, has no whitespace at either end, and a text without whitespace is kept as it is |
| Chars.TrimSlice | semver.js:350 | the trimmed text is the slice of the text between a prefix and a suffix made only of whitespace |
| Chars.SplitJoin | semver.js:379 | splitting on a character the parts do not contain gives back the joined parts |
| Chars.JoinSplit | semver.js:390 | joining the pieces of a split with the separator gives back the text |
| Chars.WordsJoin | semver.js:627 | splitting on whitespace a join of whitespace-free words gives back the words |
| Chars.WordsConcat | semver.js:636-639 | splitting on whitespace two texts without whitespace at their ends, joined by a space, gives the words of each in turn |
| Chars.WordsJoinTexts | semver.js:636-639 | splitting on whitespace a space-join of such texts gives the words of each text in turn |
| Chars.SplitBars | semver.js:584-585 | the `||` parts joined back with `||` are the text, and no part contains `||` |
| Chars.CanonicalDigitsRoundTrip | semver.js:359-361 | a digit string without leading zeros is the decimal rendering of its value |
| Chars.NatToStringValue | semver.js:395 | the decimal rendering of a number has that number as its value |
| Grammar.MatchFull | semver.js:119-137 | a match of FULL or LOOSE captures numeric identifiers of the dialect, a well-formed prerelease and a well-formed build |
| Grammar.MatchTail | semver.js:80-108 | the captured prerelease and build are well formed in the dialect |
| Grammar.MatchXRangePlain | semver.js:150-184 | a match of XRANGEPLAIN captures x-range identifiers with an optional prerelease and build |
| Grammar.Gtlt | semver.js:139-140 | the GTLT prefix is one of `""`, `<`, `>`, `<=`, `>=`, `=` |
| Grammar.MatchComparator | semver.js:237-241 | the empty text and only it is the empty match; otherwise the operator is a GTLT text and the operand matches FULL or LOOSE |
| Grammar.MatchHyphen | semver.js:257-277 | both sides of a HYPHENRANGE match are XRANGEPLAIN captures |
| GrammarText.TailTextMatches | semver.js:80-108 | `-pre+build` assembled from valid parts reads back to those parts |
| GrammarText.MainMatches | semver.js:41-63 | `M.m.p` plus a valid tail reads back to its parts |
| GrammarText.VersionTextMatches | semver.js:119-137 | in either dialect, a version text assembled from valid parts matches with exactly those captures |
| GrammarText.VersionTextSound | semver.js:119-123 | in the strict dialect, a matched text without its decoration is the assembly of its captures |
| GrammarText.VersionTextNoSpace | semver.js:119-137 | an assembled version text holds no whitespace |
| GrammarText.PlainTextMatches | semver.js:150-184 | the text of a valid x-range atom reads back to that atom |
| SemVer.NewSemVer | semver.js:329-392 | too long throws the length error; a trimmed text that does not match throws invalid-version; a major, then a minor, then a patch above MAX_SAFE_INTEGER throws its own error; a constructed version has the captured numbers and is well formed |
| SemVer.NewSemVerOfMatch | semver.js:342-392 | a text within the limit whose trimmed form matches with numbers at most MAX_SAFE_INTEGER constructs exactly the version of the captured numbers, prerelease and build |
| SemVer.BuiltFromMatch | semver.js:342-392 | conversely, a constructed version comes from a match of the trimmed text and is made of its captures |
| SemVer.PrereleaseWellFormed | semver.js:375-388 | every prerelease identifier the constructor keeps is a number or a non-numeric identifier |
| SemVer.Parse | semver.js:292-319 | a text over MAX_LENGTH, or one that does not match untrimmed, gives null; a matching text within the limit gives the constructed version when the constructor succeeds, and a returned version is always what the constructor builds |
| SemVer.IdentifierRoundTrip | semver.js:379-387 | the text of a kept identifier reads back to it and contains no dot |
| SemVer.PrereleaseRoundTrip | semver.js:375-397 | joining prerelease identifiers with dots gives a valid prerelease that splits back into them |
| SemVer.StrictPrereleaseText | semver.js:375-397 | in the strict dialect, the joined identifiers of a captured prerelease are that prerelease |
| SemVer.FormatIsVersionText | semver.js:394-400 | `format` is `M.m.p` in decimal, plus `-` and the prerelease only when there is one, and never the build |
| SemVer.FormatMatches | semver.js:394-400 | the formatted text matches in either dialect, trimmed or not, with its own parts as captures |
| SemVer.FormatRoundTrip | semver.js:329-400 | constructing or parsing a formatted version gives the version back without its build |
| SemVer.StrictFormat | semver.js:350-400 | in the strict dialect, the formatted version plus its build is the trimmed input without its decoration, and no longer than the input |
| SemVer.ValidIdempotent | semver.js:321-325 | `valid` applied again to its own result gives the same result, and in the strict dialect the result is no longer than the input |
| SemVer.SeventeenDigitsTooBig | semver.js:10 | a number of 17 or more digits is above MAX_SAFE_INTEGER |
| SemVer.LongPatchRejected | __tests__/big-numbers.js:5-23 | `1.2.` followed by a number of 17 or more digits throws invalid-patch, or the length error when too long; `parse` and `valid` give null in both dialects |
| SemVer.BigNumberCases | __tests__/big-numbers.js:5-23 | the two versions of the tests throw the length error and invalid-patch, and `valid` gives null for both |
| Ordering.CompareIdentifiers | semver.js:446-456 | the result is -1, 0 or 1 |
| Ordering.StringLessTotal | semver.js:455 | JavaScript's `<` on distinct strings orders one before the other |
| Ordering.StringLessTransitive | semver.js:455 | JavaScript's `<` on strings is transitive |
| Ordering.StringLessAsymmetric | semver.js:455 | JavaScript's `<` on strings is asymmetric |
| Ordering.CompareIdentifiersOrder | semver.js:446-456 | antisymmetric, zero exactly on equal identifiers, and transitive |
| Ordering.IdentifierPrecedesCompare | semver.js:446-456 | -1 exactly when a number meets text, two numbers are in increasing order, or two texts are in lexicographic order |
| Ordering.CompareMain | semver.js:407-413 | the result is -1, 0 or 1 |
| Ordering.ComparePrerelease | semver.js:415-441 | the result is -1, 0 or 1 |
| Ordering.ComparePre | semver.js:415-441 | the index loop returns the prerelease comparison |
| Ordering.ListsAntisymmetric | semver.js:425-440 | the walk over two identifier lists is antisymmetric and zero exactly on equal lists |
| Ordering.ListsTransitive | semver.js:425-440 | the walk over identifier lists is transitive |
| Ordering.ProperPrefixSmaller | semver.js:425-440 | a non-empty prerelease that is a proper prefix of another is smaller |
| Ordering.ListPrecedesCompare | semver.js:425-440 | the walk gives -1 exactly when the first list precedes the second as section 11 of Semantic Versioning 2.0.0 says |
| Ordering.PrereleaseOrder | semver.js:415-441 | antisymmetric, zero exactly on equal lists, transitive, and no prerelease is greater than any prerelease |
| Ordering.Compare | semver.js:402-405 | the result is -1, 0 or 1 |
| Ordering.CompareVersions | semver.js:402-405 | the method gives `compare` |
| Ordering.CompareOrder | semver.js:402-413 | `compare` is antisymmetric and transitive, and zero exactly on versions of the same precedence |
| Ordering.BuildIgnored | semver.js:402-413 | changing the build of either version does not change `compare` |
| Ordering.ComparePrecedes | semver.js:402-441 | `compare` gives -1 exactly when the first version has lower precedence, and 1 exactly when the second has |
| Ordering.CompareText | semver.js:459-461 | both texts are constructed, the first one first, and the result is `compare` of the two versions; otherwise the first text's error is thrown, or the second's when only the second fails |
| Ordering.ParseOperator | semver.js:491-511 | every GTLT text is an operator `cmp` knows |
| Ordering.Cmp | semver.js:489-513 | an unknown operator throws invalid-operator; a known one is the matching comparison of the two texts |
| Comparators.NewComparator | semver.js:516-553 | a text COMPARATOR does not match throws invalid-comparator; the result is ANY exactly for the empty text; otherwise the captured operator is known, the captured version's construction error is thrown, and a constructed version gives the bound with that operator and version |
| Comparators.BoundTextParses | semver.js:534-553 | an operator followed by a version text within the limits constructs that operator and version |
| Comparators.BoundTextMatches | semver.js:534-541 | an operator followed by a version text matches COMPARATOR with that operator and operand |
| Comparators.OperatorTextParses | semver.js:542-545 | the stored operator text of every operator reads back to it |
| Comparators.ComparatorRoundTrip | semver.js:525-557 | constructing from a comparator's value gives the comparator back without build metadata |
| Comparators.BoundTextWord | semver.js:528 | the value of a bound is one word without whitespace |
| Comparators.Test | semver.js:559-570 | the method gives whether the comparator holds: ANY always, a bound when `cmp` with its operator holds |
| Comparators.TestText | semver.js:559-570 | ANY holds without reading the text; otherwise the text is constructed, its error thrown, and the bound applied to the version |
| Desugar.Succ | semver.js:695 | `+id + 1` is rendered without leading zeros |
| Desugar.PrereleaseSuffix | semver.js:699-702 | the intended suffix, used only by `Findings`, agrees with the code unless the captured prerelease starts with `-` |
| Desugar.XRangeText | semver.js:828-835 | the intended callback, used only by `Findings`, agrees with the code except for a wildcard major after `<` or `>` |
| Ranges.KeepComparators | semver.js:640-645 | every kept word is one of the words and matches COMPARATORLOOSE, and every word that matches is kept |
| Ranges.KeepComparatorsConcat | semver.js:640-645 | one word is kept exactly when it matches, and the filter of words put end to end is the filters put end to end, so order and repetitions are kept |
| Ranges.DesugaredWords | semver.js:611-639 | after the rewrites a set is a non-empty list of whitespace-free words |
| Ranges.Constructed | semver.js:646-648 | every word constructs its comparator, at the same index; otherwise the error thrown is that of the first word that does not construct |
| Ranges.ConstructedConcat | semver.js:646-648 | constructing words put end to end throws the first half's error, else the second half's, else gives the two lists of comparators end to end |
| Ranges.ParseRange | semver.js:611-651 | a strict set is never empty, and every bound holds a well-formed version |
| Ranges.NonEmptySets | semver.js:589-592 | every kept set is non-empty and one of the sets, and every non-empty set is kept |
| Ranges.NonEmptySetsConcat | semver.js:589-592 | one set is kept exactly when it is non-empty, and the filter of sets put end to end is the filters put end to end |
| Ranges.KeepSets | semver.js:589-596 | construction fails with invalid-range exactly when every set is empty; otherwise the range keeps the text and options, and its sets are the filter of the non-empty sets |
| Ranges.NewRange | semver.js:573-599 | when some `||` part does not parse, the error thrown is that of the first such part; otherwise the range is what keeping the non-empty sets of the parts gives |
| Ranges.NoSetsLeft | semver.js:584-597 | when every part parses, the construction throws, and then invalid-range, exactly when every part parses to the empty set |
| Ranges.RangeIsDisjunction | semver.js:573-599 | a constructed range comes from parts that all parse, and allows a version exactly when some non-empty part allows it |
| Ranges.TestSet | semver.js:937-976 | the loops give: every comparator holds, and a prerelease version needs `includePrerelease` or a comparator with a prerelease on the same `M.m.p` |
| Ranges.Test | semver.js:929-934 | the loop gives whether some set allows the version |
| Ranges.TestInput | semver.js:920-935 | a missing or empty input is false, a text's construction error is thrown, and otherwise some set must allow the version |
| Ranges.Satisfies | semver.js:979-986 | a range that does not construct gives false; otherwise it is `test`, including the error of a version text that does not construct |
| Ranges.RangeTextOfBounds | semver.js:601-609 | with bounds only, the range text is each set's values joined by single spaces and the sets joined by the two-bar separator, with nothing trimmed away |
| RangeFormat.BoundTextKept | semver.js:655-661 | the value of a well-formed bound is one word that starts with neither `-` nor a decoration, holds no `|`, and every rewrite pass of `parseComparator` leaves it as it is |
| RangeFormat.KeptWords | semver.js:611-634 | words without whitespace that start with neither `-` nor a decoration and that `parseComparator` leaves as they are, joined by single spaces, come out of the passes of `parseRange` before construction as exactly those words, in order |
| RangeFormat.SetParses | semver.js:601-651 | the space-joined values of a non-empty set of bounds, each formatting within MAX_LENGTH, parse as one `||` part back to that set, each version without its build |
| RangeFormat.RangeTextRoundTrip | semver.js:573-609 | a range whose sets are non-empty sets of such bounds is constructed back from its own `format`, under the same options, with the same sets in order, each version without its build |
| Shorthands.FullXRangeKept | semver.js:818-877 | a fully specified atom passes the x-range callback unchanged |
| Shorthands.XRangeKept | semver.js:812-879 | a matched word the callback returns unchanged passes the x-range pass unchanged |
| Shorthands.SuccValue | semver.js:695 | the incremented text has the value plus one |
| Shorthands.CaretComparators | semver.js:730-801 | `^M.m.p[-pre]` rewrites to `>=M.m.p[-pre]` and the caret upper bound, when `pre` does not start with `-` |
| Shorthands.TildeComparators | semver.js:684-712 | `~M.m.p[-pre]` and `~>M.m.p[-pre]` rewrite to `>=M.m.p[-pre]` and the tilde upper bound, when `pre` does not start with `-` |
| Shorthands.CaretUpperParts | semver.js:740-796 | the caret upper bound is `<(M+1).0.0` when M > 0, `<0.(m+1).0` when M = 0 < m, else `<0.0.(p+1)`, and constructs that version |
| Shorthands.TildeUpperParts | semver.js:694-707 | the tilde upper bound is `<M.(m+1).0` and constructs that version |
| Shorthands.LowerParses | semver.js:703-704 | `>=M.m.p[-pre]` constructs the bound at the atom's version, prerelease included |
| Shorthands.CaretRange | semver.js:730-801 | the range `^M.m.p[-pre]` is exactly `>=` the atom and `<` its caret upper bound, when `pre` does not start with `-` |
| Shorthands.TildeRange | semver.js:684-712 | the range `~M.m.p[-pre]`, or `~>M.m.p[-pre]`, is exactly `>=` the atom and `<M.(m+1).0`, when `pre` does not start with `-` |
| Intervals.MainBelow | semver.js:402-413 | a smaller main version is smaller whatever the prereleases |
| Intervals.BelowUpper | semver.js:402-441 | below a release, a release compares by its main version |
| Intervals.IntervalAllows | semver.js:937-976 | a `>=low <up` set allows the versions in the half-open interval, and a prerelease only with `includePrerelease` or on the lower bound's `M.m.p` |
| Intervals.CaretAllows | semver.js:714-719 | a caret set allows exactly the releases at or above the atom that keep its left-most non-zero component |
| Intervals.TildeAllows | semver.js:668-673 | a tilde set allows exactly the releases at or above the atom with its major and minor |
| Intervals.PrereleaseAllows | semver.js:948-972 | without `includePrerelease`, a caret or tilde set allows a prerelease only when the atom has one on the same `M.m.p` and it is not below the atom |
| Intervals.CaretContainsLow | semver.js:730-801 | the caret set allows its own lower bound |
| Intervals.TildeContainsLow | semver.js:684-712 | the tilde set allows its own lower bound |
| XRanges.PartialRange | semver.js:812-879 | `g` before `M`, `M.x`, `M.m` or `M.m.x` parses to: floor and ceiling for equality, `>=` the ceiling for `>`, `<` the ceiling for `<=`, and `g` on the floor otherwise |
| XRanges.FloorOrder | semver.js:845-857 | a release is at or above the floor exactly when its leading components are at or above the atom's |
| XRanges.CeilingOrder | semver.js:858-866 | a release is below the ceiling exactly when its leading components are at or below the atom's |
| XRanges.PartialAllows | semver.js:812-879 | the comparators of an operator and a partial version allow a release exactly when its leading components satisfy the operator |
| XRanges.PartialPrerelease | semver.js:948-972 | without `includePrerelease`, they allow no prerelease |
| XRanges.StarRemoved | semver.js:883-886 | the star pass removes a lone `*` |
| XRanges.EmptyComparatorRange | semver.js:547-549 | a word the rewrites empty is one ANY comparator |
| XRanges.WildcardRange | semver.js:833-834 | a wildcard major after any operator other than `<` and `>` is one ANY comparator |
| XRanges.NothingRange | semver.js:828-831 | a wildcard major after `<` or `>` is the one bound `<0.0.0` |
| XRanges.NothingAllows | semver.js:828-831 | that set allows no release, and no version at all without `includePrerelease`; with it, exactly the prereleases of `0.0.0` |
| XRanges.AnyAllows | semver.js:955-957 | the ANY set allows every release, and a prerelease only with `includePrerelease` |
| XRanges.BlankPasses | semver.js:656-662 | every rewrite pass leaves the empty text empty |
| XRanges.BlankRange | semver.js:611-651 | a blank set is one ANY comparator |
| XRanges.BlankParts | semver.js:584-588 | a range of whitespace only is one part, which parses to ANY |
| XRanges.BlankNewRange | semver.js:573-599 | a range of whitespace only constructs, as one set holding ANY |
| Hyphens.HyphenCaptures | semver.js:257-266 | when HYPHENRANGE matches `P - Q`, the sides are `P` and `Q`, and their parts are what XRANGEPLAIN reads from each |
| Hyphens.HyphenPartialText | semver.js:893-917 | with partial sides, the rewrite is `>=` the floor of the first side and `<` the ceiling of the second |
| Hyphens.HyphenWords | semver.js:611-639 | the words of such a set are those two bounds |
| Hyphens.HyphenRange | semver.js:893-917 | `1.2 - 3.4` and its kin parse to `>=` the floor of the first side and `<` the ceiling of the second (`>=1.2.0 <3.5.0`) |
| Hyphens.HyphenAllows | semver.js:889-892 | such a set allows a release exactly when its leading components lie between the two sides, both inclusive |
| Hyphens.HyphenFullText | semver.js:893-917 | with full sides, the rewrite is `>=` the first side and `<=` the second, with or without a prerelease on the second |
| Hyphens.InclusiveParses | semver.js:910-914 | `<=M.m.p[-pre]` constructs the `<=` bound on the atom's version |
| Hyphens.HyphenFullRange | semver.js:893-917 | `1.2.3 - 2.3.4` and its kin parse to `>=` the first side and `<=` the second |
| Hyphens.HyphenFullAllows | semver.js:889-892 | such a set allows exactly the versions between the two sides, both included, a prerelease only with `includePrerelease` or on the numbers of an end that has one |
| PartialShorthands.CaretWildcard | semver.js:738-739 | `^*`, `^x.1` and their kin are the one comparator ANY |
| PartialShorthands.TildeWildcard | semver.js:692-693 | `~*`, `~>*`, `~x.1` and their kin are the one comparator ANY |
| PartialShorthands.CaretPartialText | semver.js:740-747 | on a partial version the caret callback writes `>=` its floor and `<` the ceiling of its caret scope |
| PartialShorthands.TildePartialText | semver.js:694-698 | on a partial version the tilde callback writes `>=` its floor and `<` its ceiling |
| PartialShorthands.CaretPartial | semver.js:730-801 | `^1.x` parses to `>=1.0.0 <2.0.0`, `^1.2` to `>=1.2.0 <2.0.0`, `^0.2` to `>=0.2.0 <0.3.0` |
| PartialShorthands.CaretPartialAllows | semver.js:714-719 | that set allows a release exactly when its leading components are at least the version's and at most the caret scope's |
| PartialShorthands.TildePartial | semver.js:684-712 | `~1` parses to `>=1.0.0 <2.0.0`, `~1.2` to `>=1.2.0 <1.3.0`, and the same after `~>` |
| Composition.TokenSets | semver.js:629-648 | one set per token, each what `parseRange` gives for that token on its own |
| Composition.Conjoined | semver.js:646-648 | the sets end to end exactly when every one is a value; otherwise the error of the first that is not |
| Composition.PartConjunction | semver.js:629-648 | a part that is not a hyphen range parses to the conjunction of its tokens, each parsed on its own, in order |
| Composition.ConcatAllows | semver.js:937-976 | comparators put end to end pass `testSet` exactly when every group holds and some group meets the prerelease clause |
| Composition.PartAllows | semver.js:629-648 | such a part, whose tokens all parse, parses, and a version passes `testSet` on it exactly when every token's comparators hold and some token's meet the prerelease clause |
| Findings.NothingBelowLeast | semver.js:828-831 | no version is below `0.0.0-0` |
| Findings.EmptyRangeAsWritten | semver.js:828-831 | as written, `>*` and `<*` give `<0.0.0`, which `0.0.0-0` satisfies when prereleases are included |
| Findings.EmptyRangeCorrected | semver.js:828-831 | corrected, they give `<0.0.0-0`, which no version satisfies |
| Findings.SeparatorLostAsWritten | semver.js:748-751 | as written, `^1.2.3--rc` gets the lower bound `>=1.2.3-rc`, which `1.2.3--rc` does not satisfy |
| Findings.SeparatorKept | semver.js:748-751 | with the separator always written, the lower bound of a full atom's caret or tilde range is `>=` the atom's version, which the atom satisfies |
| Findings.AtomInItsRanges | semver.js:684-801 | every full atom whose prerelease does not start with `-` satisfies its own caret and tilde ranges |

## Left out

- Regex compilation: the `re`/`src` tables, the `R` counter and the `new RegExp` loop (semver.js:16-18, 283-289). Each expression is a recognizer instead.
- The gluing passes COMPARATORTRIM, TILDETRIM and CARETTRIM (semver.js:618-624). `Ranges.ParseRange` applies the hyphen rewrite and the whitespace normalisation only. So it reads a range whose operator is separated from its operand by whitespace (`> 1.2.3`, `~ 1.2`) as separate words, where the code first glues them together.
- JavaScript numbers. Unary `+` on digit strings is exact here; for components below MAX_SAFE_INTEGER that agrees with the code.
- SemVer.NewSemVer: the MAX_LENGTH test counts the characters of a Dafny `string`, which are Unicode scalar values. JavaScript's `length` counts UTF-16 code units, so a text with characters above U+FFFF is shorter here than in the code. For example, 129 copies of U+1F600 are 258 code units and throw the length error in the code, but give invalid-version here. Lone surrogates, which a JavaScript string can hold, have no counterpart in a Dafny `string`.
- SemVer.Parse: the same length counting in code points rather than UTF-16 code units.
- SemVer.NewSemVer: every all-digit prerelease identifier becomes a number. The code keeps identifiers at or above MAX_SAFE_INTEGER as strings and then compares them as floats (semver.js:380-386).
- Dynamic typing: `options` given as a boolean, `instanceof SemVer` short-circuits and `typeof` checks (semver.js:293-303, 330-341, 517-519, 574-576). A version already constructed is passed only to `Range.prototype.test`, as `Input.Value`.
- The fields `raw`, `options` and `loose` of a SemVer object, and `Comparator.toString` besides its value. Nothing in the modelled core reads them.
- `coerce` (semver.js:988-1007) and MAX_SAFE_COMPONENT_LENGTH, which only it uses. It searches arbitrary text for a regex match, and nothing else in the library depends on it.
- `Range.prototype.format` for sets holding ANY: Ranges.RangeTextOfBounds covers sets of bounds only.
- RangeFormat.RangeTextRoundTrip: stated for sets of bounds whose versions format within MAX_LENGTH. A set holding ANY formats to the empty text, which is not covered, and build metadata is not written by `format`, so it does not come back.
- The tests of `major`, `minor`, `patch`, `clean`, `prerelease` and `inc` (`__tests__/major-minor-patch.js`, `__tests__/clean.js`, `__tests__/prerelease.js`): those functions are not part of this model. `__tests__/cli.js` runs a process; `wallaby.js` configures a test runner.
- Hyphens.HyphenRange: it takes the HYPHENRANGE match as a premise. It does not prove that the recognizer accepts `P - Q` (Hyphens.HyphenCaptures gives what a match captures).
- Shorthands.CaretRange, Shorthands.TildeRange and Findings.AtomInItsRanges: stated for full atoms whose major (and for caret minor) have no leading zeros, and whose components stay below MAX_SAFE_INTEGER. This leaves out the loose dialect's leading zeros, such as `^00.1.2`.
- Shorthands.CaretRange: stated only when the prerelease does not start with `-`. For `^1.2.3--rc` the code writes a different lower bound (see Findings).
- Shorthands.TildeRange: stated only when the prerelease does not start with `-`, for the same reason.
- Shorthands.CaretComparators: stated only when the prerelease does not start with `-`.
- Shorthands.CaretRange and Shorthands.TildeRange: stated for atoms written without the `v` or `=` decoration that XRANGEPLAIN accepts, so `^v1.2.3` and `~=1.2.3` are not covered.
- Shorthands.CaretRange and Shorthands.TildeRange: they require the atom's text, build included, to fit in MAX_LENGTH. So `^1.2.3+` followed by a build of more than 250 characters is not covered, although the code drops the build and accepts it.
- PartialShorthands.CaretPartial and PartialShorthands.TildePartial: stated for partial versions written without `v` or `=`.
- Shorthands.CaretComparators and Shorthands.TildeComparators: stated for atoms written without `v` or `=`.
- PartialShorthands.CaretWildcard and PartialShorthands.TildeWildcard: stated for wildcard atoms written without `v` or `=`.
- XRanges.WildcardRange and XRanges.NothingRange: stated for wildcard atoms written without `v` or `=`.
- XRanges.PartialRange: stated for partial versions written without `v` or `=`, such as `>=v1.2`.
- Composition.PartConjunction and Composition.PartAllows: stated for a non-empty part that is not a hyphen range, whose tokens each rewrite to a non-empty text without whitespace at its ends. A token the rewrites empty, such as `*` next to other tokens, is not covered.
- Shorthands.TildeComparators: stated only when the prerelease does not start with `-`.
- Findings.AtomInItsRanges: stated only when the prerelease does not start with `-`. Findings.SeparatorKept states the intended lower bound for every full atom.
- XRanges.PartialRange: stated for partial versions in canonical digits below MAX_SAFE_INTEGER, without prerelease or build.
- XRanges.PartialAllows: stated for releases; XRanges.PartialPrerelease covers prereleases without `includePrerelease`.
- XRanges.WildcardRange and XRanges.NothingRange: stated for wildcard atoms without prerelease or build.
- PartialShorthands.CaretWildcard and PartialShorthands.TildeWildcard: stated for wildcard atoms without prerelease or build.
- PartialShorthands.CaretPartial and PartialShorthands.TildePartial: stated for partial versions in canonical digits below MAX_SAFE_INTEGER, without prerelease or build.
- PartialShorthands.CaretPartialAllows: stated for releases.
- Hyphens.HyphenFullRange: it takes the HYPHENRANGE match as a premise. It is stated for sides written without `v` or `=` and without build metadata, in the numbers' limits. Where the first side has build metadata or decoration, the code copies it into the `>=` text; the model does not cover that case.
- Hyphens.HyphenFullRange: sides of mixed kind, one partial and one full, such as `1.2 - 3.4.5`, are not stated.
- Hyphens.HyphenAllows: stated for releases, and for sides in canonical digits.
- SemVer.FormatRoundTrip: needs the formatted text to fit in MAX_LENGTH.
- SemVer.ValidIdempotent: in the loose dialect it needs the result to fit in MAX_LENGTH, since `format` can add a `-` the input did not have.

## Findings

| source | as written | input that shows it | evidently intended | confidence | as-written member | corrected member |
|---|---|---|---|---|---|---|
| semver.js:828-831 | a wildcard major after `>` or `<` becomes `<0.0.0`, commented "nothing is allowed" | range `>*` with `includePrerelease`, version `0.0.0-0`: `0.0.0-0 < 0.0.0`, so it is allowed | a bound nothing satisfies, `<0.0.0-0` | medium, not executed | Findings.EmptyRangeAsWritten | Findings.EmptyRangeCorrected |
| semver.js:748-751 | the caret (and tilde, 699-702) callback puts `-` before the prerelease only when it does not already start with `-`, but the captured prerelease never includes its separator | range `^1.2.3--rc`, version `1.2.3--rc`: the lower bound becomes `>=1.2.3-rc`, and `-rc` sorts below `rc` | always write the separator: `>=1.2.3--rc` | medium, not executed | Findings.SeparatorLostAsWritten | Findings.SeparatorKept |
