/** Characters, digit strings and the string splitting the library relies on
    (`trim`, `split`, `join` and unary `+` on digit strings). */
module Chars {

  /** The characters of JavaScript's `\s` class, which are also the ones
      `String.prototype.trim` removes. */
  predicate IsSpace(c: char) {
    ('\t' <= c <= '\r') || c == ' ' || c == '\U{00A0}' || c == '\U{1680}'
    || ('\U{2000}' <= c <= '\U{200A}') || c == '\U{2028}' || c == '\U{2029}'
    || c == '\U{202F}' || c == '\U{205F}' || c == '\U{3000}' || c == '\U{FEFF}'
  }

  predicate IsDigit(c: char) { '0' <= c <= '9' }

  predicate IsLetter(c: char) { ('a' <= c <= 'z') || ('A' <= c <= 'Z') }

  /** `[0-9A-Za-z-]`, the characters of prerelease and build identifiers. */
  predicate IsIdChar(c: char) { IsDigit(c) || IsLetter(c) || c == '-' }

  predicate AllDigits(s: string) { forall i | 0 <= i < |s| :: IsDigit(s[i]) }

  predicate NoSpace(s: string) { forall i | 0 <= i < |s| :: !IsSpace(s[i]) }

  /** The length of the longest prefix of `s` whose characters all satisfy `p`. */
  function LeadingRun(s: string, p: char -> bool): (n: nat)
    ensures n <= |s|
    ensures forall i | 0 <= i < n :: p(s[i])
    ensures n < |s| ==> !p(s[n])
  {
    if s == [] || !p(s[0]) then 0 else 1 + LeadingRun(s[1..], p)
  }

  /** The length of the longest suffix of `s` whose characters all satisfy `p`. */
  function TrailingRun(s: string, p: char -> bool): (n: nat)
    ensures n <= |s|
    ensures forall i | |s| - n <= i < |s| :: p(s[i])
    ensures n < |s| ==> !p(s[|s| - n - 1])
  {
    if s == [] || !p(s[|s| - 1]) then 0 else 1 + TrailingRun(s[..|s| - 1], p)
  }

  /** The first index of a character satisfying `p`, or `|s|` when there is none. */
  function FirstWhere(s: string, p: char -> bool): (i: nat)
    ensures i <= |s|
    ensures i < |s| ==> p(s[i])
    ensures forall j | 0 <= j < i :: !p(s[j])
  {
    if s == [] then 0 else if p(s[0]) then 0 else 1 + FirstWhere(s[1..], p)
  }

  /** The first index of `c` in `s`, or `|s|`. */
  function IndexOf(s: string, c: char): (i: nat)
    ensures i <= |s|
    ensures i < |s| ==> s[i] == c
    ensures forall j | 0 <= j < i :: s[j] != c
  {
    if s == [] then 0 else if s[0] == c then 0 else 1 + IndexOf(s[1..], c)
  }

  /** `String.prototype.trim`: the slice of `s` left once the whitespace
      runs at both ends are cut off. */
  function Trim(s: string): (r: string)
    ensures |r| <= |s|
    ensures r == [] || (!IsSpace(r[0]) && !IsSpace(r[|r| - 1]))
    ensures NoSpace(s) ==> r == s
  {
    var t := s[LeadingRun(s, IsSpace)..];
    var r := t[..|t| - TrailingRun(t, IsSpace)];
    assert NoSpace(s) ==> LeadingRun(s, IsSpace) == 0 && (s == [] || !IsSpace(s[|s| - 1]));
    r
  }

  /** What `Trim` cuts off: the result is the slice of `s` between a prefix
      and a suffix made only of whitespace. */
  lemma TrimSlice(s: string)
    ensures exists i, j | 0 <= i <= j <= |s| ::
              Trim(s) == s[i..j] && (forall k | 0 <= k < i :: IsSpace(s[k]))
              && (forall k | j <= k < |s| :: IsSpace(s[k]))
  {
    var i := LeadingRun(s, IsSpace);
    var t := s[i..];
    var n := TrailingRun(t, IsSpace);
    var j := |s| - n;
    assert Trim(s) == s[i..j];
    forall k | j <= k < |s| ensures IsSpace(s[k]) {
      assert s[k] == t[k - i];
    }
  }

  // ---------------------------------------------------------------------------
  // Digit strings and their numeric values

  function DigitValue(c: char): (d: nat)
    requires IsDigit(c)
    ensures d < 10
  {
    (c as int - '0' as int) as nat
  }

  function DigitChar(d: nat): (c: char)
    requires d < 10
    ensures IsDigit(c) && DigitValue(c) == d
  {
    ('0' as int + d) as char
  }

  /** Unary `+` on a string of decimal digits, computed exactly. */
  function DigitsValue(s: string): nat
    requires AllDigits(s)
  {
    if s == [] then 0 else DigitsValue(s[..|s| - 1]) * 10 + DigitValue(s[|s| - 1])
  }

  /** A digit string without a redundant leading zero: `0|[1-9]\d*`. */
  predicate IsCanonicalDigits(s: string) {
    |s| > 0 && AllDigits(s) && (s[0] == '0' ==> |s| == 1)
  }

  /** JavaScript's decimal rendering of a non-negative integer. */
  function NatToString(n: nat): (s: string)
    ensures IsCanonicalDigits(s)
    ensures 0 < |s|
  {
    if n < 10 then [DigitChar(n)] else NatToString(n / 10) + [DigitChar(n % 10)]
  }

  lemma {:induction false} NatToStringValue(n: nat)
    ensures DigitsValue(NatToString(n)) == n
  {
    if n >= 10 {
      var s := NatToString(n);
      assert s[..|s| - 1] == NatToString(n / 10);
      NatToStringValue(n / 10);
    }
  }

  lemma {:induction false} DigitsValuePrefix(s: string, k: nat)
    requires AllDigits(s) && k <= |s|
    ensures AllDigits(s[..k])
  {
  }

  /** A canonical digit string is the rendering of its own value. */
  lemma {:induction false} CanonicalDigitsRoundTrip(s: string)
    requires IsCanonicalDigits(s)
    ensures NatToString(DigitsValue(s)) == s
  {
    if |s| > 1 {
      var init := s[..|s| - 1];
      assert IsCanonicalDigits(init);
      CanonicalDigitsRoundTrip(init);
      LeadingNonZero(init);
      var v := DigitsValue(s);
      assert v / 10 == DigitsValue(init) && v % 10 == DigitValue(s[|s| - 1]);
      assert v >= 10;
    } else {
      assert s == [DigitChar(DigitValue(s[0]))];
    }
  }

  /** A canonical digit string longer than one digit has a value of at least 10. */
  lemma {:induction false} LeadingNonZero(s: string)
    requires IsCanonicalDigits(s)
    ensures |s| > 1 ==> DigitsValue(s) >= 10
    ensures |s| == 1 ==> DigitsValue(s) < 10
    ensures s[0] != '0' ==> DigitsValue(s) >= Pow10(|s| - 1) && DigitsValue(s) > 0
  {
    if |s| > 1 {
      var init := s[..|s| - 1];
      assert IsCanonicalDigits(init) && init[0] == s[0];
      LeadingNonZero(init);
      assert DigitsValue(s) >= DigitsValue(init) * 10;
      assert Pow10(|s| - 1) == Pow10(|init| - 1) * 10;
    }
  }

  function Pow10(k: nat): (r: nat)
    ensures r >= 1
  {
    if k == 0 then 1 else 10 * Pow10(k - 1)
  }

  // ---------------------------------------------------------------------------
  // Splitting and joining

  /** `s.split(c)` for a one-character separator. */
  function Split(s: string, c: char): (parts: seq<string>)
    ensures |parts| > 0
    ensures forall k | 0 <= k < |parts| :: c !in parts[k]
    decreases |s|
  {
    var i := IndexOf(s, c);
    if i == |s| then [s] else [s[..i]] + Split(s[i + 1..], c)
  }

  /** `parts.join(sep)`. */
  function Join(parts: seq<string>, sep: string): string {
    if |parts| == 0 then "" else if |parts| == 1 then parts[0] else parts[0] + sep + Join(parts[1..], sep)
  }

  lemma {:induction false} SplitJoin(parts: seq<string>, c: char)
    requires |parts| > 0
    requires forall k | 0 <= k < |parts| :: c !in parts[k]
    ensures Split(Join(parts, [c]), c) == parts
  {
    if |parts| > 1 {
      var rest := Join(parts[1..], [c]);
      assert Join(parts, [c]) == parts[0] + [c] + rest;
      SplitStep(parts[0], c, rest);
      SplitJoin(parts[1..], c);
    } else {
      IndexOfConcat(parts[0], c, []);
      assert parts[0] + [] == parts[0];
    }
  }

  /** Splitting stops at the first separator. */
  lemma SplitStep(first: string, c: char, rest: string)
    requires c !in first
    ensures Split(first + [c] + rest, c) == [first] + Split(rest, c)
  {
    var s := first + [c] + rest;
    assert s == first + ([c] + rest);
    IndexOfConcat(first, c, [c] + rest);
    assert IndexOf([c] + rest, c) == 0;
    assert IndexOf(s, c) == |first|;
    assert s[|first| + 1..] == rest;
    assert s[..|first|] == first;
  }

  /** Splitting on a character and joining with it gives the string back. */
  lemma {:induction false} JoinSplit(s: string, c: char)
    ensures Join(Split(s, c), [c]) == s
    decreases |s|
  {
    var i := IndexOf(s, c);
    if i < |s| {
      JoinSplit(s[i + 1..], c);
      var rest := Split(s[i + 1..], c);
      assert Split(s, c) == [s[..i]] + rest;
      assert s == s[..i] + [c] + s[i + 1..];
    }
  }

  lemma {:induction false} IndexOfConcat(a: string, c: char, b: string)
    requires c !in a
    ensures IndexOf(a + b, c) == |a| + IndexOf(b, c)
  {
    if a != [] {
      assert (a + b)[0] == a[0];
      assert (a + b)[1..] == a[1..] + b;
      IndexOfConcat(a[1..], c, b);
    } else {
      assert a + b == b;
    }
  }

  /** `s.split(/\s+/)`: the pieces between maximal runs of whitespace; a
      leading or trailing run gives an empty first or last piece. */
  function Words(s: string): (w: seq<string>)
    ensures |w| > 0
    ensures forall k | 0 <= k < |w| :: NoSpace(w[k])
    decreases |s|
  {
    var i := FirstWhere(s, IsSpace);
    if i == |s| then [s]
    else
      var rest := s[i..];
      [s[..i]] + Words(rest[LeadingRun(rest, IsSpace)..])
  }

  predicate IsWord(w: string) { |w| > 0 && NoSpace(w) }

  /** Joining non-empty words with single spaces and splitting on whitespace
      gives the words back. */
  lemma {:induction false} WordsJoin(words: seq<string>)
    requires |words| > 0
    requires forall k | 0 <= k < |words| :: IsWord(words[k])
    ensures Words(Join(words, " ")) == words
  {
    var w := words[0];
    if |words| == 1 {
      assert FirstWhere(w, IsSpace) == |w|;
    } else {
      var rest := Join(words[1..], " ");
      assert Join(words, " ") == w + " " + rest;
      JoinStartsWithWord(words[1..]);
      WordsStep(w, rest);
      WordsJoin(words[1..]);
    }
  }

  /** Splitting on whitespace stops at the single space after the first word. */
  lemma WordsStep(w: string, rest: string)
    requires NoSpace(w)
    requires |rest| > 0 && !IsSpace(rest[0])
    ensures Words(w + " " + rest) == [w] + Words(rest)
  {
    var s := w + " " + rest;
    FirstSpaceConcat(w, " " + rest);
    assert s == w + (" " + rest);
    var tail := s[|w|..];
    assert tail == " " + rest;
    assert tail[1..] == rest;
    assert LeadingRun(tail, IsSpace) == 1 + LeadingRun(rest, IsSpace);
    assert s[..|w|] == w;
  }

  /** A text with no whitespace at either end. */
  predicate Unpadded(t: string) { t != [] && !IsSpace(t[0]) && !IsSpace(t[|t| - 1]) }

  /** The first whitespace of `a + b` is the first one of `a`, when `a` has one. */
  lemma FirstSpaceInPrefix(a: string, b: string)
    requires FirstWhere(a, IsSpace) < |a|
    ensures FirstWhere(a + b, IsSpace) == FirstWhere(a, IsSpace)
  {
    var i, s := FirstWhere(a, IsSpace), a + b;
    assert s[i] == a[i];
    assert forall j | 0 <= j < i :: s[j] == a[j];
  }

  /** A whitespace run that ends inside `a` is the same run in `a + b`. */
  lemma RunInPrefix(a: string, b: string)
    requires LeadingRun(a, IsSpace) < |a|
    ensures LeadingRun(a + b, IsSpace) == LeadingRun(a, IsSpace)
  {
    var n, s := LeadingRun(a, IsSpace), a + b;
    assert s[n] == a[n];
    assert forall j | 0 <= j < n :: s[j] == a[j];
  }

  /** Splitting on whitespace two unpadded texts joined by a space gives
      the words of the first followed by those of the second. */
  lemma {:induction false} WordsConcat(a: string, b: string)
    requires Unpadded(a) && Unpadded(b)
    ensures Words(a + " " + b) == Words(a) + Words(b)
    decreases |a|
  {
    var i := FirstWhere(a, IsSpace);
    if i == |a| {
      WordsStep(a, b);
      WordsOfWord(a);
    } else {
      var n := LeadingRun(a[i..], IsSpace);
      var a' := a[i + n..];
      assert n < |a| - i && Unpadded(a') by {
        assert a[i..][|a| - i - 1] == a[|a| - 1];
        assert a'[0] == a[i..][n] && a'[|a'| - 1] == a[|a| - 1];
      }
      WordsConcat(a', b);
      WordsConcatStep(a, b, i, n);
    }
  }

  lemma WordsConcatStep(a: string, b: string, i: nat, n: nat)
    requires i == FirstWhere(a, IsSpace) && i < |a|
    requires n == LeadingRun(a[i..], IsSpace) && n < |a| - i
    requires Words(a[i + n..] + " " + b) == Words(a[i + n..]) + Words(b)
    ensures Words(a + " " + b) == Words(a) + Words(b)
  {
    WordsHead(a, b, i, n);
    WordsUnfold(a, i, n, a[..i], a[i + n..]);
    AppendAssoc([a[..i]], Words(a[i + n..]), Words(b));
  }

  lemma AppendAssoc<T>(x: seq<T>, y: seq<T>, z: seq<T>)
    ensures x + (y + z) == (x + y) + z
  {
  }

  /** Slicing `a + m + b` inside `a`. */
  lemma ConcatSlices<T>(a: seq<T>, m: seq<T>, b: seq<T>, i: nat, j: nat)
    requires i <= |a| && j <= |a|
    ensures (a + m + b)[..i] == a[..i] && (a + m + b)[j..] == a[j..] + m + b
  {
  }

  /** A text with whitespace inside its first part `a` splits into the word
      before that whitespace and the words of what follows it. */
  lemma WordsHead(a: string, b: string, i: nat, n: nat)
    requires i == FirstWhere(a, IsSpace) && i < |a|
    requires n == LeadingRun(a[i..], IsSpace) && n < |a| - i
    ensures Words(a + " " + b) == [a[..i]] + Words(a[i + n..] + " " + b)
  {
    var s := a + " " + b;
    HeadPositions(a, b, i, n);
    ConcatSlices(a, " ", b, i, i + n);
    WordsUnfold(s, i, n, a[..i], a[i + n..] + " " + b);
  }

  lemma HeadPositions(a: string, b: string, i: nat, n: nat)
    requires i == FirstWhere(a, IsSpace) && i < |a|
    requires n == LeadingRun(a[i..], IsSpace) && n < |a| - i
    ensures FirstWhere(a + " " + b, IsSpace) == i && LeadingRun((a + " " + b)[i..], IsSpace) == n
  {
    var c := " " + b;
    assert a + " " + b == a + c;
    FirstSpaceInPrefix(a, c);
    assert (a + c)[i..] == a[i..] + c;
    RunInPrefix(a[i..], c);
  }

  /** One step of `Words`, with the first whitespace at `i` and its run `n` long. */
  lemma WordsUnfold(s: string, i: nat, n: nat, first: string, rest: string)
    requires i == FirstWhere(s, IsSpace) && i < |s|
    requires n == LeadingRun(s[i..], IsSpace)
    requires first == s[..i] && rest == s[i + n..]
    ensures Words(s) == [first] + Words(rest)
  {
    assert s[i..][n..] == s[i + n..];
  }

  /** The words of each text in turn. */
  function AllWords(texts: seq<string>): seq<string> {
    if texts == [] then [] else Words(texts[0]) + AllWords(texts[1..])
  }

  /** Splitting on whitespace a join of unpadded texts gives the words of
      each text in turn. */
  lemma {:induction false} WordsJoinTexts(texts: seq<string>)
    requires |texts| > 0 && forall k | 0 <= k < |texts| :: Unpadded(texts[k])
    ensures Words(Join(texts, " ")) == AllWords(texts)
  {
    if |texts| == 1 {
      assert AllWords(texts[1..]) == [];
      assert Words(texts[0]) + [] == Words(texts[0]);
    } else {
      var rest := texts[1..];
      JoinEnds(rest, " ");
      WordsConcat(texts[0], Join(rest, " "));
      WordsJoinTexts(rest);
    }
  }

  /** An unpadded text splits on whitespace into words none of which is empty. */
  lemma {:induction false} WordsOfUnpadded(s: string)
    requires Unpadded(s)
    ensures forall k | 0 <= k < |Words(s)| :: IsWord(Words(s)[k])
    decreases |s|
  {
    var i := FirstWhere(s, IsSpace);
    if i < |s| {
      var t := s[i..];
      assert !IsSpace(t[|t| - 1]);
      var n := LeadingRun(t, IsSpace);
      assert n < |t|;
      WordsOfUnpadded(t[n..]);
    }
  }

  lemma JoinStartsWithWord(words: seq<string>)
    requires |words| > 0
    requires forall k | 0 <= k < |words| :: IsWord(words[k])
    ensures |Join(words, " ")| > 0 && !IsSpace(Join(words, " ")[0])
  {
    if |words| > 1 {
      assert Join(words, " ")[0] == words[0][0];
    }
  }

  lemma {:induction false} FirstSpaceConcat(a: string, b: string)
    requires NoSpace(a)
    ensures FirstWhere(a + b, IsSpace) == |a| + FirstWhere(b, IsSpace)
  {
    if a != [] {
      assert (a + b)[0] == a[0];
      assert (a + b)[1..] == a[1..] + b;
      FirstSpaceConcat(a[1..], b);
    } else {
      assert a + b == b;
    }
  }

  lemma WordsOfWord(w: string)
    requires NoSpace(w)
    ensures Words(w) == [w]
  {
  }

  /** A string with no whitespace at either end is its own trim. */
  lemma TrimEdges(s: string)
    requires s != [] && !IsSpace(s[0]) && !IsSpace(s[|s| - 1])
    ensures Trim(s) == s
  {
    assert LeadingRun(s, IsSpace) == 0;
    assert TrailingRun(s, IsSpace) == 0;
  }

  /** Words joined with single spaces have no whitespace at either end, so
      trimming leaves them alone. */
  lemma {:induction false} TrimJoinWords(words: seq<string>)
    requires |words| > 0 && forall k | 0 <= k < |words| :: IsWord(words[k])
    ensures var j := Join(words, " "); j != [] && !IsSpace(j[0]) && !IsSpace(j[|j| - 1])
    ensures Trim(Join(words, " ")) == Join(words, " ")
  {
    if |words| > 1 {
      TrimJoinWords(words[1..]);
      assert Join(words, " ") == words[0] + " " + Join(words[1..], " ");
    }
    TrimEdges(Join(words, " "));
  }

  /** Joining with spaces adds no character but the space. */
  lemma {:induction false} JoinAvoids(words: seq<string>, c: char)
    requires forall k | 0 <= k < |words| :: c !in words[k]
    requires c != ' '
    ensures c !in Join(words, " ")
  {
    if |words| > 1 {
      JoinAvoids(words[1..], c);
      assert Join(words, " ") == words[0] + " " + Join(words[1..], " ");
    }
  }

  /** The first index at which `s` contains `||`, or `|s|`. */
  function IndexOfBars(s: string): (i: nat)
    ensures i <= |s|
    ensures i < |s| ==> i + 1 < |s| && s[i] == '|' && s[i + 1] == '|'
    ensures forall j | 0 <= j < i && j + 1 < |s| :: !(s[j] == '|' && s[j + 1] == '|')
  {
    if |s| < 2 then |s| else if s[0] == '|' && s[1] == '|' then 0 else 1 + IndexOfBars(s[1..])
  }

  /** No `||` occurs in `s`. */
  predicate NoBars(s: string) {
    forall j | 0 <= j < |s| - 1 :: !(s[j] == '|' && s[j + 1] == '|')
  }

  /** `s.split("||")`: joining the parts with `||` gives `s` back, no part
      holds `||`, and no part but the last ends with `|`, so each `||` is
      the left-most one. */
  function SplitBars(s: string): (parts: seq<string>)
    ensures |parts| > 0
    ensures Join(parts, "||") == s
    ensures forall k | 0 <= k < |parts| :: NoBars(parts[k])
    ensures forall k | 0 <= k < |parts| - 1 :: parts[k] == [] || parts[k][|parts[k]| - 1] != '|'
    decreases |s|
  {
    var i := IndexOfBars(s);
    if i == |s| then
      assert NoBars(s) by {
        forall j | 0 <= j < |s| - 1 ensures !(s[j] == '|' && s[j + 1] == '|') {
          assert j < i && j + 1 < |s|;
        }
      }
      [s]
    else
      var first, rest := s[..i], SplitBars(s[i + 2..]);
      assert NoBars(first) by {
        forall j | 0 <= j < |first| - 1 ensures !(first[j] == '|' && first[j + 1] == '|') {
          assert first[j] == s[j] && first[j + 1] == s[j + 1] && j < i && j + 1 < |s|;
        }
      }
      assert first == [] || first[|first| - 1] != '|' by {
        if first != [] {
          assert first[|first| - 1] == s[i - 1] && i - 1 + 1 < |s|;
        }
      }
      var parts := [first] + rest;
      assert parts[1..] == rest;
      assert Join(parts, "||") == first + "||" + Join(rest, "||");
      assert s == s[..i] + "||" + s[i + 2..];
      assert forall k | 1 <= k < |parts| :: parts[k] == rest[k - 1];
      parts
  }

  /** A join of texts that start and end with a non-space starts and ends
      with one. */
  lemma {:induction false} JoinEnds(parts: seq<string>, sep: string)
    requires |parts| > 0
    requires forall k | 0 <= k < |parts| :: parts[k] != [] && !IsSpace(parts[k][0]) && !IsSpace(parts[k][|parts[k]| - 1])
    ensures var j := Join(parts, sep); j != [] && !IsSpace(j[0]) && !IsSpace(j[|j| - 1])
    decreases |parts|
  {
    if |parts| > 1 {
      JoinEnds(parts[1..], sep);
      var j := Join(parts[1..], sep);
      assert Join(parts, sep) == parts[0] + sep + j;
    }
  }

  lemma {:induction false} BarsAfter(a: string, b: string)
    requires '|' !in a
    ensures IndexOfBars(a + "||" + b) == |a|
  {
    var s := a + "||" + b;
    if a != [] {
      assert s[0] == a[0];
      assert s[1..] == a[1..] + "||" + b;
      BarsAfter(a[1..], b);
    } else {
      assert s[0] == '|' && s[1] == '|';
    }
  }

  lemma {:induction false} NoBarsAt(a: string)
    requires '|' !in a
    ensures IndexOfBars(a) == |a|
  {
    if |a| >= 2 {
      assert a[0] != '|';
      NoBarsAt(a[1..]);
    }
  }

  /** A first part without `|` is split off at the `||` after it. */
  lemma SplitBarsAfter(a: string, rest: string)
    requires '|' !in a
    ensures SplitBars(a + "||" + rest) == [a] + SplitBars(rest)
  {
    var s := a + "||" + rest;
    BarsAfter(a, rest);
    assert s[..|a|] == a && s[|a| + 2..] == rest;
  }

  /** Splitting on `||` texts without `|` joined by `||` gives them back. */
  lemma {:induction false} SplitBarsJoin(parts: seq<string>)
    requires |parts| > 0 && forall k | 0 <= k < |parts| :: '|' !in parts[k]
    ensures SplitBars(Join(parts, "||")) == parts
  {
    if |parts| == 1 {
      NoBarsAt(parts[0]);
    } else {
      var rest := Join(parts[1..], "||");
      assert Join(parts, "||") == parts[0] + "||" + rest;
      SplitBarsAfter(parts[0], rest);
      SplitBarsJoin(parts[1..]);
      assert parts == [parts[0]] + parts[1..];
    }
  }
}
