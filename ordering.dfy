/** Precedence: `compareIdentifiers`, `compareMain`, `comparePre`,
    `compare` and the `gt`/`lt`/`eq`/`gte`/`lte`/`cmp` family
    (semver.js lines 402-513), following section 11 of Semantic
    Versioning 2.0.0. */
module Ordering {
  import opened Wrappers
  import opened SemVer

  /** JavaScript's `<` on two strings: the first differing character
      decides, and a proper prefix is smaller. */
  predicate StringLess(a: string, b: string) {
    if a == [] then b != []
    else if b == [] then false
    else if a[0] != b[0] then a[0] < b[0]
    else StringLess(a[1..], b[1..])
  }

  /** `compareIdentifiers`: numeric identifiers compare by value and sort
      below textual ones, textual identifiers compare as strings. */
  function CompareIdentifiers(a: Identifier, b: Identifier): (r: int)
    ensures r in {-1, 0, 1}
  {
    match (a, b)
    case (Num(x), Num(y)) => if x < y then -1 else if x > y then 1 else 0
    case (Num(_), Alpha(_)) => -1
    case (Alpha(_), Num(_)) => 1
    case (Alpha(x), Alpha(y)) => if StringLess(x, y) then -1 else if StringLess(y, x) then 1 else 0
  }

  /** `compareMain`: the first of major, minor and patch that differs decides. */
  function CompareMain(v: Version, w: Version): (r: int)
    ensures r in {-1, 0, 1}
  {
    var c := CompareIdentifiers(Num(v.major), Num(w.major));
    if c != 0 then c
    else
      var d := CompareIdentifiers(Num(v.minor), Num(w.minor));
      if d != 0 then d else CompareIdentifiers(Num(v.patch), Num(w.patch))
  }

  /** What the `comparePre` loop computes once both lists are non-empty:
      the first position at which the identifiers differ decides, and a list
      that runs out first is smaller. */
  function CompareIdentifierLists(a: seq<Identifier>, b: seq<Identifier>): (r: int)
    ensures r in {-1, 0, 1}
  {
    if a == [] && b == [] then 0
    else if b == [] then 1
    else if a == [] then -1
    else if a[0] == b[0] then CompareIdentifierLists(a[1..], b[1..])
    else CompareIdentifiers(a[0], b[0])
  }

  /** The specification of `comparePre`: not having a prerelease is greater
      than having one. */
  function ComparePrerelease(a: seq<Identifier>, b: seq<Identifier>): (r: int)
    ensures r in {-1, 0, 1}
  {
    if |a| > 0 && |b| == 0 then -1
    else if |a| == 0 && |b| > 0 then 1
    else if |a| == 0 && |b| == 0 then 0
    else CompareIdentifierLists(a, b)
  }

  /** `comparePre`, with its index loop. */
  method ComparePre(a: seq<Identifier>, b: seq<Identifier>) returns (r: int)
    ensures r == ComparePrerelease(a, b)
  {
    if |a| > 0 && |b| == 0 {
      return -1;
    } else if |a| == 0 && |b| > 0 {
      return 1;
    } else if |a| == 0 && |b| == 0 {
      return 0;
    }
    var i := 0;
    while true
      invariant 0 <= i <= |a| && i <= |b|
      invariant CompareIdentifierLists(a, b) == CompareIdentifierLists(a[i..], b[i..])
      decreases |a| - i
    {
      if i == |a| && i == |b| {
        return 0;
      } else if i == |b| {
        return 1;
      } else if i == |a| {
        return -1;
      } else if a[i] == b[i] {
        assert a[i..][1..] == a[i + 1..] && b[i..][1..] == b[i + 1..];
        i := i + 1;
      } else {
        return CompareIdentifiers(a[i], b[i]);
      }
    }
  }

  /** `compare`: the main versions decide, and the prereleases only when
      the main versions are equal; build metadata is never read. */
  function Compare(v: Version, w: Version): (r: int)
    ensures r in {-1, 0, 1}
  {
    var c := CompareMain(v, w);
    if c != 0 then c else ComparePrerelease(v.prerelease, w.prerelease)
  }

  /** `SemVer.prototype.compare`, running the `comparePre` loop. */
  method CompareVersions(v: Version, w: Version) returns (r: int)
    ensures r == Compare(v, w)
  {
    r := CompareMain(v, w);
    if r == 0 {
      r := ComparePre(v.prerelease, w.prerelease);
    }
  }

  // ---------------------------------------------------------------------------
  // The functions on strings: each parses both arguments, the first one first

  /** `compare(a, b, loose)`. */
  function CompareText(a: string, b: string, loose: bool): (r: Result<int, Error>)
    ensures r.Ok? <==> NewSemVer(a, loose).Ok? && NewSemVer(b, loose).Ok?
    ensures r.Ok? ==> r.value == Compare(NewSemVer(a, loose).value, NewSemVer(b, loose).value)
    ensures NewSemVer(a, loose).Err? ==> r == Err(NewSemVer(a, loose).error)
    ensures NewSemVer(a, loose).Ok? && NewSemVer(b, loose).Err? ==> r == Err(NewSemVer(b, loose).error)
  {
    match NewSemVer(a, loose)
    case Err(e) => Err(e)
    case Ok(va) =>
      match NewSemVer(b, loose)
      case Err(e) => Err(e)
      case Ok(vb) => Ok(Compare(va, vb))
  }

  /** The operators `cmp` accepts. */
  datatype Op = EqOp | GtOp | GteOp | LtOp | LteOp

  /** The `switch` of `cmp`: `""`, `=` and `==` all mean equality. */
  function ParseOperator(op: string): (r: Option<Op>)
    ensures op in {"", "<", ">", "<=", ">=", "="} ==> r.Some?
  {
    if op == "" || op == "=" || op == "==" then Some(EqOp)
    else if op == ">" then Some(GtOp)
    else if op == ">=" then Some(GteOp)
    else if op == "<" then Some(LtOp)
    else if op == "<=" then Some(LteOp)
    else None
  }

  /** Whether the result of `compare` satisfies an operator. */
  predicate Satisfied(op: Op, c: int) {
    match op
    case EqOp => c == 0
    case GtOp => c > 0
    case GteOp => c >= 0
    case LtOp => c < 0
    case LteOp => c <= 0
  }

  /** `cmp` on two versions, as the comparators call it. */
  predicate CmpVersions(v: Version, op: Op, w: Version) {
    Satisfied(op, Compare(v, w))
  }

  /** `gt`, `gte`, `lt`, `lte` and `eq` on strings. */
  function CompareWith(op: Op, a: string, b: string, loose: bool): Result<bool, Error> {
    match CompareText(a, b, loose)
    case Err(e) => Err(e)
    case Ok(c) => Ok(Satisfied(op, c))
  }

  /** `cmp(a, op, b, loose)`: an unknown operator throws before either
      version is parsed. */
  function Cmp(a: string, op: string, b: string, loose: bool): (r: Result<bool, Error>)
    ensures ParseOperator(op).None? ==> r == Err(InvalidOperator(op))
    ensures ParseOperator(op).Some? ==> r == CompareWith(ParseOperator(op).value, a, b, loose)
  {
    match ParseOperator(op)
    case None => Err(InvalidOperator(op))
    case Some(o) => CompareWith(o, a, b, loose)
  }

  // ---------------------------------------------------------------------------
  // `compare` is a total preorder that ignores build metadata

  lemma {:induction false} StringLessIrreflexive(a: string)
    ensures !StringLess(a, a)
  {
    if a != [] { StringLessIrreflexive(a[1..]); }
  }

  lemma {:induction false} StringLessAsymmetric(a: string, b: string)
    requires StringLess(a, b)
    ensures !StringLess(b, a)
  {
    if a != [] && b != [] && a[0] == b[0] { StringLessAsymmetric(a[1..], b[1..]); }
  }

  lemma {:induction false} StringLessTotal(a: string, b: string)
    requires a != b
    ensures StringLess(a, b) || StringLess(b, a)
  {
    if a != [] && b != [] && a[0] == b[0] {
      assert a == [a[0]] + a[1..] && b == [b[0]] + b[1..];
      StringLessTotal(a[1..], b[1..]);
    }
  }

  lemma {:induction false} StringLessTransitive(a: string, b: string, c: string)
    requires StringLess(a, b) && StringLess(b, c)
    ensures StringLess(a, c)
  {
    if a != [] && a[0] == b[0] && b[0] == c[0] {
      StringLessTransitive(a[1..], b[1..], c[1..]);
    }
  }

  /** `compareIdentifiers` is antisymmetric, zero exactly on equal
      identifiers, and transitive. */
  lemma CompareIdentifiersOrder(a: Identifier, b: Identifier, c: Identifier)
    ensures CompareIdentifiers(a, b) == -CompareIdentifiers(b, a)
    ensures CompareIdentifiers(a, b) == 0 <==> a == b
    ensures CompareIdentifiers(a, b) == -1 && CompareIdentifiers(b, c) == -1 ==> CompareIdentifiers(a, c) == -1
  {
    if a.Alpha? && b.Alpha? {
      if StringLess(a.s, b.s) { StringLessAsymmetric(a.s, b.s); }
      if a.s != b.s { StringLessTotal(a.s, b.s); } else { StringLessIrreflexive(a.s); }
      if c.Alpha? && StringLess(a.s, b.s) && StringLess(b.s, c.s) {
        StringLessTransitive(a.s, b.s, c.s);
        StringLessAsymmetric(a.s, c.s);
      }
    }
  }

  lemma {:induction false} ListsAntisymmetric(a: seq<Identifier>, b: seq<Identifier>)
    ensures CompareIdentifierLists(a, b) == -CompareIdentifierLists(b, a)
    ensures CompareIdentifierLists(a, b) == 0 <==> a == b
  {
    if a != [] && b != [] {
      CompareIdentifiersOrder(a[0], b[0], b[0]);
      if a[0] == b[0] {
        ListsAntisymmetric(a[1..], b[1..]);
        assert a == [a[0]] + a[1..] && b == [b[0]] + b[1..];
      }
    }
  }

  lemma {:induction false} ListsTransitive(a: seq<Identifier>, b: seq<Identifier>, c: seq<Identifier>)
    requires CompareIdentifierLists(a, b) == -1 && CompareIdentifierLists(b, c) == -1
    ensures CompareIdentifierLists(a, c) == -1
  {
    if a != [] && b != [] && c != [] {
      if a[0] == b[0] && b[0] == c[0] {
        ListsTransitive(a[1..], b[1..], c[1..]);
      } else if a[0] == b[0] {
        CompareIdentifiersOrder(a[0], c[0], c[0]);
      } else if b[0] == c[0] {
        CompareIdentifiersOrder(a[0], c[0], c[0]);
      } else {
        CompareIdentifiersOrder(a[0], b[0], c[0]);
        CompareIdentifiersOrder(a[0], c[0], c[0]);
      }
    }
  }

  /** Prerelease lists: a proper prefix sorts first. */
  lemma {:induction false} ProperPrefixSmaller(a: seq<Identifier>, b: seq<Identifier>)
    requires 0 < |a| < |b| && a == b[..|a|]
    ensures ComparePrerelease(a, b) == -1
  {
    PrefixListSmaller(a, b);
  }

  lemma {:induction false} PrefixListSmaller(a: seq<Identifier>, b: seq<Identifier>)
    requires |a| < |b| && a == b[..|a|]
    ensures CompareIdentifierLists(a, b) == -1
  {
    if a != [] {
      assert a[0] == b[0];
      assert a[1..] == b[1..][..|a| - 1];
      PrefixListSmaller(a[1..], b[1..]);
    }
  }

  /** `comparePre` is antisymmetric, zero exactly on equal lists, and
      transitive; a version without a prerelease sorts after one with. */
  lemma PrereleaseOrder(a: seq<Identifier>, b: seq<Identifier>, c: seq<Identifier>)
    ensures ComparePrerelease(a, b) == -ComparePrerelease(b, a)
    ensures ComparePrerelease(a, b) == 0 <==> a == b
    ensures ComparePrerelease(a, b) == -1 && ComparePrerelease(b, c) == -1 ==> ComparePrerelease(a, c) == -1
    ensures |a| == 0 && |b| > 0 ==> ComparePrerelease(a, b) == 1
  {
    ListsAntisymmetric(a, b);
    if ComparePrerelease(a, b) == -1 && ComparePrerelease(b, c) == -1 && |a| > 0 && |b| > 0 && |c| > 0 {
      ListsTransitive(a, b, c);
    }
  }

  /** The part of a version that `compare` reads. */
  predicate SamePrecedence(v: Version, w: Version) {
    v.major == w.major && v.minor == w.minor && v.patch == w.patch && v.prerelease == w.prerelease
  }

  /** `compare` is antisymmetric, transitive, and zero exactly when the
      versions agree on everything but their build metadata. */
  lemma CompareOrder(u: Version, v: Version, w: Version)
    ensures Compare(u, v) == -Compare(v, u)
    ensures Compare(u, v) == 0 <==> SamePrecedence(u, v)
    ensures Compare(u, v) == -1 && Compare(v, w) == -1 ==> Compare(u, w) == -1
    ensures Compare(u, v) <= 0 && Compare(v, w) <= 0 ==> Compare(u, w) <= 0
  {
    PrereleaseOrder(u.prerelease, v.prerelease, w.prerelease);
    PrereleaseOrder(u.prerelease, w.prerelease, w.prerelease);
    PrereleaseOrder(v.prerelease, w.prerelease, w.prerelease);
  }

  /** Build metadata never changes the result of `compare`. */
  lemma BuildIgnored(v: Version, w: Version, b: seq<string>)
    ensures Compare(v.(build := b), w) == Compare(v, w)
    ensures Compare(w, v.(build := b)) == Compare(w, v)
  {
  }

  // ---------------------------------------------------------------------------
  // Agreement with precedence as section 11 of Semantic Versioning 2.0.0
  // defines it

  predicate IdentifierPrecedes(x: Identifier, y: Identifier) {
    (x.Num? && y.Num? && x.n < y.n) || (x.Num? && y.Alpha?) || (x.Alpha? && y.Alpha? && StringLess(x.s, y.s))
  }

  /** A larger set of prerelease fields has higher precedence when all the
      preceding identifiers are equal; otherwise the first difference decides. */
  predicate ListPrecedes(a: seq<Identifier>, b: seq<Identifier>) {
    (|a| < |b| && a == b[..|a|])
    || (exists k | 0 <= k < |a| && k < |b| :: a[..k] == b[..k] && IdentifierPrecedes(a[k], b[k]))
  }

  predicate PrereleasePrecedes(a: seq<Identifier>, b: seq<Identifier>) {
    (|a| > 0 && |b| == 0) || (|a| > 0 && |b| > 0 && ListPrecedes(a, b))
  }

  predicate Precedes(v: Version, w: Version) {
    v.major < w.major
    || (v.major == w.major && v.minor < w.minor)
    || (v.major == w.major && v.minor == w.minor && v.patch < w.patch)
    || (v.major == w.major && v.minor == w.minor && v.patch == w.patch
        && PrereleasePrecedes(v.prerelease, w.prerelease))
  }

  lemma IdentifierPrecedesCompare(x: Identifier, y: Identifier)
    ensures CompareIdentifiers(x, y) == -1 <==> IdentifierPrecedes(x, y)
  {
    if x.Alpha? && y.Alpha? && StringLess(x.s, y.s) { StringLessAsymmetric(x.s, y.s); }
  }

  /** A common first identifier does not decide precedence. */
  lemma ListPrecedesTail(a: seq<Identifier>, b: seq<Identifier>)
    requires a != [] && b != [] && a[0] == b[0]
    ensures ListPrecedes(a[1..], b[1..]) ==> ListPrecedes(a, b)
  {
    if ListPrecedes(a[1..], b[1..]) {
      if |a[1..]| < |b[1..]| && a[1..] == b[1..][..|a| - 1] {
        assert a == b[..|a|];
      } else {
        var k :| 0 <= k < |a| - 1 && k < |b| - 1 && a[1..][..k] == b[1..][..k]
                 && IdentifierPrecedes(a[1..][k], b[1..][k]);
        assert a[..k + 1] == b[..k + 1];
        assert IdentifierPrecedes(a[k + 1], b[k + 1]);
      }
    }
  }

  lemma ListPrecedesUntail(a: seq<Identifier>, b: seq<Identifier>)
    requires a != [] && b != [] && a[0] == b[0]
    ensures ListPrecedes(a, b) ==> ListPrecedes(a[1..], b[1..])
  {
    if ListPrecedes(a, b) {
      if |a| < |b| && a == b[..|a|] {
        assert a[1..] == b[1..][..|a| - 1];
      } else {
        var k :| 0 <= k < |a| && k < |b| && a[..k] == b[..k] && IdentifierPrecedes(a[k], b[k]);
        IdentifierPrecedesCompare(a[k], b[k]);
        CompareIdentifiersOrder(a[k], b[k], b[k]);
        assert k > 0;
        assert a[1..][..k - 1] == b[1..][..k - 1];
        assert IdentifierPrecedes(a[1..][k - 1], b[1..][k - 1]);
      }
    }
  }

  lemma {:induction false} ListPrecedesCompare(a: seq<Identifier>, b: seq<Identifier>)
    ensures CompareIdentifierLists(a, b) == -1 <==> ListPrecedes(a, b)
  {
    if a == [] || b == [] {
      if a == [] && b != [] { assert a == b[..0]; }
    } else if a[0] == b[0] {
      ListPrecedesCompare(a[1..], b[1..]);
      ListPrecedesTail(a, b);
      ListPrecedesUntail(a, b);
    } else {
      IdentifierPrecedesCompare(a[0], b[0]);
      if IdentifierPrecedes(a[0], b[0]) {
        assert a[..0] == b[..0];
      }
    }
  }

  /** `compare` returns -1 exactly when the first version has lower
      precedence, and 1 exactly when the second one has. */
  lemma ComparePrecedes(v: Version, w: Version)
    ensures Compare(v, w) == -1 <==> Precedes(v, w)
    ensures Compare(v, w) == 1 <==> Precedes(w, v)
  {
    ListPrecedesCompare(v.prerelease, w.prerelease);
    ListPrecedesCompare(w.prerelease, v.prerelease);
    CompareOrder(v, w, w);
  }
}
