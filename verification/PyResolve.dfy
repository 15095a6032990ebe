/** PEP 440 constraints and resolution. */
module PyResolve {
  import opened Wrappers
  import opened Ordering
  import opened Sorting
  import opened PyVersions

  datatype Operator = Equal | NotEqual | Less | AtMost | Greater | AtLeast | Compatible

  /**
   One comma-separated part of a constraint, parsed: ===text, ==prefix.* or !=prefix.*, or an
   operator and a version.
   */
  datatype Clause =
    | Exactly(text: string)
    | Wildcard(negated: bool, epoch: int, prefix: seq<int>)
    | Relation(op: Operator, version: Version)

  predicate IsPrerelease(v: RawVersion) { v.hasPre || v.hasDev }

  // ----- What a clause means -----

  /** A clause without a local part does not look at the candidate's. */
  function Candidate(v: RawVersion, specified: RawVersion): RawVersion {
    if specified.local == [] then v.(local := []) else v
  }

  predicate SameRelease(a: RawVersion, b: RawVersion) {
    a.epoch == b.epoch && Trim(a.release) == Trim(b.release)
  }

  /** The release segments that ~= fixes: all but the last, and at least one. */
  function FixedSegments(minimum: Version): (n: nat)
    ensures 1 <= n <= |minimum.release|
  {
    if |minimum.release| > 1 then |minimum.release| - 1 else 1
  }

  predicate IsCompatible(v: RawVersion, minimum: Version) {
    var n := FixedSegments(minimum);
    v.epoch == minimum.epoch && |v.release| >= n && v.release[..n] == minimum.release[..n]
  }

  predicate HasPrefix(v: RawVersion, epoch: int, prefix: seq<int>) {
    v.epoch == epoch && |v.release| >= |prefix| && v.release[..|prefix|] == prefix
  }

  predicate SatisfiesRelation(v: RawVersion, op: Operator, s: Version) {
    var c := Candidate(v, s);
    match op
    case Equal => KeyOf(c) == KeyOf(s)
    case NotEqual => KeyOf(c) != KeyOf(s)
    case Less => CompareVersions(c, s) < 0 && (s.hasPre || !SameRelease(v, s) || !IsPrerelease(v))
    case AtMost => CompareVersions(c, s) <= 0
    case Greater => CompareVersions(c, s) > 0 && (s.hasPost || !SameRelease(v, s) || !v.hasPost)
    case AtLeast => CompareVersions(c, s) >= 0
    case Compatible => CompareVersions(c, s) >= 0 && IsCompatible(v, s)
  }

  predicate Satisfies(v: RawVersion, raw: string, clause: Clause) {
    match clause
    case Exactly(text) => raw == text
    case Wildcard(negated, epoch, prefix) => HasPrefix(v, epoch, prefix) != negated
    case Relation(op, s) => SatisfiesRelation(v, op, s)
  }

  predicate SatisfiesAll(v: RawVersion, raw: string, clauses: seq<Clause>) {
    forall i :: 0 <= i < |clauses| ==> Satisfies(v, raw, clauses[i])
  }

  // ----- The code that decides it -----

  method CompatiblePrefix(candidate: RawVersion, minimum: Version) returns (ok: bool)
    ensures ok == IsCompatible(candidate, minimum)
  {
    if candidate.epoch != minimum.epoch {
      return false;
    }
    var prefixLength := |minimum.release| - 1;
    if prefixLength < 1 {
      prefixLength := 1;
    }
    if |candidate.release| < prefixLength {
      return false;
    }
    for index := 0 to prefixLength
      invariant candidate.release[..index] == minimum.release[..index]
    {
      if candidate.release[index] != minimum.release[index] {
        assert candidate.release[..prefixLength][index] != minimum.release[..prefixLength][index];
        return false;
      }
    }
    return true;
  }

  method MatchesWildcard(version: RawVersion, epoch: int, prefix: seq<int>) returns (matches: bool)
    ensures matches == HasPrefix(version, epoch, prefix)
  {
    matches := version.epoch == epoch && |version.release| >= |prefix|;
    for index := 0 to |prefix|
      invariant matches ==
                (version.epoch == epoch && |version.release| >= |prefix| && version.release[..index] == prefix[..index])
    {
      if |version.release| >= |prefix| {
        assert version.release[..index + 1] == version.release[..index] + [version.release[index]];
        assert prefix[..index + 1] == prefix[..index] + [prefix[index]];
      }
      matches := matches && version.release[index] == prefix[index];
    }
    assert prefix[..|prefix|] == prefix;
  }

  method SamePublicRelease(left: RawVersion, right: RawVersion) returns (same: bool)
    ensures same == SameRelease(left, right)
  {
    var release := CompareRelease(left.release, right.release);
    IntOrder();
    LexZero<int>(CompareInt, Trim(left.release), Trim(right.release));
    same := left.epoch == right.epoch && release == 0;
  }

  method MatchesRelation(version: RawVersion, op: Operator, specified: Version) returns (ok: bool)
    ensures ok == SatisfiesRelation(version, op, specified)
  {
    var compared := Compare(Candidate(version, specified), specified);
    var samePublicRelease := SamePublicRelease(version, specified);
    assert compared == 0 <==> KeyOf(Candidate(version, specified)) == KeyOf(specified) by { VersionOrder(); }
    match op {
      case Equal =>
        return compared == 0;
      case NotEqual =>
        return compared != 0;
      case Less =>
        return !(compared >= 0 || (!specified.hasPre && samePublicRelease && (version.hasPre || version.hasDev)));
      case AtMost =>
        return !(compared > 0);
      case Greater =>
        return !(compared <= 0 || (!specified.hasPost && samePublicRelease && version.hasPost));
      case AtLeast =>
        return !(compared < 0);
      case Compatible =>
        if compared < 0 {
          return false;
        }
        ok := CompatiblePrefix(version, specified);
    }
  }

  method MatchesClauses(version: RawVersion, raw: string, clauses: seq<Clause>) returns (ok: bool)
    ensures ok == SatisfiesAll(version, raw, clauses)
  {
    for i := 0 to |clauses|
      invariant forall k :: 0 <= k < i ==> Satisfies(version, raw, clauses[k])
    {
      var satisfied;
      match clauses[i] {
        case Exactly(text) =>
          satisfied := raw == text;
        case Wildcard(negated, epoch, prefix) =>
          var matches := MatchesWildcard(version, epoch, prefix);
          satisfied := !negated == matches;
        case Relation(op, specified) =>
          satisfied := MatchesRelation(version, op, specified);
      }
      if !satisfied {
        return false;
      }
    }
    return true;
  }

  // ----- Resolution -----

  type Parser = string -> Option<Version>

  /** An available version that parses and satisfies every clause. */
  predicate Matching(parse: Parser, clauses: seq<Clause>, raw: string) {
    parse(raw).Some? && SatisfiesAll(parse(raw).value, raw, clauses)
  }

  predicate Stable(parse: Parser, raw: string) {
    parse(raw).Some? && !IsPrerelease(parse(raw).value)
  }

  /** Set by parseConstraint when some clause names a prerelease. */
  predicate PermitsPrerelease(clauses: seq<Clause>) {
    exists i :: 0 <= i < |clauses| && clauses[i].Relation? && IsPrerelease(clauses[i].version)
  }

  predicate IsArbitrary(clauses: seq<Clause>) { |clauses| == 1 && clauses[0].Exactly? }

  predicate SomeStable(parse: Parser, clauses: seq<Clause>, available: set<string>) {
    exists raw :: raw in available && Matching(parse, clauses, raw) && Stable(parse, raw)
  }

  /** The versions that resolution chooses among: prereleases count only if permitted, or if nothing stable matches. */
  predicate Eligible(parse: Parser, clauses: seq<Clause>, available: set<string>, raw: string) {
    && raw in available && Matching(parse, clauses, raw)
    && (PermitsPrerelease(clauses) || Stable(parse, raw) || !SomeStable(parse, clauses, available))
  }

  /** A highest eligible version. */
  ghost predicate IsResolution(parse: Parser, clauses: seq<Clause>, available: set<string>, chosen: string) {
    && Eligible(parse, clauses, available, chosen)
    && forall raw :: Eligible(parse, clauses, available, raw) ==>
       CompareVersions(parse(raw).value, parse(chosen).value) <= 0
  }

  function ComparePair(a: (string, Version), b: (string, Version)): int { CompareVersions(a.1, b.1) }

  lemma PairOrder()
    ensures TotalPreorder(ComparePair)
  {
    VersionOrder();
    forall a: (string, Version), b: (string, Version), c: (string, Version) | ComparePair(a, b) <= 0
      && ComparePair(b, c) <= 0
      ensures ComparePair(a, c) <= 0
    {
      assert CompareVersions(a.1, b.1) <= 0 && CompareVersions(b.1, c.1) <= 0;
    }
  }

  /** Candidates in the order the code collects them. */
  ghost predicate Collected(parse: Parser, clauses: seq<Clause>, seen: seq<string>, stable: bool,
                            found: seq<(string, Version)>) {
    && (forall c :: c in found ==>
          c.0 in seen && Matching(parse, clauses, c.0) && parse(c.0) == Some(c.1) && Stable(parse, c.0) == stable)
    && (forall raw :: raw in seen && Matching(parse, clauses, raw) && Stable(parse, raw) == stable ==>
          (raw, parse(raw).value) in found)
  }

  lemma SortedLastIsGreatest(found: seq<(string, Version)>)
    requires found != []
    ensures var sorted := Sort(ComparePair, found);
            && |sorted| == |found| && sorted[|sorted| - 1] in found
            && forall c :: c in found ==> CompareVersions(c.1, sorted[|sorted| - 1].1) <= 0
  {
    PairOrder();
    LastIsGreatest(ComparePair, found);
  }

  /** The loop that sorts the matching versions into stable and prerelease ones. */
  method Collect(parse: Parser, clauses: seq<Clause>, available: seq<string>)
      returns (stable: seq<(string, Version)>, prerelease: seq<(string, Version)>)
    ensures Collected(parse, clauses, available, true, stable)
            && Collected(parse, clauses, available, false, prerelease)
  {
    stable, prerelease := [], [];
    for i := 0 to |available|
      invariant Collected(parse, clauses, available[..i], true, stable)
      invariant Collected(parse, clauses, available[..i], false, prerelease)
    {
      var raw := available[i];
      assert available[..i + 1] == available[..i] + [raw];
      var version := parse(raw);
      if version.Some? {
        var matches := MatchesClauses(version.value, raw, clauses);
        if matches {
          if version.value.hasPre || version.value.hasDev {
            prerelease := prerelease + [(raw, version.value)];
          } else {
            stable := stable + [(raw, version.value)];
          }
        }
      }
    }
    assert available[..|available|] == available;
  }

  method FindText(text: string, available: seq<string>) returns (found: Option<string>)
    ensures found == if text in available then Some(text) else None
  {
    for i := 0 to |available|
      invariant text !in available[..i]
    {
      if available[i] == text {
        return Some(available[i]);
      }
    }
    return None;
  }

  /** The candidates are exactly the eligible pool. */
  ghost predicate IsPool(parse: Parser, clauses: seq<Clause>, available: set<string>,
                         candidates: seq<(string, Version)>)
  {
    && (forall c :: c in candidates ==> parse(c.0) == Some(c.1) && Eligible(parse, clauses, available, c.0))
    && (forall raw :: Eligible(parse, clauses, available, raw) ==> (raw, parse(raw).value) in candidates)
  }

  lemma Pooled(parse: Parser, clauses: seq<Clause>, available: seq<string>, stable: seq<(string, Version)>,
               prerelease: seq<(string, Version)>, candidates: seq<(string, Version)>)
    requires Collected(parse, clauses, available, true, stable)
    requires Collected(parse, clauses, available, false, prerelease)
    requires candidates == if PermitsPrerelease(clauses) || stable == [] then stable + prerelease else stable
    ensures IsPool(parse, clauses, Elements(available), candidates)
  {
    var pool := Elements(available);
    assert forall raw :: raw in pool <==> raw in available;
    assert SomeStable(parse, clauses, pool) <==> stable != [] by {
      if stable != [] {
        assert stable[0] in stable;
      }
    }
    forall c | c in candidates ensures parse(c.0) == Some(c.1) && Eligible(parse, clauses, pool, c.0) {
      assert c in stable || c in prerelease;
    }
  }

  /** If anything matches then something is eligible. */
  lemma MatchingMeansEligible(parse: Parser, clauses: seq<Clause>, available: set<string>, raw: string)
      returns (e: string)
    requires raw in available && Matching(parse, clauses, raw)
    ensures Eligible(parse, clauses, available, e)
  {
    if SomeStable(parse, clauses, available) {
      e :| e in available && Matching(parse, clauses, e) && Stable(parse, e);
    } else {
      e := raw;
    }
  }

  lemma EmptyPool(parse: Parser, clauses: seq<Clause>, available: seq<string>)
    requires IsPool(parse, clauses, Elements(available), [])
    ensures forall raw :: raw in available ==> !Matching(parse, clauses, raw)
  {
    forall raw | raw in available ensures !Matching(parse, clauses, raw) {
      if Matching(parse, clauses, raw) {
        var e := MatchingMeansEligible(parse, clauses, Elements(available), raw);
        assert false;
      }
    }
  }

  lemma BestOfPool(parse: Parser, clauses: seq<Clause>, available: set<string>, candidates: seq<(string, Version)>,
                   best: (string, Version))
    requires IsPool(parse, clauses, available, candidates) && best in candidates
    requires forall c :: c in candidates ==> CompareVersions(c.1, best.1) <= 0
    ensures IsResolution(parse, clauses, available, best.0)
  {
  }

  /** The last candidate after sorting. */
  method PickHighest(candidates: seq<(string, Version)>) returns (best: (string, Version))
    requires candidates != []
    ensures best in candidates && forall c :: c in candidates ==> CompareVersions(c.1, best.1) <= 0
  {
    SortedLastIsGreatest(candidates);
    var sorted := Sort(ComparePair, candidates);
    best := sorted[|sorted| - 1];
  }

  method ResolveVersion(parse: Parser, clauses: seq<Clause>, available: seq<string>) returns (chosen: Option<string>)
    ensures IsArbitrary(clauses) ==> chosen == if clauses[0].text in available then Some(clauses[0].text) else None
    ensures !IsArbitrary(clauses) ==>
            (chosen.None? <==> forall raw :: raw in available ==> !Matching(parse, clauses, raw))
    ensures !IsArbitrary(clauses) && chosen.Some? ==> IsResolution(parse, clauses, Elements(available), chosen.value)
  {
    if IsArbitrary(clauses) {
      chosen := FindText(clauses[0].text, available);
      return;
    }
    var stable, prerelease := Collect(parse, clauses, available);
    var candidates := stable;
    if PermitsPrerelease(clauses) || |candidates| == 0 {
      candidates := candidates + prerelease;
    }
    assert IsPool(parse, clauses, Elements(available), candidates) by {
      Pooled(parse, clauses, available, stable, prerelease, candidates);
    }
    if |candidates| == 0 {
      EmptyPool(parse, clauses, available);
      return None;
    }
    var best := PickHighest(candidates);
    BestOfPool(parse, clauses, Elements(available), candidates, best);
    chosen := Some(best.0);
  }

  /** Two answers for the same clauses and the same available versions, in any order, compare equal. */
  lemma ResolutionUnique(parse: Parser, clauses: seq<Clause>, available: seq<string>, reordered: seq<string>,
                         a: string, b: string)
    requires Elements(available) == Elements(reordered)
    requires IsResolution(parse, clauses, Elements(available), a)
             && IsResolution(parse, clauses, Elements(reordered), b)
    ensures CompareVersions(parse(a).value, parse(b).value) == 0
  {
    VersionOrder();
    assert CompareVersions(parse(b).value, parse(a).value) <= 0 && CompareVersions(parse(a).value, parse(b).value) <= 0;
  }

  // ----- What the operators mean -----

  /**
   Each operator in terms of PEP 440's order alone. A clause that names no local part drops the
   candidate's; < shuts out prereleases of the named release unless it names a prerelease itself, and
   > shuts out its post-releases likewise.
   */
  lemma RelationMeaning(v: RawVersion, op: Operator, s: Version)
    ensures var c := if s.local == [] then v.(local := []) else v;
            var sameBase := v.epoch == s.epoch && EqualRelease(v.release, s.release);
            SatisfiesRelation(v, op, s) <==>
              match op
              case Equal => !Precedes(c, s) && !Precedes(s, c)
              case NotEqual => Precedes(c, s) || Precedes(s, c)
              case AtMost => !Precedes(s, c)
              case AtLeast => !Precedes(c, s)
              case Less => Precedes(c, s) && !(sameBase && (v.hasPre || v.hasDev) && !s.hasPre)
              case Greater => Precedes(s, c) && !(sameBase && v.hasPost && !s.hasPost)
              case Compatible =>
                && !Precedes(c, s) && v.epoch == s.epoch
                && (if |s.release| == 1 then v.release != [] && v.release[0] == s.release[0]
                    else |v.release| >= |s.release| - 1 && forall i :: 0 <= i < |s.release| - 1 ==>
                         v.release[i] == s.release[i])
  {
    ComparesByPrecedence(Candidate(v, s), s);
    SameKey(Candidate(v, s), s);
    SameTrim(v.release, s.release);
    FixedAgree(v, s);
  }

  lemma SameKey(a: RawVersion, b: RawVersion)
    ensures KeyOf(a) == KeyOf(b) <==> CompareVersions(a, b) == 0
  {
    VersionOrder();
  }

  lemma SameTrim(a: seq<nat>, b: seq<nat>)
    ensures Trim(a) == Trim(b) <==> EqualRelease(a, b)
  {
    ReleaseMeaning(a, b);
    IntOrder();
    LexZero<int>(CompareInt, Trim(a), Trim(b));
  }

  lemma FixedAgree(v: RawVersion, s: Version)
    ensures IsCompatible(v, s) <==>
            v.epoch == s.epoch && |v.release| >= FixedSegments(s)
            && forall i :: 0 <= i < FixedSegments(s) ==> v.release[i] == s.release[i]
  {
    var n := FixedSegments(s);
    if IsCompatible(v, s) {
      forall i | 0 <= i < n ensures v.release[i] == s.release[i] {
        assert v.release[..n][i] == s.release[..n][i];
      }
    }
  }

  /** A stable version is chosen if one matches, unless a clause names a prerelease. */
  lemma StableIsPreferred(parse: Parser, clauses: seq<Clause>, available: set<string>, chosen: string, stable: string)
    requires IsResolution(parse, clauses, available, chosen)
    requires stable in available && Matching(parse, clauses, stable) && Stable(parse, stable)
    requires forall i :: 0 <= i < |clauses| && clauses[i].Relation? ==>
             !clauses[i].version.hasPre && !clauses[i].version.hasDev
    ensures !parse(chosen).value.hasPre && !parse(chosen).value.hasDev
    ensures !Precedes(parse(chosen).value, parse(stable).value)
  {
    ComparesByPrecedence(parse(stable).value, parse(chosen).value);
    assert Eligible(parse, clauses, available, stable);
  }

  // ----- Prefix matching without padding -----

  /** Prefix matching as PEP 440 has it, with a short release padded by zeros. */
  predicate HasPaddedPrefix(v: RawVersion, epoch: int, prefix: seq<int>) {
    v.epoch == epoch && forall i :: 0 <= i < |prefix| ==> At(v.release, i) == prefix[i]
  }

  /** The releases that the code misses: shorter than the prefix, and different from it only by zeros. */
  predicate ShortByZeros(v: RawVersion, epoch: int, prefix: seq<int>) {
    && v.epoch == epoch && |v.release| < |prefix| && v.release == prefix[..|v.release|]
    && forall i :: |v.release| <= i < |prefix| ==> prefix[i] == 0
  }

  /** The code's prefix match is the padded one exactly when the release is not short by zeros. */
  lemma PrefixMatchIsPadded(v: RawVersion, epoch: int, prefix: seq<int>)
    ensures (HasPrefix(v, epoch, prefix) <==> HasPaddedPrefix(v, epoch, prefix)) <==> !ShortByZeros(v, epoch, prefix)
  {
    if |v.release| >= |prefix| {
      assert HasPaddedPrefix(v, epoch, prefix) ==> v.release[..|prefix|] == prefix;
      assert HasPrefix(v, epoch, prefix) ==> forall i :: 0 <= i < |prefix| ==> v.release[..|prefix|][i] == prefix[i];
    } else if HasPaddedPrefix(v, epoch, prefix) {
      forall i | 0 <= i < |v.release| ensures v.release[i] == prefix[..|v.release|][i] {
        assert At(v.release, i) == prefix[i];
      }
      forall i | |v.release| <= i < |prefix| ensures prefix[i] == 0 {
        assert At(v.release, i) == prefix[i];
      }
    }
  }

  /**
   What ~= fixes is matched the same way, so it too is the padded match exactly when the release
   is not short by zeros.
   */
  lemma CompatibleMatchIsPadded(v: RawVersion, minimum: Version)
    ensures var fixed := minimum.release[..FixedSegments(minimum)];
            (IsCompatible(v, minimum) <==> HasPaddedPrefix(v, minimum.epoch, fixed)) <==>
              !ShortByZeros(v, minimum.epoch, fixed)
  {
    PrefixMatchIsPadded(v, minimum.epoch, minimum.release[..FixedSegments(minimum)]);
  }

  /** For one, release 1 does not match the prefix 1.0. */
  lemma MissedByPrefixMatch()
    ensures var v := RawVersion(0, [1], false, 0, 0, false, 0, false, 0, []);
            HasPaddedPrefix(v, 0, [1, 0]) && !HasPrefix(v, 0, [1, 0])
  {
    var v := RawVersion(0, [1], false, 0, 0, false, 0, false, 0, []);
    assert At(v.release, 0) == 1 && At(v.release, 1) == 0;
  }
}
