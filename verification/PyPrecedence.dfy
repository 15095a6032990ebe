/** The ladder of PEP 440. */
module PyPrecedence {
  // What "Summary of permitted suffixes and relative ordering" of PEP 440 promises of
  // Version.Compare, as laws about the fields of the two versions.

  import opened Wrappers
  import opened Ordering
  import opened PyVersions

  /** Same epoch and, padded with zeros, the same release: only the suffixes differ. */
  ghost predicate SameBase(a: RawVersion, b: RawVersion) {
    a.epoch == b.epoch && EqualRelease(a.release, b.release)
  }

  ghost predicate Below(a: RawVersion, b: RawVersion) { CompareVersions(a, b) < 0 }

  /** A higher epoch beats everything, and within an epoch a higher release beats every suffix. */
  lemma EpochThenRelease(a: RawVersion, b: RawVersion, i: nat)
    requires a.epoch < b.epoch ||
             (a.epoch == b.epoch && At(a.release, i) < At(b.release, i)
              && forall j :: 0 <= j < i ==> At(a.release, j) == At(b.release, j))
    ensures Below(a, b)
  {
    ComparesByPrecedence(a, b);
    if a.epoch == b.epoch {
      assert LowerAt(a.release, b.release, i);
    }
  }

  // ----- The rungs -----

  predicate IsFinal(v: RawVersion) { !v.hasDev && !v.hasPre && !v.hasPost }
  predicate IsPostRelease(v: RawVersion) { v.hasPost && !v.hasPre }

  /**
   Development releases, then alphas (kind 0), betas (kind 1) and candidates (kind 2), then the
   final release, then post-releases: a lower rung is a lower version, whatever the numbers.
   */
  lemma RungsAscend(a: RawVersion, b: RawVersion)
    requires SameBase(a, b)
    ensures DevOfFinal(a) && (b.hasPre || IsFinal(b) || IsPostRelease(b)) ==> Below(a, b)
    ensures a.hasPre && b.hasPre && a.preKind < b.preKind ==> Below(a, b)
    ensures a.hasPre && (IsFinal(b) || IsPostRelease(b)) ==> Below(a, b)
    ensures IsFinal(a) && IsPostRelease(b) ==> Below(a, b)
    ensures DevOfFinal(a) && DevOfFinal(b) && a.devNum < b.devNum ==> Below(a, b)
    ensures IsFinal(a) && IsFinal(b) && a.local == [] && b.local != [] ==> Below(a, b)
  {
    ComparesByPrecedence(a, b);
    assert a.local == [] && b.local != [] ==> LowerLocalAt(a.local, b.local, 0);
  }

  /** Pre-releases of one kind go by number first, and the post and dev parts decide last. */
  lemma WithinPreReleases(a: RawVersion, b: RawVersion)
    requires SameBase(a, b) && a.hasPre && b.hasPre && a.preKind == b.preKind
    ensures a.preNum < b.preNum ==> Below(a, b)
    ensures a.preNum == b.preNum ==>
              && (!a.hasPost && b.hasPost ==> Below(a, b))
              && (a.hasPost && b.hasPost && a.postNum < b.postNum ==> Below(a, b))
              && (!a.hasPost && !b.hasPost && a.hasDev && !b.hasDev ==> Below(a, b))
              && (!a.hasPost && !b.hasPost && a.hasDev && b.hasDev && a.devNum < b.devNum ==> Below(a, b))
  {
    ComparesByPrecedence(a, b);
  }

  /** Post-releases go by number, and a development release of one comes before it. */
  lemma WithinPostReleases(a: RawVersion, b: RawVersion)
    requires SameBase(a, b) && IsPostRelease(a) && IsPostRelease(b)
    ensures a.postNum < b.postNum ==> Below(a, b)
    ensures a.postNum == b.postNum && a.hasDev && (b.hasDev ==> a.devNum < b.devNum) ==> Below(a, b)
  {
    ComparesByPrecedence(a, b);
  }

  /** Two versions that agree up to the local part: its first difference decides, with numbers above texts. */
  lemma LocalDecides(a: RawVersion, b: RawVersion, i: nat)
    requires SameBase(a, b) && b == a.(release := b.release, local := b.local)
    requires i < |a.local| && i < |b.local| && a.local[..i] == b.local[..i]
    ensures Atoi(a.local[i]).None? && Atoi(b.local[i]).Some? ==> Below(a, b)
    ensures Atoi(a.local[i]).Some? && Atoi(b.local[i]).Some? && Atoi(a.local[i]).value < Atoi(b.local[i]).value ==>
              Below(a, b)
    ensures Atoi(a.local[i]).None? && Atoi(b.local[i]).None? && InDictionaryOrder(a.local[i], b.local[i]) ==>
              Below(a, b)
  {
    ComparesByPrecedence(a, b);
    forall j | 0 <= j < i ensures SamePart(a.local[j], b.local[j]) {
      assert a.local[..i][j] == b.local[..i][j];
    }
    assert LowerPart(a.local[i], b.local[i]) ==> LowerLocalAt(a.local, b.local, i);
  }

  // ----- The summary as one list -----

  /** Version e!r with the given suffixes; a pre-release is a kind and a number. */
  function V(e: nat, r: seq<nat>, pre: Option<(nat, nat)>, post: Option<nat>, dev: Option<nat>, local: seq<string>)
      : RawVersion
  {
    RawVersion(e, r, pre.Some?, if pre.Some? then pre.value.0 else 0, if pre.Some? then pre.value.1 else 0,
               post.Some?, if post.Some? then post.value else 0,
               dev.Some?, if dev.Some? then dev.value else 0, local)
  }

  ghost predicate Ascending(vs: seq<RawVersion>) {
    forall i, j {:trigger Below(vs[i], vs[j])} :: 0 <= i < j < |vs| ==> Below(vs[i], vs[j])
  }

  lemma BelowIsTransitive(a: RawVersion, b: RawVersion, c: RawVersion)
    requires Below(a, b) && Below(b, c)
    ensures Below(a, c)
  {
    VersionOrder();
    assert CompareVersions(b, c) <= 0 && CompareVersions(c, b) > 0;
    assert CompareVersions(c, a) <= 0 ==> CompareVersions(c, b) <= 0;
  }

  /** Two ascending lists that join upwards. */
  lemma JoinAscending(s: seq<RawVersion>, t: seq<RawVersion>)
    requires Ascending(s) && Ascending(t) && s != [] && t != [] && Below(s[|s| - 1], t[0])
    ensures Ascending(s + t)
  {
    forall i, j | 0 <= i < |s| && 0 <= j < |t| ensures Below(s[i], t[j]) {
      if i < |s| - 1 {
        BelowIsTransitive(s[i], s[|s| - 1], t[0]);
      }
      if j > 0 {
        BelowIsTransitive(s[i], t[0], t[j]);
      }
    }
  }

  lemma PairAscends(a: RawVersion, b: RawVersion)
    requires Below(a, b)
    ensures Ascending([a, b])
  {
  }

  /** One pre-release kind: numbers n < m, each with its development and post-releases. */
  function KindRungs(e: nat, r: seq<nat>, k: nat, n: nat, m: nat, d: nat, p: nat): seq<RawVersion> {
    [V(e, r, Some((k, n)), None, Some(d), []), V(e, r, Some((k, n)), None, None, [])]
    + [V(e, r, Some((k, n)), Some(p), Some(d), []), V(e, r, Some((k, n)), Some(p), None, [])]
    + [V(e, r, Some((k, m)), None, Some(d), []), V(e, r, Some((k, m)), None, None, [])]
  }

  /** The final release and its post-releases p < p2, with and without a local part. */
  function FinalRungs(e: nat, r: seq<nat>, d: nat, p: nat, p2: nat, local: seq<string>): seq<RawVersion> {
    [V(e, r, None, None, None, []), V(e, r, None, None, None, local)]
    + [V(e, r, None, Some(p), Some(d), []), V(e, r, None, Some(p), None, [])]
    + [V(e, r, None, Some(p), None, local), V(e, r, None, Some(p2), Some(d), [])]
  }

  /** Development releases d < d2 of the final release, and the kinds of pre-release after them. */
  function PreRungs(e: nat, r: seq<nat>, d: nat, d2: nat, n: nat, m: nat, p: nat, kinds: nat): seq<RawVersion> {
    if kinds == 0 then [V(e, r, None, None, Some(d), []), V(e, r, None, None, Some(d2), [])]
    else PreRungs(e, r, d, d2, n, m, p, kinds - 1) + KindRungs(e, r, kinds - 1, n, m, d, p)
  }

  /** One release in every shape, as PEP 440 lists them: three kinds of pre-release. */
  function Ladder(e: nat, r: seq<nat>, d: nat, d2: nat, n: nat, m: nat, p: nat, p2: nat, local: seq<string>)
      : seq<RawVersion>
  {
    PreRungs(e, r, d, d2, n, m, p, 3) + FinalRungs(e, r, d, p, p2, local)
  }

  lemma KindAscends(e: nat, r: seq<nat>, k: nat, n: nat, m: nat, d: nat, p: nat)
    requires n < m
    ensures Ascending(KindRungs(e, r, k, n, m, d, p))
  {
    var dev, plain := V(e, r, Some((k, n)), None, Some(d), []), V(e, r, Some((k, n)), None, None, []);
    var postDev, post := V(e, r, Some((k, n)), Some(p), Some(d), []), V(e, r, Some((k, n)), Some(p), None, []);
    var nextDev, next := V(e, r, Some((k, m)), None, Some(d), []), V(e, r, Some((k, m)), None, None, []);
    WithinPreReleases(dev, plain);
    WithinPreReleases(plain, postDev);
    ComparesByPrecedence(postDev, post);
    assert EqualRelease(postDev.release, post.release);
    WithinPreReleases(post, nextDev);
    WithinPreReleases(nextDev, next);
    PairAscends(dev, plain);
    PairAscends(postDev, post);
    PairAscends(nextDev, next);
    JoinAscending([dev, plain], [postDev, post]);
    JoinAscending([dev, plain] + [postDev, post], [nextDev, next]);
  }

  lemma FinalAscends(e: nat, r: seq<nat>, d: nat, p: nat, p2: nat, local: seq<string>)
    requires p < p2 && local != []
    ensures Ascending(FinalRungs(e, r, d, p, p2, local))
  {
    var final, built := V(e, r, None, None, None, []), V(e, r, None, None, None, local);
    var postDev, post := V(e, r, None, Some(p), Some(d), []), V(e, r, None, Some(p), None, []);
    var postBuilt, next := V(e, r, None, Some(p), None, local), V(e, r, None, Some(p2), Some(d), []);
    RungsAscend(final, built);
    RungsAscend(built, postDev);
    WithinPostReleases(postDev, post);
    ComparesByPrecedence(post, postBuilt);
    assert EqualRelease(post.release, postBuilt.release) && LowerLocalAt([], local, 0);
    WithinPostReleases(postBuilt, next);
    PairAscends(final, built);
    PairAscends(postDev, post);
    PairAscends(postBuilt, next);
    JoinAscending([final, built], [postDev, post]);
    JoinAscending([final, built] + [postDev, post], [postBuilt, next]);
  }

  /** The last version before the next kind. */
  function LastOf(e: nat, r: seq<nat>, d2: nat, m: nat, kinds: nat): RawVersion {
    if kinds == 0 then V(e, r, None, None, Some(d2), []) else V(e, r, Some((kinds - 1, m)), None, None, [])
  }

  lemma KindFollows(e: nat, r: seq<nat>, d: nat, d2: nat, n: nat, m: nat, kinds: nat)
    ensures Below(LastOf(e, r, d2, m, kinds), V(e, r, Some((kinds, n)), None, Some(d), []))
  {
    RungsAscend(LastOf(e, r, d2, m, kinds), V(e, r, Some((kinds, n)), None, Some(d), []));
  }

  ghost predicate EndsWith(vs: seq<RawVersion>, last: RawVersion) {
    Ascending(vs) && vs != [] && vs[|vs| - 1] == last
  }

  /** A list that ends before one kind goes on with it. */
  lemma JoinKind(s: seq<RawVersion>, e: nat, r: seq<nat>, k: nat, d2: nat, n: nat, m: nat, d: nat, p: nat)
    requires n < m && EndsWith(s, LastOf(e, r, d2, m, k))
    ensures EndsWith(s + KindRungs(e, r, k, n, m, d, p), LastOf(e, r, d2, m, k + 1))
  {
    KindFollows(e, r, d, d2, n, m, k);
    KindAscends(e, r, k, n, m, d, p);
    JoinAscending(s, KindRungs(e, r, k, n, m, d, p));
  }

  lemma DevsAscend(e: nat, r: seq<nat>, d: nat, d2: nat)
    requires d < d2
    ensures Ascending([V(e, r, None, None, Some(d), []), V(e, r, None, None, Some(d2), [])])
  {
    var dev, dev2 := V(e, r, None, None, Some(d), []), V(e, r, None, None, Some(d2), []);
    RungsAscend(dev, dev2);
    PairAscends(dev, dev2);
  }

  lemma {:induction false} PreRungsAscend(e: nat, r: seq<nat>, d: nat, d2: nat, n: nat, m: nat, p: nat, kinds: nat)
    requires d < d2 && n < m
    ensures EndsWith(PreRungs(e, r, d, d2, n, m, p, kinds), LastOf(e, r, d2, m, kinds))
  {
    if kinds == 0 {
      DevsAscend(e, r, d, d2);
    } else {
      PreRungsAscend(e, r, d, d2, n, m, p, kinds - 1);
      JoinKind(PreRungs(e, r, d, d2, n, m, p, kinds - 1), e, r, kinds - 1, d2, n, m, d, p);
    }
  }

  /** The whole ladder ascends, for every epoch, release and numbers that grow along it. */
  lemma SuffixLadder(e: nat, r: seq<nat>, d: nat, d2: nat, n: nat, m: nat, p: nat, p2: nat, local: seq<string>)
    requires d < d2 && n < m && p < p2 && local != []
    ensures Ascending(Ladder(e, r, d, d2, n, m, p, p2, local))
  {
    PreRungsAscend(e, r, d, d2, n, m, p, 3);
    FinalAscends(e, r, d, p, p2, local);
    var s, t := PreRungs(e, r, d, d2, n, m, p, 3), FinalRungs(e, r, d, p, p2, local);
    RungsAscend(s[|s| - 1], t[0]);
    JoinAscending(s, t);
  }
}
