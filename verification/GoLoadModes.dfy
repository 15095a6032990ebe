/** Load modes as the least fixed point of the pruning rules. */
module GoLoadModes {
  import opened Ordering
  import opened Sorting
  import opened GoModules

  datatype Mode = Direct | Full

  /** A coordinate without a mode is not loaded. */
  type Modes = map<Coordinate, Mode>

  function Rank(modes: Modes, c: Coordinate): nat {
    if c !in modes then 0 else if modes[c].Direct? then 1 else 2
  }

  /** What selection uses of a module's metadata, with requirements as a set. */
  datatype Facts = Facts(prunes: bool, needs: set<Coordinate>)

  type Cache = map<Coordinate, Facts>

  function FactsOf(sv: Semver, metadata: Metadata): Facts {
    Facts(Prunes(sv, metadata.goVersion), Elements(metadata.requirements))
  }

  function CacheOf(sv: Semver, metadata: map<Coordinate, Metadata>): Cache {
    map c | c in metadata :: FactsOf(sv, metadata[c])
  }

  // ----- The pruning rules -----

  /** The requirements of fully loaded modules, and of loaded modules from before pruning, are fully loaded. */
  predicate Expands(modes: Modes, cache: Cache, c: Coordinate)
    requires c in cache
  {
    Rank(modes, c) == 2 || (Rank(modes, c) > 0 && !cache[c].prunes)
  }

  /** A cached module from before pruning that the roots do not name is fully loaded. */
  predicate RuleOk(from: Modes, modes: Modes, cache: Cache, c: Coordinate)
    requires c in cache
  {
    && (Rank(from, c) == 0 && !cache[c].prunes ==> Rank(modes, c) == 2)
    && (Expands(modes, cache, c) ==> forall d :: d in cache[c].needs ==> Rank(modes, d) == 2)
  }

  ghost predicate Above(low: Modes, high: Modes) {
    forall c {:trigger Rank(low, c)} {:trigger Rank(high, c)} :: Rank(low, c) <= Rank(high, c)
  }

  ghost predicate Closed(from: Modes, modes: Modes, cache: Cache) {
    Above(from, modes) && forall c {:trigger RuleOk(from, modes, cache, c)} :: c in cache ==>
      RuleOk(from, modes, cache, c)
  }

  ghost predicate Forced(from: Modes, cache: Cache, c: Coordinate) {
    forall modes {:trigger Closed(from, modes, cache)} :: Closed(from, modes, cache) ==> Rank(modes, c) == 2
  }

  function Touched(cache: Cache): set<Coordinate> {
    cache.Keys + set c, d | c in cache && d in cache[c].needs :: d
  }

  /** The modes that every closed map above the given one must have. */
  ghost function LeastModes(from: Modes, cache: Cache): Modes {
    map c | c in from.Keys + Touched(cache) && (c in from || Forced(from, cache, c)) ::
      if Forced(from, cache, c) then Full else from[c]
  }

  lemma EverythingFull(from: Modes, cache: Cache)
    ensures Closed(from, map c | c in from.Keys + Touched(cache) :: Full, cache)
  {
    var all: Modes := map c | c in from.Keys + Touched(cache) :: Full;
    forall c {:trigger RuleOk(from, all, cache, c)} | c in cache ensures RuleOk(from, all, cache, c) {
      assert forall d :: d in cache[c].needs ==> d in Touched(cache);
    }
  }

  lemma LeastRank(from: Modes, cache: Cache, c: Coordinate)
    ensures Rank(LeastModes(from, cache), c) == if Forced(from, cache, c) then 2 else Rank(from, c)
  {
    if Forced(from, cache, c) {
      EverythingFull(from, cache);
    }
  }

  lemma RuleForces(from: Modes, cache: Cache, c: Coordinate)
    requires c in cache
    ensures RuleOk(from, LeastModes(from, cache), cache, c)
  {
    var least := LeastModes(from, cache);
    LeastRank(from, cache, c);
    if Rank(from, c) == 0 && !cache[c].prunes {
      forall modes {:trigger Closed(from, modes, cache)} | Closed(from, modes, cache) ensures Rank(modes, c) == 2 {
        assert RuleOk(from, modes, cache, c);
      }
    }
    if Expands(least, cache, c) {
      forall d | d in cache[c].needs ensures Rank(least, d) == 2 {
        forall modes {:trigger Closed(from, modes, cache)} | Closed(from, modes, cache) ensures Rank(modes, d) == 2 {
          assert Rank(from, c) <= Rank(modes, c);
          assert RuleOk(from, modes, cache, c);
          assert Expands(modes, cache, c);
        }
        LeastRank(from, cache, d);
      }
    }
  }

  /** LeastModes is closed under the pruning rules, and below every closed map above its input. */
  lemma LeastIsLeast(from: Modes, cache: Cache)
    ensures Closed(from, LeastModes(from, cache), cache)
    ensures forall modes {:trigger Closed(from, modes, cache)} :: Closed(from, modes, cache) ==>
            Above(LeastModes(from, cache), modes)
  {
    var least := LeastModes(from, cache);
    forall c ensures Rank(from, c) <= Rank(least, c) { LeastRank(from, cache, c); }
    forall c {:trigger RuleOk(from, least, cache, c)} | c in cache
      ensures RuleOk(from, least, cache, c) { RuleForces(from, cache, c); }
    forall modes {:trigger Closed(from, modes, cache)} | Closed(from, modes, cache) ensures Above(least, modes) {
      forall c ensures Rank(least, c) <= Rank(modes, c) { LeastRank(from, cache, c); }
    }
  }

  lemma SameRanksSameModes(a: Modes, b: Modes)
    requires Above(a, b) && Above(b, a)
    ensures a == b
  {
    forall c ensures c in a <==> c in b { assert Rank(a, c) == Rank(b, c); }
    forall c | c in a ensures a[c] == b[c] { assert Rank(a, c) == Rank(b, c); }
  }

  /** Each coordinate has its first mode, or was fully loaded because the rules demand it. */
  ghost predicate Sound(from: Modes, modes: Modes, cache: Cache) {
    forall c {:trigger Rank(modes, c)} ::
      Rank(modes, c) == Rank(from, c) || (Rank(modes, c) == 2 && Rank(LeastModes(from, cache), c) == 2)
  }

  lemma ClosedAndSound(from: Modes, modes: Modes, cache: Cache)
    requires Sound(from, modes, cache) && Closed(from, modes, cache)
    ensures modes == LeastModes(from, cache)
  {
    LeastIsLeast(from, cache);
    forall c ensures Rank(modes, c) <= Rank(LeastModes(from, cache), c) {
      assert Rank(from, c) <= Rank(LeastModes(from, cache), c);
    }
    SameRanksSameModes(modes, LeastModes(from, cache));
  }

  // ----- Growing caches -----

  ghost predicate Extends(small: Cache, large: Cache) {
    forall c :: c in small ==> c in large && large[c] == small[c]
  }

  lemma ClosedOnLess(from: Modes, modes: Modes, small: Cache, large: Cache)
    requires Extends(small, large) && Closed(from, modes, large)
    ensures Closed(from, modes, small)
  {
    forall c {:trigger RuleOk(from, modes, small, c)} | c in small ensures RuleOk(from, modes, small, c) {
      assert RuleOk(from, modes, large, c);
    }
  }

  lemma MoreCacheMoreModes(from: Modes, small: Cache, large: Cache)
    requires Extends(small, large)
    ensures Above(LeastModes(from, small), LeastModes(from, large))
  {
    LeastIsLeast(from, small);
    LeastIsLeast(from, large);
    ClosedOnLess(from, LeastModes(from, large), small, large);
  }

  /** Starting over or starting from the modes of a smaller cache leaves the same closed maps. */
  lemma SameClosed(from: Modes, modes: Modes, small: Cache, large: Cache)
    requires Extends(small, large)
    ensures Closed(from, modes, large) <==> Closed(LeastModes(from, small), modes, large)
  {
    var mid := LeastModes(from, small);
    LeastIsLeast(from, small);
    if Closed(from, modes, large) {
      ClosedOnLess(from, modes, small, large);
      forall c {:trigger RuleOk(mid, modes, large, c)} | c in large ensures RuleOk(mid, modes, large, c) {
        assert RuleOk(from, modes, large, c) && Rank(from, c) <= Rank(mid, c);
      }
    }
    if Closed(mid, modes, large) {
      forall c ensures Rank(from, c) <= Rank(modes, c) { assert Rank(from, c) <= Rank(mid, c) <= Rank(modes, c); }
      forall c {:trigger RuleOk(from, modes, large, c)} | c in large ensures RuleOk(from, modes, large, c) {
        assert RuleOk(mid, modes, large, c);
        LeastRank(from, small, c);
      }
    }
  }

  /** Propagating round by round gives what propagating once from the root modes gives. */
  lemma PropagationIsIncremental(from: Modes, small: Cache, large: Cache)
    requires Extends(small, large)
    ensures LeastModes(LeastModes(from, small), large) == LeastModes(from, large)
  {
    var mid := LeastModes(from, small);
    var once, twice := LeastModes(from, large), LeastModes(mid, large);
    LeastIsLeast(from, large);
    LeastIsLeast(mid, large);
    SameClosed(from, once, small, large);
    SameClosed(from, twice, small, large);
    SameRanksSameModes(once, twice);
  }

  // ----- The propagation loops -----

  method Promote(modes: Modes, c: Coordinate, mode: Mode) returns (r: Modes, changed: bool)
    ensures changed <==> Rank(modes, c) < (if mode.Full? then 2 else 1)
    ensures r == if changed then modes[c := mode] else modes
  {
    changed := c !in modes || (modes[c].Direct? && mode.Full?);
    r := if changed then modes[c := mode] else modes;
  }

  lemma PromotionSound(from: Modes, modes: Modes, cache: Cache, c: Coordinate)
    requires Sound(from, modes, cache) && Rank(LeastModes(from, cache), c) == 2
    ensures Sound(from, modes[c := Full], cache)
  {
    var up := modes[c := Full];
    forall x ensures Rank(up, x) == Rank(from, x) || (Rank(up, x) == 2 && Rank(LeastModes(from, cache), x) == 2) {
      assert x != c ==> Rank(up, x) == Rank(modes, x);
    }
  }

  /** What the least modes say of a module that is visited while the modes are still below them. */
  lemma VisitDemands(from: Modes, modes: Modes, cache: Cache, c: Coordinate)
    requires Sound(from, modes, cache) && c in cache
    ensures Rank(modes, c) == 0 && !cache[c].prunes ==> Rank(LeastModes(from, cache), c) == 2
    ensures Expands(modes, cache, c) ==> forall d :: d in cache[c].needs ==> Rank(LeastModes(from, cache), d) == 2
  {
    var least := LeastModes(from, cache);
    LeastIsLeast(from, cache);
    assert RuleOk(from, least, cache, c);
    assert Rank(from, c) <= Rank(least, c)
           && (Rank(modes, c) == Rank(from, c) || Rank(modes, c) == 2 == Rank(least, c));
  }

  /** Coordinates not fully loaded yet. */
  ghost function Unfinished(modes: Modes, cache: Cache): set<Coordinate> {
    set c | c in Touched(cache) && Rank(modes, c) < 2
  }

  /** Either nothing was promoted, or a coordinate became fully loaded. */
  ghost predicate Progressed(before: Modes, modes: Modes, cache: Cache, changed: bool) {
    if changed then Unfinished(modes, cache) < Unfinished(before, cache) else modes == before
  }

  lemma PromotionProgresses(before: Modes, modes: Modes, cache: Cache, changed: bool, c: Coordinate)
    requires Progressed(before, modes, cache, changed) && Rank(modes, c) < 2 && c in Touched(cache)
    ensures Progressed(before, modes[c := Full], cache, true)
  {
    var up := modes[c := Full];
    assert c in Unfinished(modes, cache) && c !in Unfinished(up, cache);
    assert Unfinished(up, cache) <= Unfinished(modes, cache);
  }

  /** The body of the visiting loop: one cached module. */
  method Visit(sv: Semver, ghost from: Modes, ghost before: Modes, modes: Modes, metadata: map<Coordinate, Metadata>,
               c: Coordinate, changed: bool)
      returns (r: Modes, rose: bool)
    requires c in metadata && Sound(from, modes, CacheOf(sv, metadata))
             && Progressed(before, modes, CacheOf(sv, metadata), changed)
    ensures Sound(from, r, CacheOf(sv, metadata)) && Progressed(before, r, CacheOf(sv, metadata), rose)
    ensures !rose ==> !changed && r == modes && RuleOk(from, modes, CacheOf(sv, metadata), c)
  {
    ghost var cache := CacheOf(sv, metadata);
    r, rose := modes, changed;
    var full := Rank(modes, c) == 2;
    VisitDemands(from, modes, cache, c);
    if Rank(modes, c) == 0 && !Prunes(sv, metadata[c].goVersion) {
      PromotionSound(from, modes, cache, c);
      PromotionProgresses(before, modes, cache, changed, c);
      r, rose, full := modes[c := Full], true, true;
    }
    if Rank(r, c) == 0 || (!full && Prunes(sv, metadata[c].goVersion)) {
      return;
    }
    VisitDemands(from, r, cache, c);
    ghost var promotedItself := rose;
    var requirements := metadata[c].requirements;
    for i := 0 to |requirements|
      invariant Sound(from, r, cache) && Progressed(before, r, cache, rose)
      invariant promotedItself ==> rose
      invariant !rose ==> !changed && r == modes && forall k :: 0 <= k < i ==> Rank(r, requirements[k]) == 2
    {
      var d := requirements[i];
      assert d in cache[c].needs;
      if Rank(r, d) < 2 {
        PromotionSound(from, r, cache, d);
        PromotionProgresses(before, r, cache, rose, d);
      }
      var promoted;
      r, promoted := Promote(r, d, Full);
      rose := rose || promoted;
    }
  }

  ghost predicate AllOk(from: Modes, modes: Modes, cache: Cache, visited: seq<Coordinate>) {
    forall c :: c in visited ==> c in cache && RuleOk(from, modes, cache, c)
  }

  lemma OneMoreOk(from: Modes, modes: Modes, cache: Cache, order: seq<Coordinate>, i: nat)
    requires i < |order| && AllOk(from, modes, cache, order[..i]) && order[i] in cache
             && RuleOk(from, modes, cache, order[i])
    ensures AllOk(from, modes, cache, order[..i + 1])
  {
    assert order[..i + 1] == order[..i] + [order[i]];
  }

  /** One pass over the cache. */
  method Pass(sv: Semver, ghost from: Modes, before: Modes, metadata: map<Coordinate, Metadata>)
      returns (modes: Modes, changed: bool)
    requires Sound(from, before, CacheOf(sv, metadata))
    ensures Sound(from, modes, CacheOf(sv, metadata)) && Progressed(before, modes, CacheOf(sv, metadata), changed)
    ensures !changed ==> forall c {:trigger RuleOk(from, modes, CacheOf(sv, metadata), c)} :: c in metadata ==>
            RuleOk(from, modes, CacheOf(sv, metadata), c)
  {
    ghost var cache := CacheOf(sv, metadata);
    var order := SortCoordinates(sv, metadata.Keys);
    modes, changed := before, false;
    for i := 0 to |order|
      invariant Sound(from, modes, cache) && Progressed(before, modes, cache, changed)
      invariant !changed ==> AllOk(from, before, cache, order[..i])
    {
      modes, changed := Visit(sv, from, before, modes, metadata, order[i], changed);
      if !changed {
        OneMoreOk(from, before, cache, order, i);
      }
    }
    assert order[..|order|] == order;
  }

  /** Repeats passes over the cache until one changes nothing; the result is the least closed map. */
  method Propagate(sv: Semver, from: Modes, metadata: map<Coordinate, Metadata>) returns (modes: Modes)
    ensures modes == LeastModes(from, CacheOf(sv, metadata))
  {
    ghost var cache := CacheOf(sv, metadata);
    modes := from;
    var changed := true;
    while changed
      invariant Sound(from, modes, cache)
      invariant !changed ==> forall c {:trigger RuleOk(from, modes, cache, c)} :: c in metadata ==>
                RuleOk(from, modes, cache, c)
      decreases Unfinished(modes, cache), changed
    {
      modes, changed := Pass(sv, from, modes, metadata);
    }
    LeastIsLeast(from, cache);
    ClosedAndSound(from, modes, cache);
  }
}
