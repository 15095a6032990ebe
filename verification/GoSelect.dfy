/** The module selection loops. */
module GoSelect {
  import opened Wrappers
  import opened Ordering
  import opened Sorting
  import opened GoModules
  import opened GoLoadModes
  import opened GoRounds
  import opened GoPruning

  /** Answers each request and records it. */
  class RoundFetcher {
    const respond: Fetch
    var requests: seq<seq<Coordinate>>

    constructor (respond: Fetch)
      ensures this.respond == respond && requests == []
    {
      this.respond, requests := respond, [];
    }

    method FetchRound(request: seq<Coordinate>) returns (r: Result<Fetched, string>)
      modifies this
      ensures requests == old(requests) + [request] && r == respond(request)
    {
      requests := requests + [request];
      r := respond(request);
    }
  }

  // ----- Highest versions -----

  ghost predicate ValidVersions(sv: Semver, selected: Selected) {
    forall path :: path in selected ==> sv.isVersion(selected[path])
  }

  method SelectHigherVersion(sv: Semver, selected: Selected, c: Coordinate) returns (r: Result<Selected, SelectError>)
    ensures r.Ok? ==> r.value == SelectHigher(sv, selected, c)
    ensures r.Err? <==> c.path in selected && !(sv.isVersion(c.version) && sv.isVersion(selected[c.path]))
  {
    if c.path !in selected {
      return Ok(selected[c.path := c.version]);
    }
    var current := selected[c.path];
    if !sv.isVersion(c.version) || !sv.isVersion(current) {
      return Err(IncomparableVersions);
    }
    var comparison := sv.compare(c.version, current);
    var higher := comparison > 0 || (comparison == 0 && CompareText(c.version, current) > 0);
    r := Ok(if higher then selected[c.path := c.version] else selected);
  }

  method SelectAll(sv: Semver, selected: Selected, requirements: seq<Coordinate>)
      returns (r: Result<Selected, SelectError>)
    ensures r.Ok? ==> r.value == SelectEach(sv, selected, requirements)
    ensures ValidVersions(sv, selected) && AllValid(sv, requirements) ==> r.Ok? && ValidVersions(sv, r.value)
  {
    ghost var fine := ValidVersions(sv, selected) && AllValid(sv, requirements);
    var current := selected;
    for i := 0 to |requirements|
      invariant SelectEach(sv, current, requirements[i..]) == SelectEach(sv, selected, requirements)
      invariant fine ==> ValidVersions(sv, current)
    {
      assert requirements[i..][1..] == requirements[i + 1..];
      r := SelectHigherVersion(sv, current, requirements[i]);
      if r.Err? {
        return;
      }
      current := r.value;
    }
    r := Ok(current);
  }

  /** The requirements of the loaded modules, one list after the other. */
  function Loaded(metadata: Fetched, modes: Modes, owners: seq<Coordinate>): seq<Coordinate>
    requires forall i :: 0 <= i < |owners| ==> owners[i] in metadata
  {
    if owners == [] then []
    else
      var last := owners[|owners| - 1];
      Loaded(metadata, modes, owners[..|owners| - 1])
      + if Rank(modes, last) > 0 then metadata[last].requirements else []
  }

  lemma LoadedOneMore(metadata: Fetched, modes: Modes, owners: seq<Coordinate>, i: nat)
    requires (forall k :: 0 <= k < |owners| ==> owners[k] in metadata) && i < |owners|
    ensures Loaded(metadata, modes, owners[..i + 1]) ==
            Loaded(metadata, modes, owners[..i])
            + if Rank(modes, owners[i]) > 0 then metadata[owners[i]].requirements else []
  {
    assert owners[..i + 1][..i] == owners[..i];
  }

  ghost predicate LoadedBy(metadata: Fetched, modes: Modes, owner: Coordinate, d: Coordinate) {
    owner in metadata && Rank(modes, owner) > 0 && d in metadata[owner].requirements
  }

  lemma {:induction false} LoadedElements(metadata: Fetched, modes: Modes, owners: seq<Coordinate>, d: Coordinate)
    requires forall i :: 0 <= i < |owners| ==> owners[i] in metadata
    ensures d in Loaded(metadata, modes, owners) <==>
            exists c {:trigger LoadedBy(metadata, modes, c, d)} :: c in owners && LoadedBy(metadata, modes, c, d)
    decreases |owners|
  {
    if owners != [] {
      var rest, last := owners[..|owners| - 1], owners[|owners| - 1];
      LoadedElements(metadata, modes, rest, d);
      assert owners == rest + [last];
      assert d in Loaded(metadata, modes, owners) <==>
             d in Loaded(metadata, modes, rest) || LoadedBy(metadata, modes, last, d);
    }
  }

  /** What the loops visit is what the root and the loaded modules require. */
  lemma VisitedIsRequired(sv: Semver, roots: seq<Coordinate>, metadata: Fetched, modes: Modes, order: seq<Coordinate>)
    requires forall c :: c in order <==> c in metadata
    ensures Elements(roots + Loaded(metadata, modes, order)) == Required(Elements(roots), CacheOf(sv, metadata), modes)
  {
    var cache := CacheOf(sv, metadata);
    forall d ensures d in roots + Loaded(metadata, modes, order) <==> d in Required(Elements(roots), cache, modes) {
      LoadedElements(metadata, modes, order, d);
      assert forall c :: c in cache && Rank(modes, c) > 0 && d in cache[c].needs <==>
             c in order && LoadedBy(metadata, modes, c, d);
    }
  }

  ghost predicate MetadataValid(sv: Semver, metadata: Fetched) {
    forall c :: c in metadata ==> AllValid(sv, metadata[c].requirements)
  }

  /** The loop over the cached modules, in sorted order. */
  method SelectLoaded(sv: Semver, metadata: Fetched, modes: Modes, selected: Selected, order: seq<Coordinate>)
      returns (r: Result<Selected, SelectError>)
    requires forall i :: 0 <= i < |order| ==> order[i] in metadata
    ensures r.Ok? ==> r.value == SelectEach(sv, selected, Loaded(metadata, modes, order))
    ensures ValidVersions(sv, selected) && MetadataValid(sv, metadata) ==> r.Ok?
  {
    ghost var fine := ValidVersions(sv, selected) && MetadataValid(sv, metadata);
    r := Ok(selected);
    for i := 0 to |order|
      invariant r.Ok? && r.value == SelectEach(sv, selected, Loaded(metadata, modes, order[..i]))
      invariant fine ==> ValidVersions(sv, r.value)
    {
      LoadedOneMore(metadata, modes, order, i);
      assert Loaded(metadata, modes, order[..i]) + [] == Loaded(metadata, modes, order[..i]);
      if Rank(modes, order[i]) > 0 {
        EachAppend(sv, selected, Loaded(metadata, modes, order[..i]), metadata[order[i]].requirements);
        r := SelectAll(sv, r.value, metadata[order[i]].requirements);
        if r.Err? {
          return;
        }
      }
    }
    assert order[..|order|] == order;
  }

  method ComputeSelected(sv: Semver, roots: seq<Coordinate>, metadata: Fetched, modes: Modes)
      returns (r: Result<Selected, SelectError>)
    ensures r.Ok? ==> IsHighest(sv, Required(Elements(roots), CacheOf(sv, metadata), modes), r.value)
    ensures AllValid(sv, roots) && MetadataValid(sv, metadata) ==> r.Ok?
  {
    r := SelectAll(sv, map[], roots);
    if r.Ok? {
      var order := SortCoordinates(sv, metadata.Keys);
      ghost var visited := roots + Loaded(metadata, modes, order);
      EachAppend(sv, map[], roots, Loaded(metadata, modes, order));
      r := SelectLoaded(sv, metadata, modes, r.value, order);
      EachIsHighest(sv, {}, map[], visited);
      VisitedIsRequired(sv, roots, metadata, modes, order);
      assert {} + Elements(visited) == Elements(visited);
    }
  }

  // ----- A fetched round -----

  /** The first offender met in sorted order is the first of them all. */
  lemma FirstMet(sv: Semver, s: set<Coordinate>, bad: set<Coordinate>, i: nat)
    requires bad <= s && i < |SortedCoordinates(sv, s)| && SortedCoordinates(sv, s)[i] in bad
    requires forall k :: 0 <= k < i ==> SortedCoordinates(sv, s)[k] !in bad
    ensures SortedCoordinates(sv, s)[i] == FirstCoordinate(sv, bad)
  {
    CoordinateOrderTotal(sv);
    var order, cmp := SortedCoordinates(sv, s), CoordinateOrder(sv);
    forall y | y in bad ensures cmp(order[i], y) <= 0 {
      assert y in order;
      var k :| 0 <= k < |order| && order[k] == y;
      assert i <= k;
    }
    FirstIs(cmp, bad, order[i]);
  }

  method CheckEntry(sv: Semver, requested: set<Coordinate>, fetched: Fetched, c: Coordinate)
      returns (e: Option<SelectError>)
    requires c in fetched
    ensures e == Offence(sv, requested, fetched, c)
  {
    if c !in requested {
      return Some(UnexpectedMetadata(c));
    }
    if fetched[c].path != c.path {
      return Some(WrongModule(c));
    }
    var bad := ValidateRequirements(sv, fetched[c].requirements);
    e := if bad.Some? then Some(InvalidRequirement(c, bad.value)) else None;
  }

  method CheckFetched(sv: Semver, requested: seq<Coordinate>, fetched: Fetched) returns (e: Option<SelectError>)
    ensures var bad := Offenders(sv, Elements(requested), fetched);
            e == if bad == {} then None else Offence(sv, Elements(requested), fetched, FirstCoordinate(sv, bad))
  {
    var wanted := Elements(requested);
    ghost var bad := Offenders(sv, wanted, fetched);
    var order := SortCoordinates(sv, fetched.Keys);
    for i := 0 to |order|
      invariant forall k :: 0 <= k < i ==> order[k] !in bad
    {
      e := CheckEntry(sv, wanted, fetched, order[i]);
      assert e.Some? <==> order[i] in bad;
      if e.Some? {
        FirstMet(sv, fetched.Keys, bad, i);
        return;
      }
    }
    assert forall c :: c in bad ==> c in order;
    e := None;
  }

  /** Stores each requested entry until one is missing. */
  method StoreRequested(requested: seq<Coordinate>, fetched: Fetched, metadata: Fetched) returns (all: Fetched, n: nat)
    ensures n <= |requested| && (forall k :: 0 <= k < n ==> requested[k] in fetched)
            && (n < |requested| ==> requested[n] !in fetched)
    ensures n == |requested| && fetched.Keys <= Elements(requested) ==> all == metadata + fetched
  {
    all, n := metadata, 0;
    while n < |requested| && requested[n] in fetched
      invariant n <= |requested| && forall k :: 0 <= k < n ==> requested[k] in fetched
      invariant forall c :: c in all <==> c in metadata || c in requested[..n]
      invariant forall c :: c in requested[..n] ==> all[c] == fetched[c]
      invariant forall c :: c in metadata && c !in requested[..n] ==> all[c] == metadata[c]
    {
      assert requested[..n + 1] == requested[..n] + [requested[n]];
      all := all[requested[n] := fetched[requested[n]]];
      n := n + 1;
    }
    if n == |requested| && fetched.Keys <= Elements(requested) {
      assert requested[..n] == requested;
      assert forall c :: c in fetched <==> c in requested;
    }
  }

  method AddFetchRound(sv: Semver, ghost wanted: set<Coordinate>, requested: seq<Coordinate>, fetched: Fetched,
                       metadata: Fetched)
      returns (r: Result<Fetched, SelectError>)
    requires requested == SortedCoordinates(sv, wanted)
    ensures match FetchError(sv, wanted, fetched)
            case Some(e) => r == Err(e)
            case None => r == Ok(metadata + fetched)
  {
    assert Elements(requested) == wanted;
    var error := CheckFetched(sv, requested, fetched);
    if error.Some? {
      return Err(error.value);
    }
    var all, n := StoreRequested(requested, fetched, metadata);
    if n < |requested| {
      FirstMet(sv, wanted, wanted - fetched.Keys, n);
      return Err(MissingMetadata(requested[n]));
    }
    assert forall c :: c in wanted ==> c in requested;
    assert wanted - fetched.Keys == {};
    FetchedIsRequested(sv, wanted, fetched);
    r := Ok(all);
  }

  // ----- The final selection -----

  lemma MissingOrder(sv: Semver, selected: Selected, metadata: Fetched)
    ensures (set path | path in selected && Coordinate(path, selected[path]) !in metadata ::
            Coordinate(path, selected[path])) ==
            Chosen(selected) - metadata.Keys
  {
  }

  method MissingCoordinates(sv: Semver, selected: Selected, metadata: Fetched) returns (missing: seq<Coordinate>)
    ensures missing == SortedCoordinates(sv, Chosen(selected) - metadata.Keys)
  {
    MissingOrder(sv, selected, metadata);
    var unsorted := set path | path in selected && Coordinate(path, selected[path]) !in metadata ::
      Coordinate(path, selected[path]);
    missing := SortCoordinates(sv, unsorted);
  }

  method AddSelectedEdges(edges: set<Edge>, from: Coordinate, requirements: seq<Coordinate>, selected: Selected)
      returns (r: set<Edge>)
    ensures r == edges + EdgesFrom(from, Elements(requirements), selected)
  {
    r := edges;
    for i := 0 to |requirements|
      invariant r == edges + EdgesFrom(from, Elements(requirements[..i]), selected)
    {
      assert requirements[..i + 1] == requirements[..i] + [requirements[i]];
      r := r + {Edge(from, Target(selected, requirements[i]))};
    }
    assert requirements[..|requirements|] == requirements;
  }

  ghost function EdgesOf(selected: Selected, cache: Cache, modes: Modes, owners: seq<Coordinate>): set<Edge> {
    set m, c | m in owners && m in cache && Rank(modes, m) > 0 && c in cache[m].needs :: Edge(m, Target(selected, c))
  }

  lemma EdgesOfOneMore(selected: Selected, cache: Cache, modes: Modes, owners: seq<Coordinate>, i: nat)
    requires i < |owners|
    ensures EdgesOf(selected, cache, modes, owners[..i + 1]) ==
            EdgesOf(selected, cache, modes, owners[..i]) +
            (if owners[i] in cache && Rank(modes, owners[i]) > 0
              then EdgesFrom(owners[i], cache[owners[i]].needs, selected) else {})
  {
    assert owners[..i + 1] == owners[..i] + [owners[i]];
  }

  method CollectEdges(p: Problem, modules: seq<Coordinate>, selected: Selected, metadata: Fetched, modes: Modes)
      returns (edges: set<Edge>)
    ensures edges ==
            EdgesFrom(Coordinate(p.rootPath, ""), Elements(p.roots), selected)
              + EdgesOf(selected, CacheOf(p.sv, metadata), modes, modules)
  {
    ghost var cache := CacheOf(p.sv, metadata);
    edges := AddSelectedEdges({}, Coordinate(p.rootPath, ""), p.roots, selected);
    ghost var fromRoot := edges;
    for i := 0 to |modules|
      invariant edges == fromRoot + EdgesOf(selected, cache, modes, modules[..i])
    {
      EdgesOfOneMore(selected, cache, modes, modules, i);
      if Rank(modes, modules[i]) > 0 && modules[i] in metadata {
        edges := AddSelectedEdges(edges, modules[i], metadata[modules[i]].requirements, selected);
      }
    }
    assert modules[..|modules|] == modules;
  }

  method BuildSelection(p: Problem, selected: Selected, metadata: Fetched, modes: Modes) returns (s: Selection)
    requires var cache := CacheOf(p.sv, metadata);
             modes == ModesAt(SetupOf(p), cache) && selected == SelectedAt(SetupOf(p), cache)
    ensures s == Build(SetupOf(p), CacheOf(p.sv, metadata))
  {
    var root := Coordinate(p.rootPath, "");
    var modules := SortCoordinates(p.sv, Chosen(selected));
    var edges := CollectEdges(p, modules, selected, metadata, modes);
    SameEdges(SetupOf(p), modules, selected, CacheOf(p.sv, metadata), modes);
    EdgeOrderTotal(p.sv, root);
    var sorted := SortSet(EdgeOrder(p.sv, root), edges);
    s := Selection(modules, sorted);
  }

  lemma SameEdges(g: Setup, modules: seq<Coordinate>, selected: Selected, cache: Cache, modes: Modes)
    requires forall c :: c in modules <==> c in Chosen(selected)
    ensures EdgeSet(g, selected, cache, modes) ==
            EdgesFrom(g.root, g.roots, selected) + EdgesOf(selected, cache, modes, modules)
  {
  }

  // ----- Rounds -----

  /** Modes, versions and request of one round, from the modes of an earlier one. */
  method StartRound(p: Problem, ghost earlier: Cache, modes: Modes, metadata: Fetched)
      returns (now: Modes, selected: Selected, missing: seq<Coordinate>)
    requires Extends(earlier, CacheOf(p.sv, metadata)) && modes == LeastModes(RootModes(p), earlier)
    requires AllValid(p.sv, p.roots) && MetadataValid(p.sv, metadata)
    ensures var g, cache := SetupOf(p), CacheOf(p.sv, metadata);
            now == ModesAt(g, cache) && selected == SelectedAt(g, cache) && missing == Request(g, cache)
  {
    ghost var g, cache := SetupOf(p), CacheOf(p.sv, metadata);
    now := Propagate(p.sv, modes, metadata);
    PropagationIsIncremental(g.modes, earlier, cache);
    var r := ComputeSelected(p.sv, p.roots, metadata, now);
    selected := r.value;
    HighestUnique(p.sv, RequiredAt(g, cache), selected, SelectedAt(g, cache));
    missing := MissingCoordinates(p.sv, selected, metadata);
    assert metadata.Keys == cache.Keys;
  }

  /** A finite registry: what the root and any response to a request from the set require is in the set. */
  ghost predicate Bounded(p: Problem, universe: set<Coordinate>) {
    && Elements(p.roots) <= universe
    && (p.fetch.Some? ==> forall request {:trigger p.fetch.value(request)} :: Elements(request) <= universe ==>
          Answers(p.fetch.value(request), universe))
  }

  ghost predicate Answers(response: Result<Fetched, string>, universe: set<Coordinate>) {
    response.Ok? ==> Within(response.value, universe)
  }

  ghost predicate Within(metadata: Fetched, universe: set<Coordinate>) {
    forall c :: c in metadata ==> Elements(metadata[c].requirements) <= universe
  }

  method InitialModes(p: Problem) returns (modes: Modes)
    ensures modes == RootModes(p)
  {
    var mode := if Prunes(p.sv, p.goVersion) then Direct else Full;
    modes := map[];
    for i := 0 to |p.roots|
      invariant modes == map c | c in p.roots[..i] :: mode
    {
      assert p.roots[..i + 1] == p.roots[..i] + [p.roots[i]];
      var changed;
      modes, changed := Promote(modes, p.roots[i], mode);
    }
    assert p.roots[..|p.roots|] == p.roots;
  }

  lemma EmptyCacheModes(from: Modes)
    ensures LeastModes(from, map[]) == from
  {
    LeastIsLeast(from, map[]);
    assert Closed(from, from, map[]);
    SameRanksSameModes(LeastModes(from, map[]), from);
  }

  /** Everything a round requests lies in the registry. */
  lemma RequestWithin(p: Problem, metadata: Fetched, universe: set<Coordinate>)
    requires Bounded(p, universe) && Within(metadata, universe)
    ensures MissingAt(SetupOf(p), CacheOf(p.sv, metadata)) <= universe
  {
    var g, cache := SetupOf(p), CacheOf(p.sv, metadata);
    forall d | d in RequiredAt(g, cache) ensures d in universe {
      if d !in g.roots {
        var c :| c in cache && d in cache[c].needs;
        assert d in Elements(metadata[c].requirements);
      }
    }
    forall c | c in MissingAt(g, cache) ensures c in universe { ChosenRequired(g, cache, c); }
  }

  lemma StoredCache(sv: Semver, metadata: Fetched, fetched: Fetched)
    ensures CacheOf(sv, metadata + fetched) == CacheOf(sv, metadata) + CacheOf(sv, fetched)
  {
  }

  /** What the loop knows of its cache. */
  ghost predicate CacheFine(sv: Semver, metadata: Fetched, universe: set<Coordinate>) {
    MetadataValid(sv, metadata) && Within(metadata, universe) && metadata.Keys <= universe
  }

  lemma StoredFine(sv: Semver, wanted: set<Coordinate>, metadata: Fetched, fetched: Fetched, universe: set<Coordinate>)
    requires CacheFine(sv, metadata, universe) && Within(fetched, universe) && wanted <= universe
    requires FetchError(sv, wanted, fetched).None?
    ensures CacheFine(sv, metadata + fetched, universe) && (metadata + fetched).Keys == metadata.Keys + wanted
  {
    FetchedIsRequested(sv, wanted, fetched);
  }

  ghost function Stored(sv: Semver, r: Result<Fetched, SelectError>): Progress {
    if r.Ok? then More(CacheOf(sv, r.value)) else Failed(r.error)
  }

  /** Storing a response, or refusing it, is what the round does with it. */
  method StoreResponse(p: Problem, missing: seq<Coordinate>, response: Result<Fetched, string>, metadata: Fetched,
                       ghost universe: set<Coordinate>)
      returns (r: Result<Fetched, SelectError>)
    requires CacheFine(p.sv, metadata, universe) && Answers(response, universe) && Elements(missing) <= universe
    requires missing == Request(SetupOf(p), CacheOf(p.sv, metadata)) && missing != []
    ensures Stored(p.sv, r) == Accept(SetupOf(p), CacheOf(p.sv, metadata), response)
    ensures r.Ok? ==> CacheFine(p.sv, r.value, universe) && r.value.Keys > metadata.Keys
  {
    if response.Err? {
      return Err(FetchFailed(response.error));
    }
    ghost var wanted := MissingAt(SetupOf(p), CacheOf(p.sv, metadata));
    assert Elements(missing) == wanted && missing[0] in wanted;
    r := AddFetchRound(p.sv, wanted, missing, response.value, metadata);
    if r.Ok? {
      StoredCache(p.sv, metadata, response.value);
      StoredFine(p.sv, wanted, metadata, response.value, universe);
    }
  }

  lemma RoundFetches(p: Problem, cache: Cache)
    requires Request(SetupOf(p), cache) != []
    ensures Round(p, cache) ==
            if p.fetch.None? then Failed(FetcherRequired)
            else Accept(SetupOf(p), cache, p.fetch.value(Request(SetupOf(p), cache)))
  {
    assert Request(SetupOf(p), cache)[0] in MissingAt(SetupOf(p), cache);
  }

  /** One fetch: the round ends in an error, or in a larger cache. */
  method FetchMissing(p: Problem, fetcher: RoundFetcher?, missing: seq<Coordinate>, metadata: Fetched,
                      ghost universe: set<Coordinate>)
      returns (r: Result<Fetched, SelectError>)
    requires Bounded(p, universe) && CacheFine(p.sv, metadata, universe)
    requires p.fetch == if fetcher == null then None else Some(fetcher.respond)
    requires missing == Request(SetupOf(p), CacheOf(p.sv, metadata)) && missing != []
    modifies fetcher
    ensures fetcher != null ==> fetcher.requests == old(fetcher.requests) + [missing]
    ensures Round(p, CacheOf(p.sv, metadata)) == Stored(p.sv, r)
    ensures r.Ok? ==> CacheFine(p.sv, r.value, universe) && r.value.Keys > metadata.Keys
  {
    RoundFetches(p, CacheOf(p.sv, metadata));
    if fetcher == null {
      return Err(FetcherRequired);
    }
    assert Elements(missing) <= universe by { RequestWithin(p, metadata, universe); }
    var response := fetcher.FetchRound(missing);
    assert Answers(p.fetch.value(missing), universe);
    r := StoreResponse(p, missing, response, metadata, universe);
  }

  ghost function RequestOf(p: Problem): Cache -> seq<Coordinate>
  {
    cache => Request(SetupOf(p), cache)
  }

  lemma FollowsOn(round: Rounds, run: seq<Cache>, next: Cache)
    requires Follows(round, run) && round(run[|run| - 1]) == More(next)
    ensures Follows(round, run + [next])
  {
    var longer := run + [next];
    forall i {:trigger RoundAt(round, longer, i)} | 0 <= i < |longer| - 1 ensures RoundAt(round, longer, i) {
      if i < |run| - 1 {
        assert RoundAt(round, run, i);
      }
    }
  }

  datatype Iteration = Finished(result: Result<Selection, SelectError>) | Continue(metadata: Fetched)

  ghost function ProgressOf(sv: Semver, it: Iteration): Progress {
    match it
    case Finished(Ok(selection)) => Done(selection)
    case Finished(Err(error)) => Failed(error)
    case Continue(metadata) => More(CacheOf(sv, metadata))
  }

  ghost function Asked(request: seq<Coordinate>): seq<seq<Coordinate>> { if request == [] then [] else [request] }

  /** The modes of an earlier round, from which the next round's are propagated. */
  ghost predicate ModesFine(from: Modes, modes: Modes, earlier: Cache, cache: Cache) {
    Extends(earlier, cache) && modes == LeastModes(from, earlier)
  }

  /** The body of the selection loop. */
  method Iterate(p: Problem, fetcher: RoundFetcher?, ghost earlier: Cache, modes: Modes, metadata: Fetched,
                 ghost universe: set<Coordinate>)
      returns (now: Modes, it: Iteration)
    requires Bounded(p, universe) && CacheFine(p.sv, metadata, universe) && AllValid(p.sv, p.roots)
    requires p.fetch == if fetcher == null then None else Some(fetcher.respond)
    requires ModesFine(RootModes(p), modes, earlier, CacheOf(p.sv, metadata))
    modifies fetcher
    ensures RoundsOf(p)(CacheOf(p.sv, metadata)) == ProgressOf(p.sv, it)
    ensures it.Continue? ==>
      && CacheFine(p.sv, it.metadata, universe) && it.metadata.Keys > metadata.Keys
      && ModesFine(RootModes(p), now, CacheOf(p.sv, metadata), CacheOf(p.sv, it.metadata))
    ensures fetcher != null ==> fetcher.requests == old(fetcher.requests) + Asked(RequestOf(p)(CacheOf(p.sv, metadata)))
  {
    var selected, missing;
    now, selected, missing := StartRound(p, earlier, modes, metadata);
    if missing == [] {
      var selection := BuildSelection(p, selected, metadata, now);
      it := Finished(Ok(selection));
    } else {
      var next := FetchMissing(p, fetcher, missing, metadata, universe);
      it := if next.Ok? then Continue(next.value) else Finished(Err(next.error));
      RoundsGrow(p);
    }
  }

  /** The requests of a run, one for each round that misses something. */
  ghost function RequestLog(request: Cache -> seq<Coordinate>, run: seq<Cache>): seq<seq<Coordinate>> {
    if run == [] then [] else RequestLog(request, run[..|run| - 1]) + Asked(request(run[|run| - 1]))
  }

  /** The rounds so far: they follow one another, and either one more begins or the last one ended the run. */
  ghost predicate Underway(sv: Semver, round: Rounds, run: seq<Cache>, it: Iteration) {
    match it
    case Continue(metadata) => Follows(round, run + [CacheOf(sv, metadata)])
    case Finished(_) => run != [] && Follows(round, run) && round(run[|run| - 1]) == ProgressOf(sv, it)
  }

  /** One more round, whatever it came to. */
  lemma UnderwayOn(sv: Semver, round: Rounds, run: seq<Cache>, metadata: Fetched, it: Iteration)
    requires Underway(sv, round, run, Continue(metadata)) && round(CacheOf(sv, metadata)) == ProgressOf(sv, it)
    ensures Underway(sv, round, run + [CacheOf(sv, metadata)], it)
  {
    if it.Continue? {
      FollowsOn(round, run + [CacheOf(sv, metadata)], CacheOf(sv, it.metadata));
    }
  }

  lemma UnderwayEnds(sv: Semver, round: Rounds, run: seq<Cache>, it: Iteration)
    requires Underway(sv, round, run, it) && it.Finished?
    ensures Ends(round, run) && it.result == LastOf(round, run)
  {
  }

  /** Since the log was as before, it gained exactly the requests of the run. */
  ghost predicate Logged(before: seq<seq<Coordinate>>, log: seq<seq<Coordinate>>, request: Cache -> seq<Coordinate>,
                         run: seq<Cache>) {
    log == before + RequestLog(request, run)
  }

  lemma LogOn(before: seq<seq<Coordinate>>, log: seq<seq<Coordinate>>, request: Cache -> seq<Coordinate>,
              run: seq<Cache>, cache: Cache)
    requires Logged(before, log, request, run)
    ensures Logged(before, log + Asked(request(cache)), request, run + [cache])
  {
    assert (run + [cache])[..|run|] == run;
  }

  /** What the loop keeps while it goes on. */
  ghost predicate LoopFine(p: Problem, modes: Modes, earlier: Cache, it: Iteration, universe: set<Coordinate>) {
    it.Continue? ==>
      CacheFine(p.sv, it.metadata, universe) && ModesFine(RootModes(p), modes, earlier, CacheOf(p.sv, it.metadata))
  }

  /** The requests still to come are among the coordinates that are not cached yet. */
  ghost function Budget(it: Iteration, universe: set<Coordinate>): set<Coordinate> {
    if it.Continue? then universe - it.metadata.Keys else {}
  }

  lemma LoopStarts(p: Problem, round: Rounds, universe: set<Coordinate>)
    ensures Underway(p.sv, round, [], Continue(map[])) && LoopFine(p, RootModes(p), map[], Continue(map[]), universe)
  {
    EmptyCacheModes(RootModes(p));
    assert CacheOf(p.sv, map[]) == map[];
  }

  /** Rounds until one ends the run. */
  method RunRounds(p: Problem, fetcher: RoundFetcher?, ghost universe: set<Coordinate>, ghost round: Rounds,
                   ghost request: Cache -> seq<Coordinate>)
      returns (r: Result<Selection, SelectError>, ghost run: seq<Cache>)
    requires Bounded(p, universe) && AllValid(p.sv, p.roots)
    requires p.fetch == if fetcher == null then None else Some(fetcher.respond)
    requires round == RoundsOf(p) && request == RequestOf(p)
    modifies fetcher
    ensures Ends(round, run) && r == LastOf(round, run)
    ensures fetcher != null ==> fetcher.requests == old(fetcher.requests) + RequestLog(request, run)
  {
    var modes := InitialModes(p);
    var it := Continue(map[]);
    ghost var earlier: Cache, before := map[], if fetcher == null then [] else fetcher.requests;
    run := [];
    LoopStarts(p, round, universe);
    while it.Continue?
      invariant Underway(p.sv, round, run, it) && LoopFine(p, modes, earlier, it, universe)
      invariant fetcher != null ==> Logged(before, fetcher.requests, request, run)
      decreases it.Continue?, Budget(it, universe)
    {
      ghost var cache, metadata := CacheOf(p.sv, it.metadata), it.metadata;
      ghost var log := if fetcher == null then before + RequestLog(request, run) else fetcher.requests;
      modes, it := Iterate(p, fetcher, earlier, modes, it.metadata, universe);
      UnderwayOn(p.sv, round, run, metadata, it);
      LogOn(before, log, request, run, cache);
      earlier, run := cache, run + [cache];
    }
    UnderwayEnds(p.sv, round, run, it);
    r := it.result;
  }

  method ValidateInput(p: Problem) returns (error: Option<SelectError>)
    ensures error == InputError(p)
  {
    if !p.sv.isPath(p.rootPath) {
      return Some(InvalidRootPath);
    }
    if !ValidDirective(p.sv, p.goVersion) {
      return Some(InvalidRootDirective);
    }
    var bad := ValidateRequirements(p.sv, p.roots);
    error := if bad.Some? then Some(InvalidRootRequirement(bad.value)) else None;
  }

  lemma RunSelects(p: Problem, run: seq<Cache>, selection: Selection)
    requires IsRun(p, run) && ResultOf(p, run) == Ok(selection)
    ensures run != [] && Selects(p, run[|run| - 1], selection)
  {
    SelectionExact(p, run);
  }

  /** The rounds of a valid problem. */
  method SelectFrom(p: Problem, fetcher: RoundFetcher?, ghost universe: set<Coordinate>)
      returns (r: Result<Selection, SelectError>, ghost run: seq<Cache>)
    requires Bounded(p, universe) && InputError(p).None?
    requires p.fetch == if fetcher == null then None else Some(fetcher.respond)
    modifies fetcher
    ensures IsRun(p, run) && r == ResultOf(p, run)
    ensures r.Ok? ==> run != [] && Selects(p, run[|run| - 1], r.value)
    ensures fetcher != null ==> fetcher.requests == old(fetcher.requests) + RequestLog(RequestOf(p), run)
  {
    ghost var rounds, request := RoundsOf(p), RequestOf(p);
    r, run := RunRounds(p, fetcher, universe, rounds, request);
    if r.Ok? {
      RunSelects(p, run, r.value);
    }
  }

  /**
   Rounds over a finite registry until nothing selected is missing. The run is
   the one the rounds determine, and the fetcher saw its requests and no others.
   */
  method Select(p: Problem, fetcher: RoundFetcher?, ghost universe: set<Coordinate>)
      returns (r: Result<Selection, SelectError>, ghost run: seq<Cache>)
    requires Bounded(p, universe)
    requires p.fetch == if fetcher == null then None else Some(fetcher.respond)
    modifies fetcher
    ensures InputError(p).Some? ==> r == Err(InputError(p).value) && run == []
    ensures InputError(p).None? ==> IsRun(p, run) && r == ResultOf(p, run)
    ensures r.Ok? ==> run != [] && Selects(p, run[|run| - 1], r.value)
    ensures fetcher != null ==> fetcher.requests == old(fetcher.requests) + RequestLog(RequestOf(p), run)
  {
    var error := ValidateInput(p);
    if error.Some? {
      return Err(error.value), [];
    }
    r, run := SelectFrom(p, fetcher, universe);
  }
}
