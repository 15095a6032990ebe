/**
 Module coordinates, requirement metadata and their orders, as in internal/gomod:
 versions by semantic order and then as text, coordinates by path and version, and
 edges with those of the root first. All three orders are linear.
 */
module GoModules {
  import opened Wrappers
  import opened Ordering
  import opened Sorting

  /** One exact module version; also a requirement, whose indirect flag selection never reads. */
  datatype Coordinate = Coordinate(path: string, version: string)

  datatype Metadata = Metadata(path: string, goVersion: string, requirements: seq<Coordinate>)

  /** Version comparison and validation from golang.org/x/mod, as given functions. */
  datatype VersionLibrary = VersionLibrary(
    compare: (string, string) -> int, isVersion: string -> bool, isPath: string -> bool,
    fits: (string, string) -> bool, isDirective: string -> bool)

  /** Comparison is a total preorder: build suffixes and the like may tie. */
  type Semver = lib: VersionLibrary | TotalPreorder(lib.compare)
    ghost witness VersionLibrary((_, _) => 0, _ => true, _ => true, (_, _) => true, _ => true)

  predicate IsSpace(c: char) {
    || c in {'\t', '\n', '\U{0B}', '\U{0C}', '\r', ' ', '\U{85}', '\U{A0}', '\U{1680}'} || '\U{2000}' <= c <= '\U{200A}'
    || c in {'\U{2028}', '\U{2029}', '\U{202F}', '\U{205F}', '\U{3000}'}
  }

  predicate Blank(s: string) { forall i :: 0 <= i < |s| ==> IsSpace(s[i]) }

  /** Go 1.17 and later prune the module graph. */
  predicate Prunes(sv: Semver, goVersion: string) {
    !Blank(goVersion) && sv.compare("v" + goVersion, "v1.17") >= 0
  }

  predicate ValidDirective(sv: Semver, goVersion: string) {
    !Blank(goVersion) && sv.isDirective("v" + goVersion)
  }

  predicate ValidCoordinate(sv: Semver, c: Coordinate) {
    sv.isVersion(c.version) && sv.fits(c.path, c.version)
  }

  predicate AllValid(sv: Semver, requirements: seq<Coordinate>) {
    forall i :: 0 <= i < |requirements| ==> ValidCoordinate(sv, requirements[i])
  }

  /** The requirement that validation reports. */
  function FirstInvalid(sv: Semver, requirements: seq<Coordinate>): (bad: Option<Coordinate>)
    ensures bad.None? <==> AllValid(sv, requirements)
    ensures bad.Some? ==> bad.value in requirements && !ValidCoordinate(sv, bad.value)
  {
    if requirements == [] then None
    else if !ValidCoordinate(sv, requirements[0]) then Some(requirements[0])
    else
      var bad := FirstInvalid(sv, requirements[1..]);
      assert requirements == [requirements[0]] + requirements[1..];
      bad
  }

  method ValidateRequirements(sv: Semver, requirements: seq<Coordinate>) returns (bad: Option<Coordinate>)
    ensures bad == FirstInvalid(sv, requirements)
  {
    for i := 0 to |requirements|
      invariant FirstInvalid(sv, requirements[i..]) == FirstInvalid(sv, requirements)
    {
      assert requirements[i..][1..] == requirements[i + 1..];
      if !ValidCoordinate(sv, requirements[i]) {
        return Some(requirements[i]);
      }
    }
    return None;
  }

  // ----- Orders -----

  /** Semantic order, with equivalent spellings such as build suffixes ordered as text. */
  function CompareVersions(sv: Semver, a: string, b: string): int {
    Then(sv.compare(a, b), CompareText(a, b))
  }

  function CompareCoordinates(sv: Semver, a: Coordinate, b: Coordinate): int {
    Then(CompareText(a.path, b.path), CompareVersions(sv, a.version, b.version))
  }

  function CoordinateOrder(sv: Semver): (Coordinate, Coordinate) -> int {
    (a, b) => CompareCoordinates(sv, a, b)
  }

  /** An edge between selected coordinates; the root has an empty version. */
  datatype Edge = Edge(from: Coordinate, to: Coordinate)

  function RootFirst(root: Coordinate, a: Coordinate, b: Coordinate): int {
    if (a == root) == (b == root) then 0 else if a == root then -1 else 1
  }

  function CompareEdges(sv: Semver, root: Coordinate, a: Edge, b: Edge): int {
    Then(RootFirst(root, a.from, b.from),
      Then(CompareCoordinates(sv, a.from, b.from), CompareCoordinates(sv, a.to, b.to)))
  }

  function EdgeOrder(sv: Semver, root: Coordinate): (Edge, Edge) -> int {
    (a, b) => CompareEdges(sv, root, a, b)
  }

  function VersionOrder(sv: Semver): (string, string) -> int {
    (a, b) => CompareVersions(sv, a, b)
  }

  lemma VersionOrderTotal(sv: Semver)
    ensures TotalOrder(VersionOrder(sv))
  {
    TextIsTotalOrder();
    ThenIsPreorder(sv.compare, CompareText, VersionOrder(sv));
    SeparatingIsTotal(VersionOrder(sv));
  }

  lemma CoordinateOrderTotal(sv: Semver)
    ensures TotalOrder(CoordinateOrder(sv))
  {
    var o, v := CoordinateOrder(sv), VersionOrder(sv);
    var byPath := (a: Coordinate, b: Coordinate) => CompareText(a.path, b.path);
    var byVersion := (a: Coordinate, b: Coordinate) => v(a.version, b.version);
    assert TotalPreorder(byPath) by {
      TextIsTotalOrder();
      ByKeyIsPreorder((c: Coordinate) => c.path, CompareText, byPath);
    }
    assert TotalPreorder(byVersion) by {
      VersionOrderTotal(sv);
      ByKeyIsPreorder((c: Coordinate) => c.version, v, byVersion);
    }
    ThenIsPreorder(byPath, byVersion, o);
    forall a, b | o(a, b) == 0 ensures a == b { CoordinatesEqual(sv, a, b); }
    SeparatingIsTotal(o);
  }

  lemma CoordinatesEqual(sv: Semver, a: Coordinate, b: Coordinate)
    requires CompareCoordinates(sv, a, b) == 0
    ensures a == b
  {
    TextIsTotalOrder();
    VersionOrderTotal(sv);
    assert CompareText(a.path, b.path) == 0 && VersionOrder(sv)(a.version, b.version) == 0;
  }

  lemma EdgeOrderTotal(sv: Semver, root: Coordinate)
    ensures TotalOrder(EdgeOrder(sv, root))
  {
    var o, e := CoordinateOrder(sv), EdgeOrder(sv, root);
    var first := (a: Edge, b: Edge) => RootFirst(root, a.from, b.from);
    var from := (a: Edge, b: Edge) => o(a.from, b.from);
    var to := (a: Edge, b: Edge) => o(a.to, b.to);
    var ends := (a: Edge, b: Edge) => Then(from(a, b), to(a, b));
    assert TotalPreorder(from) && TotalPreorder(to) by {
      CoordinateOrderTotal(sv);
      ByKeyIsPreorder((x: Edge) => x.from, o, from);
      ByKeyIsPreorder((x: Edge) => x.to, o, to);
    }
    ThenIsPreorder(from, to, ends);
    ThenIsPreorder(first, ends, e);
    forall a, b | e(a, b) == 0 ensures a == b {
      CoordinatesEqual(sv, a.from, b.from);
      CoordinatesEqual(sv, a.to, b.to);
    }
    SeparatingIsTotal(e);
  }

  ghost function SortedCoordinates(sv: Semver, s: set<Coordinate>): (q: seq<Coordinate>)
    ensures forall c :: c in q <==> c in s
  {
    CoordinateOrderTotal(sv);
    Ordered(CoordinateOrder(sv), s)
  }

  method SortCoordinates(sv: Semver, s: set<Coordinate>) returns (q: seq<Coordinate>)
    ensures q == SortedCoordinates(sv, s)
  {
    CoordinateOrderTotal(sv);
    q := SortSet(CoordinateOrder(sv), s);
  }
}
