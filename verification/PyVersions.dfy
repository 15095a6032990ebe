/** PEP 440 versions. */
module PyVersions {
  // The comparison of internal/pypi/version.go is proved to be the order of the
  // canonical sort keys that "Summary of permitted suffixes and relative ordering"
  // in PEP 440 describes.

  import opened Wrappers
  import opened Ordering

  datatype RawVersion = RawVersion(
    epoch: nat, release: seq<nat>,
    hasPre: bool, preKind: nat, preNum: nat,
    hasPost: bool, postNum: nat,
    hasDev: bool, devNum: nat,
    local: seq<string>)

  /** A parsed version has at least one release segment. */
  type Version = v: RawVersion | v.release != [] witness RawVersion(0, [0], false, 0, 0, false, 0, false, 0, [])

  // ----- Canonical keys -----

  datatype PreKey = BeforeAny | PreRelease(kind: nat, num: nat) | AfterAny

  datatype LocalPart = Text(text: string) | Number(num: nat)

  datatype Key = Key(epoch: nat, release: seq<int>, pre: PreKey, post: Option<nat>, dev: Option<nat>,
                     local: seq<LocalPart>)

  /** The release without trailing zeros. */
  function Trim(release: seq<nat>): (t: seq<nat>)
    ensures |t| <= |release| && t == release[..|t|]
    ensures t != [] ==> t[|t| - 1] != 0
    ensures forall i :: |t| <= i < |release| ==> release[i] == 0
  {
    if release == [] || release[|release| - 1] != 0 then release else Trim(release[..|release| - 1])
  }

  const MAX_INT := 0x7fff_ffff_ffff_ffff

  function Digits(s: string): (n: Option<nat>)
  {
    if s == [] then Some(0)
    else if !('0' <= s[|s| - 1] <= '9') then None
    else
      var rest := Digits(s[..|s| - 1]);
      if rest.None? then None else Some(rest.value * 10 + (s[|s| - 1] as int - '0' as int))
  }

  /** strconv.Atoi on a local segment, which holds only letters and digits: digits that fit 64 bits. */
  function Atoi(s: string): Option<nat> {
    var n := Digits(s);
    if s == [] || n.None? || n.value > MAX_INT then None else n
  }

  function PartOf(s: string): LocalPart {
    var n := Atoi(s);
    if n.Some? then Number(n.value) else Text(s)
  }

  function PartsOf(local: seq<string>): (parts: seq<LocalPart>)
    ensures |parts| == |local| && forall i :: 0 <= i < |local| ==> parts[i] == PartOf(local[i])
  {
    seq(|local|, i requires 0 <= i < |local| => PartOf(local[i]))
  }

  function PreKeyOf(v: RawVersion): PreKey {
    if v.hasPre then PreRelease(v.preKind, v.preNum)
    else if v.hasDev && !v.hasPost then BeforeAny
    else AfterAny
  }

  function KeyOf(v: RawVersion): Key {
    Key(v.epoch, Trim(v.release), PreKeyOf(v),
        if v.hasPost then Some(v.postNum) else None,
        if v.hasDev then Some(v.devNum) else None,
        PartsOf(v.local))
  }

  // ----- The order of keys -----

  function PreRank(p: PreKey): int {
    match p
    case BeforeAny => -1
    case PreRelease(_, _) => 0
    case AfterAny => 1
  }

  function ComparePreKey(a: PreKey, b: PreKey): int {
    if a.PreRelease? && b.PreRelease? then Then(CompareInt(a.kind, b.kind), CompareInt(a.num, b.num))
    else CompareInt(PreRank(a), PreRank(b))
  }

  /** No post-release sorts before any. */
  function ComparePost(a: Option<nat>, b: Option<nat>): int {
    match (a, b)
    case (None, None) => 0
    case (None, Some(_)) => -1
    case (Some(_), None) => 1
    case (Some(x), Some(y)) => CompareInt(x, y)
  }

  /** No development release sorts after any. */
  function CompareDev(a: Option<nat>, b: Option<nat>): int {
    match (a, b)
    case (None, None) => 0
    case (None, Some(_)) => 1
    case (Some(_), None) => -1
    case (Some(x), Some(y)) => CompareInt(x, y)
  }

  /** Numeric segments sort above textual ones. */
  function ComparePart(a: LocalPart, b: LocalPart): int {
    match (a, b)
    case (Number(x), Number(y)) => CompareInt(x, y)
    case (Number(_), Text(_)) => 1
    case (Text(_), Number(_)) => -1
    case (Text(x), Text(y)) => CompareText(x, y)
  }

  function CompareSegments(a: seq<int>, b: seq<int>): int { Lex<int>(CompareInt, a, b) }

  function CompareParts(a: seq<LocalPart>, b: seq<LocalPart>): int { Lex(ComparePart, a, b) }

  function FromDev(a: Key, b: Key): int { Then(CompareDev(a.dev, b.dev), CompareParts(a.local, b.local)) }

  function FromPost(a: Key, b: Key): int { Then(ComparePost(a.post, b.post), FromDev(a, b)) }

  function FromPre(a: Key, b: Key): int { Then(ComparePreKey(a.pre, b.pre), FromPost(a, b)) }

  function FromRelease(a: Key, b: Key): int { Then(CompareSegments(a.release, b.release), FromPre(a, b)) }

  /** Epoch, release, pre-release, post-release, development release, local part: the first difference decides. */
  function CompareKey(a: Key, b: Key): int { Then(CompareInt(a.epoch, b.epoch), FromRelease(a, b)) }

  lemma PartsOrder()
    ensures TotalOrder(ComparePart)
  {
    TextIsTotalOrder();
    forall a, b, c | ComparePart(a, b) <= 0 && ComparePart(b, c) <= 0 ensures ComparePart(a, c) <= 0 {
      if a.Text? && c.Text? {
        assert b.Text? && CompareText(a.text, b.text) <= 0 && CompareText(b.text, c.text) <= 0;
      }
    }
    forall a, b ensures ComparePart(a, b) < 0 <==> ComparePart(b, a) > 0 {
      if a.Text? && b.Text? {
        assert CompareText(a.text, b.text) < 0 <==> CompareText(b.text, a.text) > 0;
      }
    }
    forall a, b ensures ComparePart(a, b) == 0 <==> a == b {
      if a.Text? && b.Text? {
        assert CompareText(a.text, b.text) == 0 <==> a.text == b.text;
      }
    }
  }

  lemma SegmentsOrder()
    ensures TotalOrder(CompareSegments)
  {
    IntOrder();
    LexIsTotalOrder<int>(CompareInt);
    var lex := (a: seq<int>, b: seq<int>) => Lex<int>(CompareInt, a, b);
    assert forall a, b {:trigger CompareSegments(a, b)} :: CompareSegments(a, b) == lex(a, b);
  }

  lemma LocalOrder()
    ensures TotalOrder(CompareParts)
  {
    PartsOrder();
    LexIsTotalOrder(ComparePart);
    var lex := (a: seq<LocalPart>, b: seq<LocalPart>) => Lex(ComparePart, a, b);
    assert forall a, b {:trigger CompareParts(a, b)} :: CompareParts(a, b) == lex(a, b);
  }

  lemma FromDevPreorder()
    ensures TotalPreorder(FromDev)
  {
    var dev := (a: Key, b: Key) => CompareDev(a.dev, b.dev);
    var local := (a: Key, b: Key) => CompareParts(a.local, b.local);
    assert TotalPreorder(local) by { LocalOrder(); ByKeyIsPreorder((k: Key) => k.local, CompareParts, local); }
    ThenIsPreorder(dev, local, FromDev);
  }

  lemma FromPostPreorder()
    ensures TotalPreorder(FromPost)
  {
    FromDevPreorder();
    var post := (a: Key, b: Key) => ComparePost(a.post, b.post);
    ThenIsPreorder(post, FromDev, FromPost);
  }

  lemma FromPrePreorder()
    ensures TotalPreorder(FromPre)
  {
    FromPostPreorder();
    var pre := (a: Key, b: Key) => ComparePreKey(a.pre, b.pre);
    ThenIsPreorder(pre, FromPost, FromPre);
  }

  lemma FromReleasePreorder()
    ensures TotalPreorder(FromRelease)
  {
    FromPrePreorder();
    var release := (a: Key, b: Key) => CompareSegments(a.release, b.release);
    assert TotalPreorder(release) by {
      SegmentsOrder();
      ByKeyIsPreorder((k: Key) => k.release, CompareSegments, release);
    }
    ThenIsPreorder(release, FromPre, FromRelease);
  }

  lemma EqualKeys(a: Key, b: Key)
    requires CompareKey(a, b) == 0
    ensures a == b
  {
    SegmentsOrder();
    LocalOrder();
    assert CompareSegments(a.release, b.release) == 0 && CompareParts(a.local, b.local) == 0;
  }

  /** Canonical keys are linearly ordered. */
  lemma KeyOrder()
    ensures TotalOrder(CompareKey)
  {
    FromReleasePreorder();
    var epoch := (a: Key, b: Key) => CompareInt(a.epoch, b.epoch);
    ThenIsPreorder(epoch, FromRelease, CompareKey);
    forall a, b | CompareKey(a, b) == 0 ensures a == b { EqualKeys(a, b); }
    SeparatingIsTotal(CompareKey);
  }

  // ----- Version.Compare -----

  /** What Compare returns, by its specification below. */
  function CompareVersions(a: RawVersion, b: RawVersion): int {
    CompareKey(KeyOf(a), KeyOf(b))
  }

  /**
   Version.Compare is a total preorder, and two versions compare equal exactly when their
   canonical keys are equal.
   */
  lemma VersionOrder()
    ensures TotalPreorder(CompareVersions)
    ensures forall a, b :: CompareVersions(a, b) == 0 <==> KeyOf(a) == KeyOf(b)
  {
    KeyOrder();
  }

  function At(release: seq<nat>, i: nat): nat { if i < |release| then release[i] else 0 }

  lemma TrimAt(release: seq<nat>, i: nat)
    ensures At(Trim(release), i) == At(release, i)
  {
  }

  /** On releases without trailing zeros, the first place where the padded releases differ decides. */
  lemma {:induction false} LexAt(a: seq<nat>, b: seq<nat>, k: nat)
    requires (a != [] ==> a[|a| - 1] != 0) && (b != [] ==> b[|b| - 1] != 0)
    requires (forall i :: 0 <= i < k ==> At(a, i) == At(b, i)) && At(a, k) != At(b, k)
    ensures CompareSegments(a, b) == CompareInt(At(a, k), At(b, k))
    decreases k
  {
    if k > 0 && a != [] && b != [] {
      assert At(a, 0) == At(b, 0);
      forall i | 0 <= i < k - 1 ensures At(a[1..], i) == At(b[1..], i) {
        assert At(a, i + 1) == At(b, i + 1);
      }
      assert At(a[1..], k - 1) == At(a, k) && At(b[1..], k - 1) == At(b, k);
      LexAt(a[1..], b[1..], k - 1);
    }
  }

  lemma TrimNotLonger(a: seq<nat>, b: seq<nat>)
    requires forall i :: 0 <= i < |a| || 0 <= i < |b| ==> At(a, i) == At(b, i)
    ensures |Trim(a)| <= |Trim(b)|
  {
    if Trim(a) != [] {
      var last := |Trim(a)| - 1;
      assert At(a, last) == At(b, last);
    }
  }

  lemma TrimEqual(a: seq<nat>, b: seq<nat>)
    requires forall i :: 0 <= i < |a| || 0 <= i < |b| ==> At(a, i) == At(b, i)
    ensures Trim(a) == Trim(b)
  {
    var s, t := Trim(a), Trim(b);
    TrimNotLonger(a, b);
    TrimNotLonger(b, a);
    forall i | 0 <= i < |s| ensures s[i] == t[i] {
      assert At(a, i) == At(b, i);
    }
  }

  // ----- The order of PEP 440, said on the fields -----

  /** The releases, padded with zeros, first differ at place i, and there a is smaller. */
  ghost predicate LowerAt(a: seq<nat>, b: seq<nat>, i: nat) {
    At(a, i) < At(b, i) && forall j :: 0 <= j < i ==> At(a, j) == At(b, j)
  }

  ghost predicate LowerRelease(a: seq<nat>, b: seq<nat>) { exists i: nat :: LowerAt(a, b, i) }

  ghost predicate EqualRelease(a: seq<nat>, b: seq<nat>) { forall i: nat :: At(a, i) == At(b, i) }

  /** A development release of a final release. */
  predicate DevOfFinal(v: RawVersion) { v.hasDev && !v.hasPre && !v.hasPost }

  /** Development releases of the final release come first, then its pre-releases by kind and number. */
  predicate LowerPre(a: RawVersion, b: RawVersion) {
    || (DevOfFinal(a) && !DevOfFinal(b))
    || (a.hasPre && !b.hasPre && !DevOfFinal(b))
    || (a.hasPre && b.hasPre && (a.preKind < b.preKind || (a.preKind == b.preKind && a.preNum < b.preNum)))
  }

  predicate LowerPost(a: RawVersion, b: RawVersion) { b.hasPost && (a.hasPost ==> a.postNum < b.postNum) }

  predicate LowerDev(a: RawVersion, b: RawVersion) { a.hasDev && (b.hasDev ==> a.devNum < b.devNum) }

  /** A number is above every text; numbers go by value and texts by the dictionary. */
  ghost predicate LowerPart(x: string, y: string) {
    var m, n := Atoi(x), Atoi(y);
    if n.Some? then m.Some? ==> m.value < n.value else m.None? && InDictionaryOrder(x, y)
  }

  predicate SamePart(x: string, y: string) {
    if Atoi(x).Some? then Atoi(x) == Atoi(y) else x == y
  }

  ghost predicate LowerLocalAt(a: seq<string>, b: seq<string>, i: nat) {
    && i <= |a| && i <= |b|
    && (forall j :: 0 <= j < i ==> SamePart(a[j], b[j]))
    && (if i < |a| && i < |b| then LowerPart(a[i], b[i]) else i == |a| < |b|)
  }

  ghost predicate LowerLocal(a: seq<string>, b: seq<string>) { exists i: nat :: LowerLocalAt(a, b, i) }

  /** The order that PEP 440 defines; each line speaks only where those before it leave a tie. */
  ghost predicate Precedes(a: RawVersion, b: RawVersion) {
    a.epoch < b.epoch || (a.epoch == b.epoch &&
    (LowerRelease(a.release, b.release) || (EqualRelease(a.release, b.release) &&
    (LowerPre(a, b) || (!LowerPre(b, a) &&
    (LowerPost(a, b) || (!LowerPost(b, a) &&
    (LowerDev(a, b) || (!LowerDev(b, a) &&
    LowerLocal(a.local, b.local))))))))))
  }

  lemma ReleaseMeaning(a: seq<nat>, b: seq<nat>)
    ensures CompareSegments(Trim(a), Trim(b)) < 0 <==> LowerRelease(a, b)
    ensures CompareSegments(Trim(a), Trim(b)) == 0 <==> EqualRelease(a, b)
  {
    forall i: nat ensures At(Trim(a), i) == At(a, i) && At(Trim(b), i) == At(b, i) {
      TrimAt(a, i);
      TrimAt(b, i);
    }
    if EqualRelease(a, b) {
      TrimEqual(a, b);
      IntOrder();
      LexZero<int>(CompareInt, Trim(a), Trim(b));
    } else {
      var k := FirstDifference(a, b);
      LexAt(Trim(a), Trim(b), k);
      assert At(a, k) < At(b, k) ==> LowerAt(a, b, k);
      forall i: nat | LowerAt(a, b, i) ensures i == k {
        assert At(a, i) != At(b, i) && (i < k ==> At(a, i) == At(b, i));
      }
    }
  }

  /** The first place where the padded releases differ. */
  ghost function FirstDifference(a: seq<nat>, b: seq<nat>): (k: nat)
    requires !EqualRelease(a, b)
    ensures At(a, k) != At(b, k) && forall i :: 0 <= i < k ==> At(a, i) == At(b, i)
  {
    var n: nat :| At(a, n) != At(b, n);
    FirstDifferenceFrom(a, b, 0, n)
  }

  ghost function FirstDifferenceFrom(a: seq<nat>, b: seq<nat>, i: nat, n: nat): (k: nat)
    requires i <= n && At(a, n) != At(b, n) && forall j :: 0 <= j < i ==> At(a, j) == At(b, j)
    ensures At(a, k) != At(b, k) && forall j :: 0 <= j < k ==> At(a, j) == At(b, j)
    decreases n - i
  {
    if At(a, i) != At(b, i) then i else FirstDifferenceFrom(a, b, i + 1, n)
  }

  lemma PartMeaning(x: string, y: string)
    ensures ComparePart(PartOf(x), PartOf(y)) < 0 <==> LowerPart(x, y)
    ensures ComparePart(PartOf(x), PartOf(y)) == 0 <==> SamePart(x, y)
  {
    TextIsDictionary(x, y);
    TextIsTotalOrder();
    assert CompareText(x, y) == 0 <==> x == y;
  }

  lemma LocalMeaning(a: seq<string>, b: seq<string>)
    ensures CompareParts(PartsOf(a), PartsOf(b)) < 0 <==> LowerLocal(a, b)
  {
    var s, t := PartsOf(a), PartsOf(b);
    LexBelow(ComparePart, s, t);
    forall i: nat ensures BelowAt(ComparePart, s, t, i) <==> LowerLocalAt(a, b, i) {
      forall j | 0 <= j < |a| && j < |b|
        ensures ComparePart(s[j], t[j]) < 0 <==> LowerPart(a[j], b[j])
        ensures ComparePart(s[j], t[j]) == 0 <==> SamePart(a[j], b[j])
      {
        PartMeaning(a[j], b[j]);
      }
    }
    if i: nat :| BelowAt(ComparePart, s, t, i) {
      assert LowerLocalAt(a, b, i);
    }
    if i: nat :| LowerLocalAt(a, b, i) {
      assert BelowAt(ComparePart, s, t, i);
    }
  }

  lemma SuffixMeaning(a: RawVersion, b: RawVersion)
    ensures var p := ComparePreKey(KeyOf(a).pre, KeyOf(b).pre);
      (p < 0 <==> LowerPre(a, b)) && (p > 0 <==> LowerPre(b, a))
    ensures var p := ComparePost(KeyOf(a).post, KeyOf(b).post);
      (p < 0 <==> LowerPost(a, b)) && (p > 0 <==> LowerPost(b, a))
    ensures var p := CompareDev(KeyOf(a).dev, KeyOf(b).dev);
      (p < 0 <==> LowerDev(a, b)) && (p > 0 <==> LowerDev(b, a))
  {
  }

  /** One version compares below another exactly when PEP 440 puts it first. */
  lemma ComparesByPrecedence(a: RawVersion, b: RawVersion)
    ensures CompareVersions(a, b) < 0 <==> Precedes(a, b)
    ensures CompareVersions(a, b) > 0 <==> Precedes(b, a)
    ensures CompareVersions(a, b) == 0 <==> !Precedes(a, b) && !Precedes(b, a)
  {
    BelowByPrecedence(a, b);
    BelowByPrecedence(b, a);
    VersionOrder();
  }

  lemma BelowByPrecedence(a: RawVersion, b: RawVersion)
    ensures CompareVersions(a, b) < 0 <==> Precedes(a, b)
  {
    ReleaseMeaning(a.release, b.release);
    SuffixMeaning(a, b);
    LocalMeaning(a.local, b.local);
  }

  /** Padding with zeros gives the order of the releases without trailing zeros. */
  method CompareRelease(left: seq<nat>, right: seq<nat>) returns (c: int)
    ensures c == CompareSegments(Trim(left), Trim(right))
  {
    var length := if |left| > |right| then |left| else |right|;
    for index := 0 to length
      invariant forall i :: 0 <= i < index ==> At(left, i) == At(right, i)
    {
      var leftPart, rightPart := 0, 0;
      if index < |left| {
        leftPart := left[index];
      }
      if index < |right| {
        rightPart := right[index];
      }
      if CompareInt(leftPart, rightPart) != 0 {
        forall i | 0 <= i <= index ensures At(Trim(left), i) == At(left, i) && At(Trim(right), i) == At(right, i) {
          TrimAt(left, i);
          TrimAt(right, i);
        }
        LexAt(Trim(left), Trim(right), index);
        return CompareInt(leftPart, rightPart);
      }
    }
    TrimEqual(left, right);
    IntOrder();
    LexZero<int>(CompareInt, Trim(left), Trim(right));
    return 0;
  }

  method CompareLocal(left: seq<string>, right: seq<string>) returns (c: int)
    ensures c == CompareParts(PartsOf(left), PartsOf(right))
  {
    if |left| == 0 && |right| == 0 {
      return 0;
    }
    if |left| == 0 {
      return -1;
    }
    if |right| == 0 {
      return 1;
    }
    var length := if |left| < |right| then |left| else |right|;
    ghost var l, r := PartsOf(left), PartsOf(right);
    for index := 0 to length
      invariant CompareParts(l[index..], r[index..]) == CompareParts(l, r)
    {
      var leftNumber, rightNumber := Atoi(left[index]), Atoi(right[index]);
      assert l[index..][0] == PartOf(left[index]) && r[index..][0] == PartOf(right[index]);
      assert l[index..][1..] == l[index + 1..] && r[index..][1..] == r[index + 1..];
      if leftNumber.Some? && rightNumber.Some? {
        if CompareInt(leftNumber.value, rightNumber.value) != 0 {
          return CompareInt(leftNumber.value, rightNumber.value);
        }
      } else if leftNumber.Some? {
        return 1;
      } else if rightNumber.Some? {
        return -1;
      } else if CompareText(left[index], right[index]) != 0 {
        return CompareText(left[index], right[index]);
      }
    }
    return CompareInt(|left|, |right|);
  }

  function ComparePre(left: RawVersion, right: RawVersion): int {
    var (leftRank, leftKind, leftNum) :=
      if left.hasPre then (0, left.preKind, left.preNum)
      else if left.hasDev && !left.hasPost then (-1, 0, 0) else (1, 0, 0);
    var (rightRank, rightKind, rightNum) :=
      if right.hasPre then (0, right.preKind, right.preNum)
      else if right.hasDev && !right.hasPost then (-1, 0, 0) else (1, 0, 0);
    if CompareInt(leftRank, rightRank) != 0 then CompareInt(leftRank, rightRank)
    else if CompareInt(leftKind, rightKind) != 0 then CompareInt(leftKind, rightKind)
    else CompareInt(leftNum, rightNum)
  }

  function CompareOptionalNumber(leftSet: bool, left: nat, rightSet: bool, right: nat, missingRank: int): int {
    if !leftSet && !rightSet then 0
    else if !leftSet then missingRank
    else if !rightSet then -missingRank
    else CompareInt(left, right)
  }

  /** The comparisons from the pre-release on. */
  method CompareSuffixes(v: RawVersion, other: RawVersion) returns (c: int)
    ensures c == FromPre(KeyOf(v), KeyOf(other))
  {
    c := ComparePre(v, other);
    if c != 0 {
      return;
    }
    c := CompareOptionalNumber(v.hasPost, v.postNum, other.hasPost, other.postNum, -1);
    if c != 0 {
      return;
    }
    c := CompareOptionalNumber(v.hasDev, v.devNum, other.hasDev, other.devNum, 1);
    if c != 0 {
      return;
    }
    c := CompareLocal(v.local, other.local);
  }

  /** Version.Compare. */
  method Compare(v: RawVersion, other: RawVersion) returns (c: int)
    ensures c == CompareVersions(v, other)
    ensures c < 0 <==> Precedes(v, other)
    ensures c > 0 <==> Precedes(other, v)
  {
    ComparesByPrecedence(v, other);
    c := CompareInt(v.epoch, other.epoch);
    if c != 0 {
      return;
    }
    c := CompareRelease(v.release, other.release);
    if c != 0 {
      return;
    }
    c := CompareSuffixes(v, other);
  }
}
