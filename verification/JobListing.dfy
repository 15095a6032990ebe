/** Listing jobs page by page with keyset cursors. */
module JobListing {
  import opened Wrappers
  import opened Ordering
  import opened Sorting
  import opened JobTables

  /** The columns that a cursor encodes. */
  datatype Position = Position(createdAt: Time, id: JobId)

  /** ORDER BY created_at DESC, id DESC: negative when a is listed before b. */
  function CompareListed(a: Position, b: Position): int {
    if a.createdAt != b.createdAt then CompareInt(b.createdAt, a.createdAt) else CompareText(b.id, a.id)
  }

  /** Newer first; of two rows made at the same time, the one whose id is later in the dictionary. */
  ghost predicate ListedBefore(a: Position, b: Position) {
    a.createdAt > b.createdAt || (a.createdAt == b.createdAt && InDictionaryOrder(b.id, a.id))
  }

  lemma ComparesListed(a: Position, b: Position)
    ensures CompareListed(a, b) < 0 <==> ListedBefore(a, b)
  {
    TextIsDictionary(b.id, a.id);
  }

  ghost predicate NewestFirst(listed: seq<Position>) {
    forall i, j :: 0 <= i < j < |listed| ==> ListedBefore(listed[i], listed[j])
  }

  lemma SortedNewestFirst(listed: seq<Position>)
    requires StrictlySortedBy(CompareListed, listed)
    ensures NewestFirst(listed)
  {
    forall i, j | 0 <= i < j < |listed| ensures ListedBefore(listed[i], listed[j]) {
      ComparesListed(listed[i], listed[j]);
    }
  }

  lemma ListedOrder()
    ensures TotalOrder(CompareListed) && TotalPreorder(CompareListed)
  {
    TextIsTotalOrder();
    forall a, b, c | CompareListed(a, b) <= 0 && CompareListed(b, c) <= 0 ensures CompareListed(a, c) <= 0 {
      assert CompareText(c.id, b.id) <= 0 && CompareText(b.id, a.id) <= 0 ==> CompareText(c.id, a.id) <= 0;
    }
    forall a, b ensures CompareListed(a, b) < 0 <==> CompareListed(b, a) > 0 {
      assert CompareText(b.id, a.id) < 0 <==> CompareText(a.id, b.id) > 0;
    }
  }

  function PositionOf(jobs: map<JobId, Job>, id: JobId): Position
    requires id in jobs
  {
    Position(jobs[id].createdAt, id)
  }

  lemma ListedTransitive(a: Position, b: Position, c: Position)
    requires CompareListed(a, b) < 0 && CompareListed(b, c) < 0
    ensures CompareListed(a, c) < 0
  {
    ListedOrder();
    assert CompareListed(a, c) <= 0;
    assert CompareListed(a, c) == 0 ==> a == c;
    assert CompareListed(b, a) > 0;
  }

  lemma ListedAntisymmetric(a: Position, b: Position)
    requires CompareListed(a, b) < 0
    ensures CompareListed(b, a) > 0 && a != b
  {
    ListedOrder();
  }

  /** The rows that the WHERE clause keeps: those that match and come after the cursor. */
  predicate Kept(jobs: map<JobId, Job>, matches: Job -> bool, cursor: Option<Position>, p: Position) {
    && p.id in jobs && p == PositionOf(jobs, p.id) && matches(jobs[p.id])
    && (cursor.Some? ==> CompareListed(cursor.value, p) < 0)
  }

  /** Exactly the kept rows in listing order, each once. */
  ghost predicate IsListing(listed: seq<Position>, jobs: map<JobId, Job>, matches: Job -> bool,
                            cursor: Option<Position>) {
    StrictlySortedBy(CompareListed, listed) && forall p :: p in listed <==> Kept(jobs, matches, cursor, p)
  }

  function PageSize(limit: int): (size: nat)
    ensures 1 <= size <= 100
  {
    if limit <= 0 || limit > 100 then 50 else limit
  }

  lemma SortLists(found: seq<Position>)
    requires Distinct(found)
    ensures StrictlySortedBy(CompareListed, Sort(CompareListed, found))
    ensures forall p :: p in Sort(CompareListed, found) <==> p in found
  {
    ListedOrder();
    SortSorts(CompareListed, found);
    SortIsStrict(CompareListed, found);
    forall p ensures p in Sort(CompareListed, found) <==> p in found {
      assert p in multiset(Sort(CompareListed, found)) <==> p in multiset(found);
    }
  }

  /** The first rows of a listing, and the last of them as the cursor exactly when more follow. */
  ghost predicate IsPage(all: seq<Position>, limit: int, page: seq<Position>, next: Option<Position>) {
    if |all| > PageSize(limit) then page == all[..PageSize(limit)] && next == Some(all[PageSize(limit) - 1])
    else page == all && next.None?
  }

  /** The rows that the WHERE clause keeps, in whatever order they are met. */
  method Select(jobs: map<JobId, Job>, matches: Job -> bool, cursor: Option<Position>) returns (found: seq<Position>)
    ensures Distinct(found) && forall p :: p in found <==> Kept(jobs, matches, cursor, p)
  {
    found := [];
    var left := jobs.Keys;
    while left != {}
      invariant left <= jobs.Keys && Distinct(found)
      invariant forall p :: p in found <==> Kept(jobs, matches, cursor, p) && p.id !in left
      decreases |left|
    {
      var id :| id in left;
      left := left - {id};
      if Kept(jobs, matches, cursor, PositionOf(jobs, id)) {
        found := found + [PositionOf(jobs, id)];
      }
    }
  }

  lemma PageIsAfter(jobs: map<JobId, Job>, matches: Job -> bool, cursor: Option<Position>, page: seq<Position>,
                    all: seq<Position>)
    requires IsListing(all, jobs, matches, cursor) && |page| <= |all| && page == all[..|page|]
    ensures forall p :: p in page ==>
            && p.id in jobs && matches(jobs[p.id]) && p.createdAt == jobs[p.id].createdAt
            && (cursor.Some? ==> ListedBefore(cursor.value, p))
  {
    forall p | p in page
      ensures Kept(jobs, matches, cursor, p) && (cursor.Some? ==> ListedBefore(cursor.value, p))
    {
      assert p in all;
      if cursor.Some? {
        ComparesListed(cursor.value, p);
      }
    }
  }

  /** One query: filter, sort, and keep one row more than fits to know whether a page follows. */
  method List(jobs: map<JobId, Job>, matches: Job -> bool, limit: int, cursor: Option<Position>)
    returns (page: seq<Position>, next: Option<Position>)
    ensures exists all :: IsListing(all, jobs, matches, cursor) && IsPage(all, limit, page, next)
    ensures NewestFirst(page) && forall p :: p in page ==>
              && p.id in jobs && matches(jobs[p.id]) && p.createdAt == jobs[p.id].createdAt
              && (cursor.Some? ==> ListedBefore(cursor.value, p))
    ensures var size := if 1 <= limit <= 100 then limit else 50;
            |page| <= size && (next.Some? ==> |page| == size && next.value == page[size - 1])
  {
    var found := Select(jobs, matches, cursor);
    SortLists(found);
    var sorted := Sort(CompareListed, found);
    var size := PageSize(limit);
    page, next := if |sorted| > size then sorted[..size + 1] else sorted, None;
    if |page| > size {
      next := Some(page[size - 1]);
      page := page[..size];
    }
    assert IsListing(sorted, jobs, matches, cursor) && IsPage(sorted, limit, page, next);
    SortedNewestFirst(sorted);
    PageIsAfter(jobs, matches, cursor, page, sorted);
  }

  /** A row comes after the k-th listed row exactly when it is listed after it. */
  lemma AfterMeansLater(all: seq<Position>, k: nat, i: nat)
    requires StrictlySortedBy(CompareListed, all) && 0 < k <= |all| && i < |all|
    ensures CompareListed(all[k - 1], all[i]) < 0 <==> i >= k
  {
    if i < k - 1 {
      ListedAntisymmetric(all[i], all[k - 1]);
    } else if i == k - 1 {
      ListedOrder();
    }
  }

  /** After a page that is not the last, the next query selects exactly the rest. */
  lemma NextPageIsRest(jobs: map<JobId, Job>, matches: Job -> bool, cursor: Option<Position>, all: seq<Position>,
                       k: nat)
    requires IsListing(all, jobs, matches, cursor) && 0 < k <= |all|
    ensures IsListing(all[k..], jobs, matches, Some(all[k - 1]))
  {
    var last := all[k - 1];
    assert last in all;
    forall p ensures p in all[k..] <==> Kept(jobs, matches, Some(last), p) {
      if p in all[k..] {
        var i :| 0 <= i < |all[k..]| && all[k..][i] == p;
        assert p == all[k + i] && p in all;
        AfterMeansLater(all, k, k + i);
      }
      if Kept(jobs, matches, Some(last), p) {
        if cursor.Some? {
          ListedTransitive(cursor.value, last, p);
        }
        assert p in all;
        var i :| 0 <= i < |all| && all[i] == p;
        AfterMeansLater(all, k, i);
        assert all[k..][i - k] == p;
      }
    }
  }

  lemma ListingUnique(a: seq<Position>, b: seq<Position>, jobs: map<JobId, Job>, matches: Job -> bool,
                      cursor: Option<Position>)
    requires IsListing(a, jobs, matches, cursor) && IsListing(b, jobs, matches, cursor)
    ensures a == b
  {
    ListedOrder();
    SortedUnique(CompareListed, a, b);
  }

  /** What is left after some pages: nothing, or exactly what the cursor selects. */
  ghost predicate Remains(jobs: map<JobId, Job>, matches: Job -> bool, next: Option<Position>, tail: seq<Position>) {
    if next.Some? then tail != [] && IsListing(tail, jobs, matches, next) else tail == []
  }

  lemma PageLeavesRest(jobs: map<JobId, Job>, matches: Job -> bool, limit: int, cursor: Option<Position>,
                       all: seq<Position>, page: seq<Position>, next: Option<Position>)
    requires IsListing(all, jobs, matches, cursor) && IsPage(all, limit, page, next)
    ensures |page| <= |all| && all == page + all[|page|..] && Remains(jobs, matches, next, all[|page|..])
    ensures next.Some? ==> page != []
  {
    if next.Some? {
      NextPageIsRest(jobs, matches, cursor, all, |page|);
    }
  }

  /** One more page of a listing. */
  method NextPage(jobs: map<JobId, Job>, matches: Job -> bool, limit: int, cursor: Option<Position>,
                  ghost all: seq<Position>)
    returns (page: seq<Position>, next: Option<Position>)
    requires IsListing(all, jobs, matches, cursor)
    ensures |page| <= |all| && all == page + all[|page|..] && Remains(jobs, matches, next, all[|page|..])
    ensures next.Some? ==> page != []
  {
    page, next := List(jobs, matches, limit, cursor);
    ghost var found :| IsListing(found, jobs, matches, cursor) && IsPage(found, limit, page, next);
    ListingUnique(found, all, jobs, matches, cursor);
    PageLeavesRest(jobs, matches, limit, cursor, found, page, next);
  }

  lemma ListingExists(jobs: map<JobId, Job>, matches: Job -> bool, cursor: Option<Position>)
      returns (all: seq<Position>)
    ensures IsListing(all, jobs, matches, cursor)
  {
    var kept := set id | id in jobs && Kept(jobs, matches, cursor, PositionOf(jobs, id)) :: PositionOf(jobs, id);
    ListedOrder();
    all := ListExists(CompareListed, kept);
    forall p ensures p in all <==> Kept(jobs, matches, cursor, p) {
      assert p in all <==> p in kept;
    }
  }

  /**
   Following NextCursor from the empty cursor over a fixed table ends, and the
   pages put together are exactly the matching rows, newest first, each once.
   */
  method ListAll(jobs: map<JobId, Job>, matches: Job -> bool, limit: int) returns (listed: seq<Position>)
    ensures IsListing(listed, jobs, matches, None) && NewestFirst(listed)
    ensures forall id :: id in jobs && matches(jobs[id]) <==> exists p :: p in listed && p.id == id
  {
    ghost var whole := ListingExists(jobs, matches, None);
    var page, next := NextPage(jobs, matches, limit, None, whole);
    ghost var tail := whole[|page|..];
    listed := page;
    while next.Some?
      invariant whole == listed + tail && Remains(jobs, matches, next, tail)
      decreases |tail|, next.Some?
    {
      page, next := NextPage(jobs, matches, limit, next, tail);
      assert listed + (page + tail[|page|..]) == (listed + page) + tail[|page|..];
      listed, tail := listed + page, tail[|page|..];
    }
    assert whole == listed;
    SortedNewestFirst(listed);
    forall id | id in jobs && matches(jobs[id]) ensures exists p :: p in listed && p.id == id {
      assert PositionOf(jobs, id) in listed;
    }
  }
}
