/** The web service's in-memory stores of viewers and results, and the two
    housekeeping jobs run on them: dropping entries older than the retention
    period, and trimming a store that has grown past its item limit to its
    newest entries. A store is a dictionary in insertion order; it is
    modelled as the sequence of its entries, whose ids are distinct. The
    creation time stamp is an integer number of seconds, absent when the
    entry has none. */
module Storage {
  import opened Wrappers

  const RetentionDays: int := 30
  const SecondsPerDay: int := 86400
  const MaxStorageItems: nat := 10000

  datatype Entry = Entry(id: string, createdAt: Option<int>)

  predicate DistinctIds(s: seq<Entry>) {
    forall i, j :: 0 <= i < j < |s| ==> s[i].id != s[j].id
  }

  lemma DistinctCons(a: Entry, r: seq<Entry>)
    ensures DistinctIds([a] + r) <==> (forall e :: e in r ==> e.id != a.id) && DistinctIds(r)
  {
    var s := [a] + r;
    if (forall e :: e in r ==> e.id != a.id) && DistinctIds(r) {
      forall i, j | 0 <= i < j < |s| ensures s[i].id != s[j].id {
        if i > 0 {
          assert s[i] == r[i - 1] && s[j] == r[j - 1];
        } else {
          assert s[j] in r;
        }
      }
    }
    if DistinctIds(s) {
      forall e | e in r ensures e.id != a.id {
        var k :| 0 <= k < |r| && r[k] == e;
        assert s[0] == a && s[k + 1] == e;
      }
      forall i, j | 0 <= i < j < |r| ensures r[i].id != r[j].id {
        assert s[i + 1] == r[i] && s[j + 1] == r[j];
      }
    }
  }

  // ----------------------------------------------------------- retention

  /** The cut-off: now minus the retention period. */
  function Threshold(now: int): int {
    now - RetentionDays * SecondsPerDay
  }

  /** The cleanup reads a missing time stamp as the current time. */
  function CreatedOrNow(e: Entry, now: int): int {
    if e.createdAt.Some? then e.createdAt.value else now
  }

  predicate Expired(e: Entry, now: int)
    ensures Expired(e, now) ==> e.createdAt.Some?
  {
    CreatedOrNow(e, now) < Threshold(now)
  }

  /** The entries the cleanup leaves, in their order. */
  function Unexpired(s: seq<Entry>, now: int): (r: seq<Entry>)
    ensures forall e :: e in r <==> e in s && !Expired(e, now)
    ensures |r| <= |s|
  {
    if s == [] then []
    else (if Expired(s[0], now) then [] else [s[0]]) + Unexpired(s[1..], now)
  }

  /** An entry with no time stamp, or one at or after the cut-off, is never
      expired; one strictly before the cut-off always is. */
  lemma ExpiredExactly(e: Entry, now: int)
    ensures e.createdAt.None? ==> !Expired(e, now)
    ensures e.createdAt.Some? ==> (Expired(e, now) <==> e.createdAt.value < now - 30 * 86400)
  {
  }

  /** A store with nothing expired is left exactly as it was, so cleaning
      twice is cleaning once. */
  lemma {:induction false} UnexpiredUnchanged(s: seq<Entry>, now: int)
    requires forall e :: e in s ==> !Expired(e, now)
    ensures Unexpired(s, now) == s
  {
    if s != [] {
      assert s[0] in s;
      UnexpiredUnchanged(s[1..], now);
      assert [s[0]] + s[1..] == s;
    }
  }

  lemma CleanupIdempotent(s: seq<Entry>, now: int)
    ensures Unexpired(Unexpired(s, now), now) == Unexpired(s, now)
  {
    UnexpiredUnchanged(Unexpired(s, now), now);
  }

  lemma {:induction false} UnexpiredDistinct(s: seq<Entry>, now: int)
    requires DistinctIds(s)
    ensures DistinctIds(Unexpired(s, now))
  {
    if s != [] {
      DistinctCons(s[0], s[1..]);
      assert [s[0]] + s[1..] == s;
      UnexpiredDistinct(s[1..], now);
      if !Expired(s[0], now) {
        DistinctCons(s[0], Unexpired(s[1..], now));
      }
    }
  }

  /** The ids of the expired entries, as the first pass collects them. */
  function ExpiredIdSet(s: seq<Entry>, now: int): set<string> {
    set e | e in s && Expired(e, now) :: e.id
  }

  /** The store after `del` of every id in `ids`. */
  function Without(s: seq<Entry>, ids: set<string>): (r: seq<Entry>)
    ensures forall e :: e in r <==> e in s && e.id !in ids
    ensures ids == {} ==> r == s
  {
    if s == [] then []
    else (if s[0].id in ids then [] else [s[0]]) + Without(s[1..], ids)
  }

  lemma {:induction false} WithoutMore(s: seq<Entry>, ids: set<string>, id: string)
    ensures Without(Without(s, ids), {id}) == Without(s, ids + {id})
  {
    if s != [] {
      WithoutMore(s[1..], ids, id);
      var w := Without(s, ids);
      var w1 := Without(s[1..], ids);
      if s[0].id !in ids {
        assert w == [s[0]] + w1;
        assert w[1..] == w1;
        assert Without(w, {id}) == (if s[0].id == id then [] else [s[0]]) + Without(w1, {id});
      } else {
        assert w == w1;
      }
    }
  }

  /** With distinct ids, deleting the collected ids removes exactly the
      expired entries. */
  lemma {:induction false} WithoutExpired(s: seq<Entry>, now: int, ids: set<string>)
    requires DistinctIds(s)
    requires forall e :: e in s ==> (e.id in ids <==> Expired(e, now))
    ensures Without(s, ids) == Unexpired(s, now)
  {
    if s != [] {
      DistinctCons(s[0], s[1..]);
      assert [s[0]] + s[1..] == s;
      assert s[0] in s;
      WithoutExpired(s[1..], now, ids);
    }
  }

  lemma ExpiredIdsMatch(s: seq<Entry>, now: int)
    requires DistinctIds(s)
    ensures forall e :: e in s ==> (e.id in ExpiredIdSet(s, now) <==> Expired(e, now))
  {
    forall e | e in s && e.id in ExpiredIdSet(s, now) ensures Expired(e, now) {
      var d :| d in s && Expired(d, now) && d.id == e.id;
      var i :| 0 <= i < |s| && s[i] == e;
      var j :| 0 <= j < |s| && s[j] == d;
      assert i == j;
    }
  }

  lemma ExpiredIdSetAppend(s: seq<Entry>, e: Entry, now: int)
    ensures ExpiredIdSet(s + [e], now) == ExpiredIdSet(s, now) + (if Expired(e, now) then {e.id} else {})
  {
    assert forall d :: d in s + [e] <==> d in s || d == e;
  }

  /** The ids listed in q. */
  function IdSet(q: seq<string>): set<string> {
    set x | x in q
  }

  lemma IdSetAppend(q: seq<string>, x: string)
    ensures IdSet(q + [x]) == IdSet(q) + {x}
  {
    assert forall y :: y in q + [x] <==> y in q || y == x;
  }

  /** The first pass of the cleanup: walk the store and note the id of every
      expired entry. */
  method CollectExpired(s: seq<Entry>, now: int) returns (ids: seq<string>)
    ensures IdSet(ids) == ExpiredIdSet(s, now)
  {
    var threshold := Threshold(now);
    ids := [];
    for i := 0 to |s|
      invariant IdSet(ids) == ExpiredIdSet(s[..i], now)
    {
      var createdAt := if s[i].createdAt.Some? then s[i].createdAt.value else now;
      assert s[..i + 1] == s[..i] + [s[i]];
      ExpiredIdSetAppend(s[..i], s[i], now);
      if createdAt < threshold {
        IdSetAppend(ids, s[i].id);
        ids := ids + [s[i].id];
      }
    }
    assert s[..|s|] == s;
  }

  // --------------------------------------------------------- item limit

  /** `created_at` order for the trim: a missing time stamp sorts below
      every time stamp. True when a is not older than b. */
  predicate NotOlder(a: Option<int>, b: Option<int>) {
    b.None? || (a.Some? && a.value >= b.value)
  }

  predicate NewestFirst(s: seq<Entry>) {
    forall i, j :: 0 <= i < j < |s| ==> NotOlder(s[i].createdAt, s[j].createdAt)
  }

  /** Inserts x before the first entry it is not older than, so that x goes
      ahead of the entries with its own time stamp. */
  function Insert(x: Entry, t: seq<Entry>): (r: seq<Entry>)
    ensures multiset(r) == multiset(t) + multiset{x}
    ensures |r| == |t| + 1
  {
    if t == [] || NotOlder(x.createdAt, t[0].createdAt) then [x] + t
    else
      assert t == [t[0]] + t[1..];
      [t[0]] + Insert(x, t[1..])
  }

  /** Python's `sorted(..., key=created_at, reverse=True)`, a stable sort:
      the first entry is inserted last, ahead of its equals. */
  function SortNewestFirst(s: seq<Entry>): (r: seq<Entry>)
    ensures multiset(r) == multiset(s)
    ensures |r| == |s|
  {
    if s == [] then []
    else
      assert s == [s[0]] + s[1..];
      Insert(s[0], SortNewestFirst(s[1..]))
  }

  lemma {:induction false} InsertNewestFirst(x: Entry, t: seq<Entry>)
    requires NewestFirst(t)
    ensures NewestFirst(Insert(x, t))
  {
    var r := Insert(x, t);
    if t == [] || NotOlder(x.createdAt, t[0].createdAt) {
      forall i, j | 0 <= i < j < |r| ensures NotOlder(r[i].createdAt, r[j].createdAt) {
        if i > 0 {
          assert r[i] == t[i - 1] && r[j] == t[j - 1];
        } else {
          assert r[j] == t[j - 1];
        }
      }
    } else {
      InsertNewestFirst(x, t[1..]);
      var rest := Insert(x, t[1..]);
      forall i, j | 0 <= i < j < |r| ensures NotOlder(r[i].createdAt, r[j].createdAt) {
        if i > 0 {
          assert r[i] == rest[i - 1] && r[j] == rest[j - 1];
        } else {
          assert r[j] in multiset(rest);
          if r[j] != x {
            assert r[j] in multiset(t[1..]);
            var k :| 0 <= k < |t[1..]| && t[1..][k] == r[j];
            assert t[k + 1] == r[j];
          }
        }
      }
    }
  }

  lemma {:induction false} SortIsNewestFirst(s: seq<Entry>)
    ensures NewestFirst(SortNewestFirst(s))
  {
    if s != [] {
      SortIsNewestFirst(s[1..]);
      InsertNewestFirst(s[0], SortNewestFirst(s[1..]));
    }
  }

  /** The entries with time stamp k, in order. */
  function WithStamp(s: seq<Entry>, k: Option<int>): seq<Entry> {
    if s == [] then []
    else (if s[0].createdAt == k then [s[0]] else []) + WithStamp(s[1..], k)
  }

  lemma {:induction false} InsertStable(x: Entry, t: seq<Entry>, k: Option<int>)
    requires NewestFirst(t)
    ensures WithStamp(Insert(x, t), k) == (if x.createdAt == k then [x] else []) + WithStamp(t, k)
  {
    if t == [] || NotOlder(x.createdAt, t[0].createdAt) {
      assert ([x] + t)[1..] == t;
    } else {
      assert NewestFirst(t[1..]) by {
        forall i, j | 0 <= i < j < |t[1..]| ensures NotOlder(t[1..][i].createdAt, t[1..][j].createdAt) {
          assert t[1..][i] == t[i + 1] && t[1..][j] == t[j + 1];
        }
      }
      InsertStable(x, t[1..], k);
      var r := Insert(x, t);
      assert r[1..] == Insert(x, t[1..]);
    }
  }

  /** The sort is stable: the entries sharing any one time stamp keep their
      relative order. */
  lemma {:induction false} SortStable(s: seq<Entry>, k: Option<int>)
    ensures WithStamp(SortNewestFirst(s), k) == WithStamp(s, k)
  {
    if s != [] {
      SortStable(s[1..], k);
      SortIsNewestFirst(s[1..]);
      InsertStable(s[0], SortNewestFirst(s[1..]), k);
    }
  }

  lemma {:induction false} InsertDistinct(x: Entry, t: seq<Entry>)
    requires DistinctIds(t) && forall e :: e in t ==> e.id != x.id
    ensures DistinctIds(Insert(x, t))
  {
    if t == [] || NotOlder(x.createdAt, t[0].createdAt) {
      DistinctCons(x, t);
    } else {
      DistinctCons(t[0], t[1..]);
      assert [t[0]] + t[1..] == t;
      InsertDistinct(x, t[1..]);
      var rest := Insert(x, t[1..]);
      forall e | e in rest ensures e.id != t[0].id {
        assert e in multiset(rest);
      }
      DistinctCons(t[0], rest);
    }
  }

  lemma {:induction false} SortDistinct(s: seq<Entry>)
    requires DistinctIds(s)
    ensures DistinctIds(SortNewestFirst(s))
  {
    if s != [] {
      DistinctCons(s[0], s[1..]);
      assert [s[0]] + s[1..] == s;
      SortDistinct(s[1..]);
      forall e | e in SortNewestFirst(s[1..]) ensures e.id != s[0].id {
        assert e in multiset(SortNewestFirst(s[1..]));
      }
      InsertDistinct(s[0], SortNewestFirst(s[1..]));
    }
  }

  /** What the trim leaves: the store itself when it is within the limit,
      otherwise the first MaxStorageItems entries of the newest-first sort,
      in that order. */
  function Limit(s: seq<Entry>): (r: seq<Entry>)
    ensures |r| <= MaxStorageItems && |r| <= |s|
  {
    if |s| <= MaxStorageItems then s else SortNewestFirst(s)[..MaxStorageItems]
  }

  /** After the trim the store holds min(n, MaxStorageItems) of its own
      entries, newest first when it was trimmed, and no dropped entry is
      newer than a kept one. */
  lemma LimitSpec(s: seq<Entry>)
    ensures var r := Limit(s);
      && |r| == (if |s| <= MaxStorageItems then |s| else MaxStorageItems)
      && multiset(r) <= multiset(s)
      && (|s| > MaxStorageItems ==>
            && NewestFirst(r)
            && var dropped := SortNewestFirst(s)[MaxStorageItems..];
               && multiset(r) + multiset(dropped) == multiset(s)
               && forall i, j :: 0 <= i < |r| && 0 <= j < |dropped| ==>
                    NotOlder(r[i].createdAt, dropped[j].createdAt))
  {
    if |s| > MaxStorageItems {
      var t := SortNewestFirst(s);
      SortIsNewestFirst(s);
      assert t == t[..MaxStorageItems] + t[MaxStorageItems..];
      var r := t[..MaxStorageItems];
      var dropped := t[MaxStorageItems..];
      forall i, j | 0 <= i < |r| && 0 <= j < |dropped|
        ensures NotOlder(r[i].createdAt, dropped[j].createdAt)
      {
        assert r[i] == t[i] && dropped[j] == t[MaxStorageItems + j];
      }
    }
  }

  lemma LimitDistinct(s: seq<Entry>)
    requires DistinctIds(s)
    ensures DistinctIds(Limit(s))
  {
    if |s| > MaxStorageItems {
      SortDistinct(s);
    }
  }

  /** The two stores. */
  class Store {
    var viewers: seq<Entry>
    var results: seq<Entry>

    predicate Valid()
      reads this
    {
      DistinctIds(viewers) && DistinctIds(results)
    }

    constructor ()
      ensures Valid() && viewers == [] && results == []
    {
      viewers, results := [], [];
    }

    /** `cleanup_old_data`: for each store, collect the ids of the expired
        entries, then delete them one by one. */
    method CleanupOldData(now: int)
      requires Valid()
      modifies this
      ensures Valid()
      ensures viewers == Unexpired(old(viewers), now)
      ensures results == Unexpired(old(results), now)
    {
      CleanupViewers(now);
      CleanupResults(now);
    }

    method CleanupViewers(now: int)
      requires DistinctIds(viewers)
      modifies this`viewers
      ensures DistinctIds(viewers)
      ensures viewers == Unexpired(old(viewers), now)
    {
      var viewersToRemove := CollectExpired(viewers, now);
      ghost var v0 := viewers;
      for i := 0 to |viewersToRemove|
        invariant viewers == Without(v0, IdSet(viewersToRemove[..i]))
      {
        WithoutMore(v0, IdSet(viewersToRemove[..i]), viewersToRemove[i]);
        assert viewersToRemove[..i + 1] == viewersToRemove[..i] + [viewersToRemove[i]];
        IdSetAppend(viewersToRemove[..i], viewersToRemove[i]);
        viewers := Without(viewers, {viewersToRemove[i]});
      }
      assert viewersToRemove[..|viewersToRemove|] == viewersToRemove;
      ExpiredIdsMatch(v0, now);
      WithoutExpired(v0, now, ExpiredIdSet(v0, now));
      UnexpiredDistinct(v0, now);
    }

    method CleanupResults(now: int)
      requires DistinctIds(results)
      modifies this`results
      ensures DistinctIds(results)
      ensures results == Unexpired(old(results), now)
    {
      var resultsToRemove := CollectExpired(results, now);
      ghost var r0 := results;
      for i := 0 to |resultsToRemove|
        invariant results == Without(r0, IdSet(resultsToRemove[..i]))
      {
        WithoutMore(r0, IdSet(resultsToRemove[..i]), resultsToRemove[i]);
        assert resultsToRemove[..i + 1] == resultsToRemove[..i] + [resultsToRemove[i]];
        IdSetAppend(resultsToRemove[..i], resultsToRemove[i]);
        results := Without(results, {resultsToRemove[i]});
      }
      assert resultsToRemove[..|resultsToRemove|] == resultsToRemove;
      ExpiredIdsMatch(r0, now);
      WithoutExpired(r0, now, ExpiredIdSet(r0, now));
      UnexpiredDistinct(r0, now);
    }

    /** `enforce_storage_limits`: a store over the limit is cleared and
        refilled with its newest MaxStorageItems entries, newest first. */
    method EnforceStorageLimits()
      requires Valid()
      modifies this
      ensures Valid()
      ensures viewers == Limit(old(viewers))
      ensures results == Limit(old(results))
    {
      LimitDistinct(viewers);
      LimitDistinct(results);
      if |viewers| > MaxStorageItems {
        var sorted := SortNewestFirst(viewers);
        viewers := [];
        viewers := sorted[..MaxStorageItems];
      }
      if |results| > MaxStorageItems {
        var sorted := SortNewestFirst(results);
        results := [];
        results := sorted[..MaxStorageItems];
      }
    }
  }
}
