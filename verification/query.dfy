/**
 Listing donations: the optional query parameters are composed into a filter,
 and the listing answers every stored donation the filter admits, newest first.
 */
module Query {
  import opened Text
  import opened Schemas
  import opened Ids
  import opened Store

  /**
   The query string of a listing. `restaurantId` and `search` follow the source's
   truthiness: an empty string is the same as leaving the parameter out.
   */
  datatype ListQuery = ListQuery(
    status: Option<Status>,
    restaurantId: Option<string>,
    excludeClaimed: bool,
    search: Option<string>)

  /** The composed filter: each present condition must hold (a conjunction). */
  datatype Filter = Filter(
    status: Option<Status>,
    restaurantId: Option<string>,
    search: Option<string>)

  /** A present, non-empty string parameter. */
  predicate Given(s: Option<string>) {
    s.Some? && s.value != ""
  }

  /**
   Builds the filter. `status` and `restaurantId` are kept when given;
   `excludeClaimed` then forces the status condition to `available`, replacing
   any given status; a non-empty `search` adds the text condition.
   */
  function BuildFilter(q: ListQuery): (f: Filter)
    ensures q.excludeClaimed ==> f.status == Some(Available)
    ensures !q.excludeClaimed ==> f.status == q.status
    ensures f.restaurantId.Some? <==> Given(q.restaurantId)
    ensures f.restaurantId.Some? ==> f.restaurantId == q.restaurantId
    ensures f.search.Some? <==> Given(q.search)
    ensures f.search.Some? ==> f.search == q.search
  {
    var withStatus := if q.status.Some? then Filter(q.status, None, None) else Filter(None, None, None);
    var withOwner := if Given(q.restaurantId) then withStatus.(restaurantId := q.restaurantId) else withStatus;
    var withExclude := if q.excludeClaimed then withOwner.(status := Some(Available)) else withOwner;
    if Given(q.search) then withExclude.(search := q.search) else withExclude
  }

  /** The text condition: the pattern occurs, ignoring case, in one of the three fields. */
  predicate SearchHit(pattern: string, d: Donation) {
    || ContainsCI(d.foodItem, pattern)
    || ContainsCI(d.restaurantName, pattern)
    || ContainsCI(d.pickupAddress, pattern)
  }

  predicate Matches(f: Filter, d: Donation) {
    && (f.status.Some? ==> d.status == f.status.value)
    && (f.restaurantId.Some? ==> d.restaurantId == f.restaurantId.value)
    && (f.search.Some? ==> SearchHit(f.search.value, d))
  }

  /**
   What a listing query asks for, read straight off its parameters: the
   donations whose status is `available` when claimed ones are excluded, or the
   given status otherwise; owned by the given restaurant id; and mentioning the
   search text in one of the three fields.
   */
  ghost predicate Admits(q: ListQuery, d: Donation) {
    && (q.excludeClaimed ==> d.status == Available)
    && (!q.excludeClaimed && q.status.Some? ==> d.status == q.status.value)
    && (Given(q.restaurantId) ==> d.restaurantId == q.restaurantId.value)
    && (Given(q.search) ==> SearchHit(q.search.value, d))
  }

  /** The composed filter admits exactly what the query asks for. */
  lemma FilterMeaning(q: ListQuery, d: Donation)
    ensures Matches(BuildFilter(q), d) <==> Admits(q, d)
  {
  }

  /** A query without parameters admits every donation. */
  lemma NoParametersMatchAll(d: Donation)
    ensures Matches(BuildFilter(ListQuery(None, None, false, None)), d)
  {
  }

  /**
   With `excludeClaimed` set, the given status makes no difference and only
   available donations are admitted.
   */
  lemma ExcludeClaimedOverridesStatus(q: ListQuery, s: Option<Status>, d: Donation)
    requires q.excludeClaimed
    ensures BuildFilter(q.(status := s)) == BuildFilter(q)
    ensures Matches(BuildFilter(q), d) ==> d.status == Available
  {
  }

  /** Most recently created first. */
  predicate NewestFirst(s: seq<Doc>) {
    forall i, j :: 0 <= i < j < |s| ==> s[i].donation.createdAt >= s[j].donation.createdAt
  }

  /** The stored donations under the keys `ks` that the filter admits, as replies. */
  ghost function SelectedAmong(m: map<ObjectId, Donation>, f: Filter, ks: set<ObjectId>): set<Doc> {
    set k | k in ks && k in m && Matches(f, m[k]) :: Doc(k, m[k])
  }

  /** Every stored donation the filter admits, as replies. */
  ghost function Selected(m: map<ObjectId, Donation>, f: Filter): set<Doc> {
    SelectedAmong(m, f, m.Keys)
  }

  /** Inserts a reply into a newest-first sequence, keeping it newest first. */
  function InsertNewestFirst(x: Doc, s: seq<Doc>): (r: seq<Doc>)
    requires NewestFirst(s)
    ensures NewestFirst(r)
    ensures multiset(r) == multiset(s) + multiset{x}
  {
    if s == [] then [x]
    else if x.donation.createdAt >= s[0].donation.createdAt then [x] + s
    else
      var rest := InsertNewestFirst(x, s[1..]);
      NoNewerThanHead(x, s, rest);
      assert s == [s[0]] + s[1..];
      [s[0]] + rest
  }

  /**
   A reply older than the head of a newest-first sequence, put together with the
   rest of that sequence, is nowhere newer than the head.
   */
  lemma NoNewerThanHead(x: Doc, s: seq<Doc>, rest: seq<Doc>)
    requires |s| > 0 && NewestFirst(s)
    requires x.donation.createdAt < s[0].donation.createdAt
    requires multiset(rest) == multiset(s[1..]) + multiset{x}
    ensures forall k :: 0 <= k < |rest| ==> rest[k].donation.createdAt <= s[0].donation.createdAt
  {
    forall k | 0 <= k < |rest|
      ensures rest[k].donation.createdAt <= s[0].donation.createdAt
    {
      assert rest[k] in multiset(rest);
      if rest[k] != x {
        assert rest[k] in multiset(s[1..]);
        var m :| 0 <= m < |s[1..]| && s[1..][m] == rest[k];
        assert s[m + 1] == rest[k];
      }
    }
  }

  /** Adding one more key to the scanned set adds at most its own reply. */
  lemma SelectedAmongStep(m: map<ObjectId, Donation>, f: Filter, ks: set<ObjectId>, k: ObjectId)
    requires k in m && k !in ks
    ensures Matches(f, m[k]) ==>
              && SelectedAmong(m, f, ks + {k}) == SelectedAmong(m, f, ks) + {Doc(k, m[k])}
              && Doc(k, m[k]) !in SelectedAmong(m, f, ks)
    ensures !Matches(f, m[k]) ==> SelectedAmong(m, f, ks + {k}) == SelectedAmong(m, f, ks)
  {
  }

  lemma MultisetAddFresh(a: set<Doc>, x: Doc)
    requires x !in a
    ensures multiset(a + {x}) == multiset(a) + multiset{x}
  {
  }

  /**
   Lists the donations a query selects. The answer holds every stored donation
   the composed filter admits, each exactly once, and nothing else, ordered by
   creation time, newest first.
   */
  method ListDonations(db: Db, q: ListQuery) returns (r: seq<Doc>)
    ensures multiset(r) == multiset(Selected(db.donations, BuildFilter(q)))
    ensures NewestFirst(r)
  {
    var f := BuildFilter(q);
    var pending := db.donations.Keys;
    r := [];
    while pending != {}
      invariant pending <= db.donations.Keys
      invariant NewestFirst(r)
      invariant multiset(r) == multiset(SelectedAmong(db.donations, f, db.donations.Keys - pending))
      decreases pending
    {
      var k :| k in pending;
      var done := db.donations.Keys - pending;
      assert db.donations.Keys - (pending - {k}) == done + {k};
      SelectedAmongStep(db.donations, f, done, k);
      if Matches(f, db.donations[k]) {
        MultisetAddFresh(SelectedAmong(db.donations, f, done), Doc(k, db.donations[k]));
        r := InsertNewestFirst(Doc(k, db.donations[k]), r);
      }
      pending := pending - {k};
    }
    assert db.donations.Keys - pending == db.donations.Keys;
  }

  /**
   A listing answer holds a reply exactly when it is a stored donation, under
   its own id, that the filter admits.
   */
  lemma ListedExactly(db: Db, q: ListQuery, r: seq<Doc>, x: Doc)
    requires multiset(r) == multiset(Selected(db.donations, BuildFilter(q)))
    ensures x in r <==>
      x.id in db.donations && db.donations[x.id] == x.donation && Matches(BuildFilter(q), x.donation)
  {
    assert x in r <==> x in multiset(r);
  }

  /** An element at two positions of a sequence is counted at least twice. */
  lemma RepeatedCountsTwice<T>(s: seq<T>, i: int, j: int)
    requires 0 <= i < j < |s| && s[i] == s[j]
    ensures multiset(s)[s[i]] >= 2
  {
    assert s == s[..j] + s[j..];
    assert s[i] in s[..j];
    assert s[j] in s[j..];
  }

  /** No donation is listed twice. */
  lemma ListedOnce(db: Db, q: ListQuery, r: seq<Doc>, i: int, j: int)
    requires multiset(r) == multiset(Selected(db.donations, BuildFilter(q)))
    requires 0 <= i < j < |r|
    ensures r[i].id != r[j].id
  {
    ListedExactly(db, q, r, r[i]);
    ListedExactly(db, q, r, r[j]);
    if r[i] == r[j] {
      RepeatedCountsTwice(r, i, j);
    }
  }
}
