/** The list query: a filter built from query-string parameters, where every
    criterion that does not parse is dropped, and a result ordered newest
    first. Population of references is not modelled. */
module Queries {
  import opened Base
  import opened Strings
  import opened Enums
  import opened Records

  /** The query string: each parameter is absent or a string. */
  datatype Query = Query(status: Option<string>, userId: Option<string>, collectorId: Option<string>)

  /** The criteria the store query applies; None means "not filtered". */
  datatype Filter = Filter(status: Option<WasteStatus>, userId: Option<Id>, collectorId: Option<Id>)

  /** A query parameter that is present and non-empty. */
  predicate Given(p: Option<string>) {
    p.Some? && |p.value| > 0
  }

  /** Build the filter. Nothing here can fail: a status that is not one of
      the four names, or an id that is not well formed, is left out. */
  function BuildFilter(env: Env, q: Query): (f: Filter)
    ensures forall s :: f.status == Some(s) <==> Given(q.status) && StatusName(s) == Upper(q.status.value)
    ensures forall u :: f.userId == Some(u) <==> q.userId == Some(u) && |u| > 0 && env.isValidId(u)
    ensures forall u :: f.collectorId == Some(u) <==> q.collectorId == Some(u) && |u| > 0 && env.isValidId(u)
  {
    Filter(
      if Given(q.status) then ParseStatus(q.status.value) else None,
      if Given(q.userId) && env.isValidId(q.userId.value) then q.userId else None,
      if Given(q.collectorId) && env.isValidId(q.collectorId.value) then q.collectorId else None)
  }

  predicate Matches(f: Filter, l: Listing) {
    && (f.status.Some? ==> l.status == f.status.value)
    && (f.userId.Some? ==> l.userId == f.userId.value)
    && (f.collectorId.Some? ==> l.assignedCollectorId == f.collectorId)
  }

  /** A status filter is case-insensitive: "pending" and "PENDING" build the
      same filter. */
  lemma StatusFilterIgnoresCase(env: Env, q: Query, t: WasteStatus)
    ensures BuildFilter(env, q.(status := Some(Lower(StatusName(t)))))
            == BuildFilter(env, q.(status := Some(StatusName(t))))
    ensures BuildFilter(env, q.(status := Some(StatusName(t)))).status == Some(t)
  {
    ParseStatusIgnoresCase(t);
    assert |StatusName(t)| > 0;
  }

  /** An unrecognised status is the same as no status at all. */
  lemma UnknownStatusIgnored(env: Env, q: Query, s: string)
    requires ParseStatus(s).None?
    ensures BuildFilter(env, q.(status := Some(s))) == BuildFilter(env, q.(status := None))
  {
  }

  // -------------------------------------------------------------- ordering

  datatype Entry = Entry(id: Id, listing: Listing)

  /** Sorted by `createdAt`, newest first. */
  predicate NewestFirst(r: seq<Entry>) {
    forall i, j :: 0 <= i < j < |r| ==> r[i].listing.createdAt >= r[j].listing.createdAt
  }

  predicate DistinctIds(r: seq<Entry>) {
    forall i, j :: 0 <= i < j < |r| ==> r[i].id != r[j].id
  }

  /** Where an entry created at `t` goes: after every strictly newer entry. */
  function InsertionPoint(r: seq<Entry>, t: Time): (p: nat)
    ensures p <= |r|
    ensures forall i :: 0 <= i < p ==> r[i].listing.createdAt > t
    ensures p < |r| ==> r[p].listing.createdAt <= t
  {
    if |r| == 0 || r[0].listing.createdAt <= t then 0
    else 1 + InsertionPoint(r[1..], t)
  }

  function Insert(r: seq<Entry>, e: Entry): (s: seq<Entry>)
    requires NewestFirst(r)
    ensures NewestFirst(s)
    ensures |s| == |r| + 1
    ensures forall x :: x in s <==> x in r || x == e
    ensures DistinctIds(r) && (forall x <- r :: x.id != e.id) ==> DistinctIds(s)
  {
    var p := InsertionPoint(r, e.listing.createdAt);
    SpliceIndices(r, e, p);
    SpliceSorted(r, e, p);
    SpliceMembers(r, e, p);
    SpliceDistinct(r, e, p);
    r[..p] + [e] + r[p..]
  }

  lemma SpliceIndices(r: seq<Entry>, e: Entry, p: nat)
    requires p <= |r|
    ensures var s := r[..p] + [e] + r[p..];
            && |s| == |r| + 1
            && (forall i :: 0 <= i < p ==> s[i] == r[i])
            && s[p] == e
            && (forall i :: p < i < |s| ==> s[i] == r[i - 1])
  {
  }

  lemma SpliceSorted(r: seq<Entry>, e: Entry, p: nat)
    requires NewestFirst(r) && p <= |r|
    requires forall i :: 0 <= i < p ==> r[i].listing.createdAt > e.listing.createdAt
    requires p < |r| ==> r[p].listing.createdAt <= e.listing.createdAt
    ensures NewestFirst(r[..p] + [e] + r[p..])
  {
    var s := r[..p] + [e] + r[p..];
    SpliceIndices(r, e, p);
    forall i, j | 0 <= i < j < |s| ensures s[i].listing.createdAt >= s[j].listing.createdAt {
      if j == p {
      } else if i == p {
        assert s[j] == r[j - 1];
        assert r[p].listing.createdAt >= r[j - 1].listing.createdAt;
      } else {
        var i' := if i < p then i else i - 1;
        var j' := if j < p then j else j - 1;
        assert s[i] == r[i'] && s[j] == r[j'];
      }
    }
  }

  lemma SpliceMembers(r: seq<Entry>, e: Entry, p: nat)
    requires p <= |r|
    ensures forall x :: x in r[..p] + [e] + r[p..] <==> x in r || x == e
  {
    var s := r[..p] + [e] + r[p..];
    SpliceIndices(r, e, p);
    forall x | x in r ensures x in s {
      var i :| 0 <= i < |r| && r[i] == x;
      if i < p { assert s[i] == x; } else { assert s[i + 1] == x; }
    }
    forall x | x in s ensures x in r || x == e {
      var i :| 0 <= i < |s| && s[i] == x;
      if i < p { assert r[i] == x; } else if i > p { assert r[i - 1] == x; }
    }
  }

  lemma SpliceDistinct(r: seq<Entry>, e: Entry, p: nat)
    requires p <= |r|
    ensures DistinctIds(r) && (forall x <- r :: x.id != e.id) ==> DistinctIds(r[..p] + [e] + r[p..])
  {
    var s := r[..p] + [e] + r[p..];
    SpliceIndices(r, e, p);
    if DistinctIds(r) && (forall x <- r :: x.id != e.id) {
      forall i, j | 0 <= i < j < |s| ensures s[i].id != s[j].id {
        if i == p {
          assert s[j] == r[j - 1];
        } else if j == p {
          assert s[i] == r[i];
        } else {
          var i' := if i < p then i else i - 1;
          var j' := if j < p then j else j - 1;
          assert s[i] == r[i'] && s[j] == r[j'];
        }
      }
    }
  }

  /** `WasteListing.find(filter).sort({ createdAt: -1 })`: every listing that
      matches, once each, newest first. */
  method FindListings(st: Store, env: Env, q: Query) returns (r: seq<Entry>)
    ensures NewestFirst(r)
    ensures DistinctIds(r)
    ensures forall e <- r :: e.id in st.listings && st.listings[e.id] == e.listing
                             && Matches(BuildFilter(env, q), e.listing)
    ensures forall id <- st.listings :: Matches(BuildFilter(env, q), st.listings[id])
                                        ==> exists e <- r :: e.id == id
  {
    var f := BuildFilter(env, q);
    var todo := st.listings.Keys;
    r := [];
    while todo != {}
      invariant todo <= st.listings.Keys
      invariant NewestFirst(r)
      invariant DistinctIds(r)
      invariant forall e <- r :: e.id in st.listings && e.id !in todo && st.listings[e.id] == e.listing
                                 && Matches(f, e.listing)
      invariant forall id <- st.listings :: id !in todo && Matches(f, st.listings[id])
                                            ==> exists e <- r :: e.id == id
      decreases todo
    {
      var id :| id in todo;
      todo := todo - {id};
      if Matches(f, st.listings[id]) {
        var e := Entry(id, st.listings[id]);
        r := Insert(r, e);
      }
    }
  }
}
