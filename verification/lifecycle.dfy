/** Properties that relate several lifecycle operations, or an operation and
    the store invariant. */
module Lifecycle {
  import opened Base
  import opened Enums
  import opened Records
  import opened Comments
  import opened Listings

  // ---------------------------------------------------------------- create

  lemma CreatePreservesValid(st: Store, env: Env, req: CreateRequest, freshId: Id)
    requires Valid(st)
    requires freshId !in st.listings
    ensures Valid(Create(st, env, req, freshId).store)
  {
    var out := Create(st, env, req, freshId);
    if out.result.Ok? {
      forall c <- out.store.comments ensures WellFormedComment(out.store, c) {
        assert WellFormedComment(st, c);
      }
    }
  }

  /** A created listing is found under its id, exactly as created. */
  lemma CreateThenGet(st: Store, env: Env, req: CreateRequest, freshId: Id)
    requires env.isValidId(freshId)
    requires Create(st, env, req, freshId).result.Ok?
    ensures Get(Create(st, env, req, freshId).store, env, freshId) == Create(st, env, req, freshId).result
  {
  }

  /** The status a client sends with a create is ignored. */
  lemma CreateIgnoresStatus(st: Store, env: Env, req: CreateRequest, freshId: Id, status: TextField)
    ensures Create(st, env, req.(status := status), freshId) == Create(st, env, req, freshId)
  {
  }

  // ---------------------------------------------------------------- update

  /** Every successful update keeps the listing well formed, so the store
      invariant survives; a failed one changes nothing. */
  lemma UpdatePreservesValid(st: Store, env: Env, id: Id, req: UpdateRequest)
    requires Valid(st)
    ensures Valid(Update(st, env, id, req).store)
  {
    var out := Update(st, env, id, req);
    if out.result.Ok? {
      var before := st.listings[id];
      var withCollector := AfterAssignment(before, req.assignedCollectorId);
      assert CompletionConsistent(withCollector);
      var stated := AfterStatus(withCollector, req.status, env.now);
      assert CompletionConsistent(stated);
      assert out.result.value == ApplyPatch(stated, req.patch).value;
      var s := out.store;
      forall c <- s.comments ensures WellFormedComment(s, c) {
        if c in st.comments {
          assert WellFormedComment(st, c);
        } else {
          NewCommentsWellFormed(st, env, id, req.comments);
          assert c in NewComments(st.users, env, id, req.comments);
        }
      }
    }
  }

  /** An update succeeds exactly when every pre-save check passes and the
      schema accepts the document that the assignment, status and merge steps
      produce. */
  lemma UpdateSucceedsIff(st: Store, env: Env, id: Id, req: UpdateRequest)
    ensures Update(st, env, id, req).result.Ok? <==>
              && UpdateChecksPass(st, env, id, req)
              && PatchSavable(AfterStatus(AfterAssignment(st.listings[id], req.assignedCollectorId),
                                          req.status, env.now),
                              req.patch)
  {
  }

  /** The assignment rules, observed through a whole update that carries no
      explicit status. */
  lemma AssignmentTransitions(st: Store, env: Env, id: Id, req: UpdateRequest)
    requires req.status.Absent?
    requires Update(st, env, id, req).result.Ok?
    ensures var before := st.listings[id].status;
            var after := Update(st, env, id, req).result.value.status;
            && (req.assignedCollectorId.Truthy() && before == Pending ==> after == Assigned)
            && (!req.assignedCollectorId.Absent? && !req.assignedCollectorId.Truthy() && before == Assigned
                ==> after == Pending)
            && (before == Completed || before == Cancelled ==> after == before)
            && (req.assignedCollectorId.Absent? ==> after == before)
  {
  }

  /** Assigning a collector to a PENDING listing and then clearing it brings
      the listing back to PENDING with no collector. */
  lemma AssignThenClear(st: Store, env: Env, id: Id, collector: string)
    requires id in st.listings && st.listings[id].status == Pending
    requires Update(st, env, id, UpdateRequest(Str(collector), Absent, [], NoChanges)).result.Ok?
    ensures var st1 := Update(st, env, id, UpdateRequest(Str(collector), Absent, [], NoChanges)).store;
            var r := Update(st1, env, id, UpdateRequest(Null, Absent, [], NoChanges)).result;
            && r.Ok?
            && r.value.status == Pending
            && r.value.assignedCollectorId.None?
  {
    var out1 := Update(st, env, id, UpdateRequest(Str(collector), Absent, [], NoChanges));
    var l1 := out1.result.value;
    assert l1.wasteType != "" && l1.quantity != "";
    assert l1.status == Assigned || l1.status == Pending;
    var out2 := Update(out1.store, env, id, UpdateRequest(Null, Absent, [], NoChanges));
    assert out1.store.listings[id] == l1;
    assert PatchSavable(AfterAssignment(l1, Null), NoChanges);
  }

  /** Marking a listing COMPLETED twice keeps the first completion time. */
  lemma CompleteTwiceKeepsStamp(st: Store, env1: Env, env2: Env, id: Id, s1: string, s2: string)
    requires ParseStatus(s1) == Some(Completed) && ParseStatus(s2) == Some(Completed)
    requires env2.isValidId == env1.isValidId
    requires Update(st, env1, id, UpdateRequest(Absent, Str(s1), [], NoChanges)).result.Ok?
    ensures var out1 := Update(st, env1, id, UpdateRequest(Absent, Str(s1), [], NoChanges));
            var r := Update(out1.store, env2, id, UpdateRequest(Absent, Str(s2), [], NoChanges)).result;
            && r.Ok?
            && r.value.status == Completed
            && r.value.completedAt == out1.result.value.completedAt
            && r.value.completedAt.Some?
  {
    var out1 := Update(st, env1, id, UpdateRequest(Absent, Str(s1), [], NoChanges));
    var l1 := out1.result.value;
    assert out1.store.listings[id] == l1;
    assert l1.completedAt.Some?;
    assert PatchSavable(SetStatus(l1, Completed, env2.now), NoChanges);
  }

  /** The first completion of a listing is stamped with the time of the
      request, whatever else the request carries. */
  lemma FirstCompletionStampsNow(st: Store, env: Env, id: Id, req: UpdateRequest)
    requires req.status.Str? && ParseStatus(req.status.s) == Some(Completed)
    requires id in st.listings && st.listings[id].completedAt.None?
    ensures var r := Update(st, env, id, req).result;
            r.Ok? ==> r.value.completedAt == Some(env.now)
  {
  }

  /** Moving away from COMPLETED clears the completion time, whatever else the
      request carries. */
  lemma ReopenClearsStamp(st: Store, env: Env, id: Id, req: UpdateRequest)
    requires req.status.Str? && ParseStatus(req.status.s).Some? && ParseStatus(req.status.s) != Some(Completed)
    ensures var r := Update(st, env, id, req).result;
            r.Ok? ==> r.value.completedAt.None?
  {
  }

  /** An update leaves every existing comment in place and adds comments only
      for the listing it updates. */
  lemma UpdateOnlyAppendsComments(st: Store, env: Env, id: Id, req: UpdateRequest)
    requires Update(st, env, id, req).result.Ok?
    ensures var cs := Update(st, env, id, req).store.comments;
            && |st.comments| <= |cs|
            && cs[..|st.comments|] == st.comments
            && forall k :: |st.comments| <= k < |cs| ==> cs[k].wasteListingId == id
  {
    var out := Update(st, env, id, req);
    var added := NewComments(st.users, env, id, req.comments);
    assert out.store.comments == st.comments + added;
    AppendedOnListing(st.comments, added, id);
  }

  lemma AppendedOnListing(prior: seq<Comment>, added: seq<Comment>, id: Id)
    requires forall c <- added :: c.wasteListingId == id
    ensures var cs := prior + added;
            && cs[..|prior|] == prior
            && forall k :: |prior| <= k < |cs| ==> cs[k].wasteListingId == id
  {
    var cs := prior + added;
    forall k | |prior| <= k < |cs| ensures cs[k].wasteListingId == id {
      assert cs[k] == added[k - |prior|];
    }
  }

  // ---------------------------------------------------------------- delete

  lemma DeletePreservesValid(st: Store, env: Env, id: Id)
    requires Valid(st)
    ensures Valid(Delete(st, env, id).store)
  {
    var out := Delete(st, env, id);
    if env.isValidId(id) {
      var s := out.store;
      forall c <- s.comments ensures WellFormedComment(s, c) {
        assert c in st.comments;
        assert WellFormedComment(st, c);
      }
    }
  }

  /** Halfway through a delete, after the cascade and before the listing is
      removed, the store is already valid: stopping there orphans nothing. */
  lemma CascadeStepIsSafe(st: Store, id: Id)
    requires Valid(st)
    ensures Valid(DropComments(st, id))
  {
    var s := DropComments(st, id);
    forall c <- s.comments ensures WellFormedComment(s, c) {
      assert c in st.comments;
      assert WellFormedComment(st, c);
    }
  }

  /** Removing the listing first would leave its comments orphaned: that is
      why the delete cascades before it removes. */
  lemma ListingFirstWouldOrphan(st: Store, id: Id, k: nat)
    requires k < |st.comments| && st.comments[k].wasteListingId == id
    ensures !Valid(st.(listings := st.listings - {id}))
  {
    var s := st.(listings := st.listings - {id});
    assert st.comments[k] in s.comments;
    assert !WellFormedComment(s, st.comments[k]);
  }

  /** Deleting twice: the second delete finds nothing and changes nothing. */
  lemma DeleteTwice(st: Store, env: Env, id: Id)
    requires env.isValidId(id)
    ensures var st1 := Delete(st, env, id).store;
            Delete(st1, env, id) == Reply(st1, Err(NotFound))
  {
    var st1 := Delete(st, env, id).store;
    assert RemoveCommentsOf(st1.comments, id) == st1.comments;
  }
}
