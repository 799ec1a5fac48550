/** An end-to-end walk through the lifecycle: a generator and a collector
    register, the generator lists an item, the collector is assigned, the
    listing is completed and the collector comments on it. */
module Scenario {
  import opened Base
  import opened Strings
  import opened Enums
  import opened Records
  import opened Accounts
  import opened Comments
  import opened Listings
  import opened Lifecycle

  function Account(email: string, name: string, userType: UserType): SignupRequest {
    SignupRequest(Str(email), Str("secret"), Str(name), Str(UserTypeName(userType)),
                  NoNumber, NoNumber, Absent, Absent, Absent, Absent, Absent, Absent)
  }

  function WasteRequest(owner: Id): CreateRequest {
    CreateRequest(Str(owner), Str("Plastic bottles"), Str("5"), Str("kg"), Absent,
                  Number(27.17), Number(78.04), Absent, Absent, Absent, Absent,
                  Str("waste"), Absent, Absent, NoNumber, Str("COMPLETED"))
  }

  /** A registration with a fresh email and id succeeds and keeps the
      store valid. */
  lemma RegisterStep(st: Store, env: Env, email: string, name: string, t: UserType, hash: string, id: Id)
    requires Valid(st) && |email| > 0 && |name| > 0
    requires !EmailTaken(st.users, email) && !HasUser(st.users, id)
    ensures var s := Signup(st, env, Account(email, name, t), hash, id);
            && s.result.Ok?
            && s.result.value.user.role == RoleFor(t)
            && Valid(s.store)
            && s.store.users == st.users + [s.store.users[|st.users|]]
            && s.store.users[|st.users|].id == id
            && s.store.users[|st.users|].email == email
            && s.store.listings == st.listings
            && s.store.comments == st.comments
  {
    UserTypeNameCanonical(t);
    UpperOfCanonical(UserTypeName(t));
    SignupPreservesValid(st, env, Account(email, name, t), hash, id);
  }

  /** Two registrations with distinct fresh emails both succeed; the
      generator becomes a LISTER and the collector a COLLECTOR. */
  lemma RegisterBoth(st: Store, env: Env, emailA: string, emailB: string, a: Id, b: Id, hash: string)
    requires Valid(st)
    requires |emailA| > 0 && |emailB| > 0 && emailA != emailB
    requires !EmailTaken(st.users, emailA) && !EmailTaken(st.users, emailB)
    requires !HasUser(st.users, a) && !HasUser(st.users, b) && a != b
    ensures var s1 := Signup(st, env, Account(emailA, "Alice", Generator), hash, a);
            var s2 := Signup(s1.store, env, Account(emailB, "John", UserType.Collector), hash, b);
            && s1.result.Ok? && s1.result.value.user.role == UserRole.Lister
            && s2.result.Ok? && s2.result.value.user.role == UserRole.Collector
            && Valid(s2.store)
            && HasUser(s2.store.users, b)
            && s2.store.listings == st.listings
            && s2.store.comments == st.comments
  {
    RegisterStep(st, env, emailA, "Alice", Generator, hash, a);
    var s1 := Signup(st, env, Account(emailA, "Alice", Generator), hash, a);
    var n := |st.users|;
    assert !HasUser(s1.store.users, b) by {
      forall i | 0 <= i < |s1.store.users| ensures s1.store.users[i].id != b {
        if i < n { assert s1.store.users[i] == st.users[i]; }
      }
    }
    assert !EmailTaken(s1.store.users, emailB) by {
      forall i | 0 <= i < |s1.store.users| ensures s1.store.users[i].email != emailB {
        if i < n { assert s1.store.users[i] == st.users[i]; }
      }
    }
    RegisterStep(s1.store, env, emailB, "John", UserType.Collector, hash, b);
  }

  /** The creation request lists a PENDING item with no collector, although
      it asks for COMPLETED. */
  lemma CreateStep(st: Store, env: Env, a: Id, lid: Id)
    requires env.isValidId(a) && |a| > 0
    ensures var c := Create(st, env, WasteRequest(a), lid);
            && c.result.Ok?
            && c.result.value.status == Pending
            && c.result.value.assignedCollectorId.None?
            && c.store == st.(listings := st.listings[lid := c.result.value])
            && WellFormedListing(c.result.value)
  {
    ParseItemTypeIgnoresCase(Waste);
    assert Lower(ItemTypeName(Waste)) == "waste";
  }

  /** Assigning a collector to a PENDING listing makes it ASSIGNED. */
  lemma AssignStep(st: Store, env: Env, lid: Id, b: Id)
    requires env.isValidId(lid) && env.isValidId(b) && |b| > 0
    requires lid in st.listings && WellFormedListing(st.listings[lid]) && st.listings[lid].status == Pending
    ensures var u := Update(st, env, lid, UpdateRequest(Str(b), Absent, [], NoChanges));
            && u.result.Ok?
            && u.result.value.status == Assigned
            && u.store == st.(listings := st.listings[lid := u.result.value])
            && WellFormedListing(u.result.value)
  {
    assert PatchSavable(Assign(st.listings[lid], Some(b)), NoChanges);
    assert NewComments(st.users, env, lid, []) == [];
  }

  /** Completing with a lower-case status stamps the completion time. */
  lemma CompleteStep(st: Store, env: Env, lid: Id)
    requires env.isValidId(lid)
    requires lid in st.listings && WellFormedListing(st.listings[lid])
    ensures var u := Update(st, env, lid, UpdateRequest(Absent, Str(Lower(StatusName(Completed))), [], NoChanges));
            && u.result.Ok?
            && u.result.value.status == Completed
            && u.result.value.completedAt.Some?
            && u.store == st.(listings := st.listings[lid := u.result.value])
            && WellFormedListing(u.result.value)
  {
    ParseStatusIgnoresCase(Completed);
    var req := UpdateRequest(Absent, Str(Lower(StatusName(Completed))), [], NoChanges);
    var l := st.listings[lid];
    assert AfterAssignment(l, req.assignedCollectorId) == l;
    assert PatchSavable(AfterStatus(l, req.status, env.now), NoChanges);
    UpdateSucceedsIff(st, env, lid, req);
    assert NewComments(st.users, env, lid, []) == [];
  }

  /** The collector's comment on an existing listing is stored, and it is the
      only comment on that listing when there was none before. */
  lemma CommentStep(st: Store, env: Env, lid: Id, b: Id)
    requires env.isValidId(lid)
    requires lid in st.listings && WellFormedListing(st.listings[lid])
    requires env.isValidId(b) && |b| > 0 && HasUser(st.users, b)
    requires forall cm <- st.comments :: cm.wasteListingId != lid
    ensures var u := Update(st, env, lid,
                            UpdateRequest(Absent, Absent, [CommentEntry(Str(b), Str("picked up"), None)], NoChanges));
            && u.result.Ok?
            && Comment("picked up", env.now, b, lid) in u.store.comments
            && forall cm <- u.store.comments :: cm.wasteListingId == lid ==> cm == Comment("picked up", env.now, b, lid)
  {
    var entry := CommentEntry(Str(b), Str("picked up"), None);
    assert Accepted(st.users, env, entry);
    assert NewComments(st.users, env, lid, [entry]) == [Comment("picked up", env.now, b, lid)];
    assert PatchSavable(st.listings[lid], NoChanges);
  }

  /** The whole walk. Each request succeeds; the listing goes PENDING,
      ASSIGNED, COMPLETED with a completion time; and the listing's thread
      holds exactly the collector's comment. */
  lemma Walkthrough(st: Store, env: Env, emailA: string, emailB: string, a: Id, b: Id, lid: Id, hash: string)
    requires Valid(st)
    requires env.isValidId(a) && env.isValidId(b) && env.isValidId(lid) && |a| > 0 && |b| > 0
    requires |emailA| > 0 && |emailB| > 0 && emailA != emailB
    requires !EmailTaken(st.users, emailA) && !EmailTaken(st.users, emailB)
    requires !HasUser(st.users, a) && !HasUser(st.users, b) && a != b
    requires lid !in st.listings
    ensures
      var s2 := Signup(Signup(st, env, Account(emailA, "Alice", Generator), hash, a).store,
                       env, Account(emailB, "John", UserType.Collector), hash, b);
      var c := Create(s2.store, env, WasteRequest(a), lid);
      var u1 := Update(c.store, env, lid, UpdateRequest(Str(b), Absent, [], NoChanges));
      var u2 := Update(u1.store, env, lid,
                       UpdateRequest(Absent, Str(Lower(StatusName(Completed))), [], NoChanges));
      var u3 := Update(u2.store, env, lid,
                       UpdateRequest(Absent, Absent, [CommentEntry(Str(b), Str("picked up"), None)], NoChanges));
      && c.result.Ok? && c.result.value.status == Pending
      && u1.result.Ok? && u1.result.value.status == Assigned
      && u2.result.Ok? && u2.result.value.status == Completed && u2.result.value.completedAt.Some?
      && u3.result.Ok?
      && Comment("picked up", env.now, b, lid) in u3.store.comments
      && forall cm <- u3.store.comments :: cm.wasteListingId == lid ==> cm == Comment("picked up", env.now, b, lid)
  {
    RegisterBoth(st, env, emailA, emailB, a, b, hash);
    var s2 := Signup(Signup(st, env, Account(emailA, "Alice", Generator), hash, a).store,
                     env, Account(emailB, "John", UserType.Collector), hash, b);
    CreateStep(s2.store, env, a, lid);
    var c := Create(s2.store, env, WasteRequest(a), lid);
    AssignStep(c.store, env, lid, b);
    var u1 := Update(c.store, env, lid, UpdateRequest(Str(b), Absent, [], NoChanges));
    CompleteStep(u1.store, env, lid);
    var u2 := Update(u1.store, env, lid, UpdateRequest(Absent, Str(Lower(StatusName(Completed))), [], NoChanges));
    forall cm <- u2.store.comments ensures cm.wasteListingId != lid {
      assert cm in st.comments;
      assert WellFormedComment(st, cm);
    }
    CommentStep(u2.store, env, lid, b);
  }
}
