/** The three document kinds and the in-memory store that holds them, with
    the invariant every operation of the core keeps. */
module Records {
  import opened Base
  import opened Enums

  /** An account. Every field but email, userType and role is optional. */
  datatype User = User(
    id: Id,
    email: string,
    passwordHash: Option<string>,
    name: Option<string>,
    displayName: Option<string>,
    userType: UserType,
    role: UserRole,
    latitude: Option<real>,
    longitude: Option<real>,
    address: Option<string>,
    city: Option<string>,
    state: Option<string>,
    zipCode: Option<string>,
    contactPhone: Option<string>,
    contactEmail: Option<string>,
    createdAt: Time)

  /** A waste listing. `userId` is the owner; the coordinates are required. */
  datatype Listing = Listing(
    userId: Id,
    wasteType: string,
    quantity: string,
    unit: Option<string>,
    description: Option<string>,
    status: WasteStatus,
    latitude: real,
    longitude: real,
    address: Option<string>,
    city: Option<string>,
    state: Option<string>,
    zipCode: Option<string>,
    assignedCollectorId: Option<Id>,
    createdAt: Time,
    completedAt: Option<Time>,
    itemType: ItemType,
    wasteCategory: Option<WasteCategory>,
    imageUrl: Option<string>,
    price: Option<real>)

  /** A comment on a listing, by the user `userId`. */
  datatype Comment = Comment(text: string, createdAt: Time, userId: Id, wasteListingId: Id)

  /** Users in insertion order (the order a query without sort sees them),
      listings by id, comments in insertion order. */
  datatype Store = Store(users: seq<User>, listings: map<Id, Listing>, comments: seq<Comment>)

  /** What an operation leaves behind: the store after it, and its answer. */
  datatype Reply<T> = Reply(store: Store, result: Result<T>)

  predicate HasUser(users: seq<User>, id: Id) {
    exists i :: 0 <= i < |users| && users[i].id == id
  }

  predicate EmailTaken(users: seq<User>, email: string) {
    exists i :: 0 <= i < |users| && users[i].email == email
  }

  /** `User.findOne({ email })`: the first user with exactly this email. */
  function FindByEmail(users: seq<User>, email: string): (r: Option<User>)
    ensures r.Some? <==> EmailTaken(users, email)
    ensures r.Some? ==> r.value in users && r.value.email == email
    ensures r.Some? ==> exists i :: 0 <= i < |users| && users[i] == r.value
                                    && forall j :: 0 <= j < i ==> users[j].email != email
  {
    if |users| == 0 then None
    else if users[0].email == email then Some(users[0])
    else
      var r := FindByEmail(users[1..], email);
      assert EmailTaken(users, email) ==> EmailTaken(users[1..], email) by {
        if EmailTaken(users, email) {
          var i :| 0 <= i < |users| && users[i].email == email;
          assert users[1..][i - 1] == users[i];
        }
      }
      assert r.Some? ==> exists i :: 0 <= i < |users| && users[i] == r.value
                                     && forall j :: 0 <= j < i ==> users[j].email != email by {
        if r.Some? {
          var k :| 0 <= k < |users[1..]| && users[1..][k] == r.value
                   && forall j :: 0 <= j < k ==> users[1..][j].email != email;
          assert users[k + 1] == r.value;
          forall j | 0 <= j < k + 1 ensures users[j].email != email {
            if j > 0 { assert users[j] == users[1..][j - 1]; }
          }
        }
      }
      r
  }

  // ------------------------------------------------------------ invariant

  predicate UniqueIds(users: seq<User>) {
    forall i, j :: 0 <= i < j < |users| ==> users[i].id != users[j].id
  }

  predicate UniqueEmails(users: seq<User>) {
    forall i, j :: 0 <= i < j < |users| ==> users[i].email != users[j].email
  }

  /** `completedAt` is stamped exactly when the listing is COMPLETED. */
  predicate CompletionConsistent(l: Listing) {
    l.completedAt.Some? <==> l.status == Completed
  }

  /** What the listing schema's required checks and the lifecycle demand. */
  predicate WellFormedListing(l: Listing) {
    l.wasteType != "" && l.quantity != "" && CompletionConsistent(l)
  }

  /** A stored comment has text, an existing author and an existing listing. */
  predicate WellFormedComment(st: Store, c: Comment) {
    c.text != "" && c.wasteListingId in st.listings && HasUser(st.users, c.userId)
  }

  predicate Valid(st: Store) {
    && UniqueIds(st.users)
    && UniqueEmails(st.users)
    && (forall u <- st.users :: u.role == RoleFor(u.userType))
    && (forall id <- st.listings :: WellFormedListing(st.listings[id]))
    && (forall c <- st.comments :: WellFormedComment(st, c))
  }
}
