/** The listing lifecycle: creation, lookup by id, the update that moves a
    listing through its states, and the delete that cascades to comments. */
module Listings {
  import opened Base
  import opened Strings
  import opened Enums
  import opened Records
  import opened Comments

  // ---------------------------------------------------------------- create

  /** The body of a create request. `status` is accepted and ignored. */
  datatype CreateRequest = CreateRequest(
    userId: TextField,
    wasteType: TextField,
    quantity: TextField,
    unit: TextField,
    description: TextField,
    latitude: NumberField,
    longitude: NumberField,
    address: TextField,
    city: TextField,
    state: TextField,
    zipCode: TextField,
    itemType: TextField,
    wasteCategory: TextField,
    imageUrl: TextField,
    price: NumberField,
    status: TextField)

  /** The first check of a create: owner, waste type, quantity and item type
      must be truthy, and the coordinates must not be undefined (a coordinate
      of 0 or null passes this check). */
  predicate HasRequiredFields(req: CreateRequest) {
    && req.userId.Truthy()
    && req.wasteType.Truthy()
    && req.quantity.Truthy()
    && !req.latitude.NoNumber?
    && !req.longitude.NoNumber?
    && req.itemType.Truthy()
  }

  /** Create a listing under the id `freshId` the store assigns. */
  function Create(st: Store, env: Env, req: CreateRequest, freshId: Id): (out: Reply<Listing>)
    ensures out.result.Err? ==> out.store == st
    ensures !HasRequiredFields(req) ==> out.result == Err(BadRequest(MissingListingFields))
    ensures HasRequiredFields(req) && !env.isValidId(req.userId.s)
            ==> out.result == Err(BadRequest(InvalidUserId))
    ensures HasRequiredFields(req) && env.isValidId(req.userId.s) && ParseItemType(req.itemType.s).None?
            ==> out.result == Err(BadRequest(InvalidItemType))
    ensures HasRequiredFields(req) && env.isValidId(req.userId.s) && ParseItemType(req.itemType.s).Some?
            && req.wasteCategory.Truthy() && ParseCategory(req.wasteCategory.s).None?
            ==> out.result == Err(BadRequest(InvalidWasteCategory))
    ensures out.result.Ok? <==>
              && HasRequiredFields(req)
              && env.isValidId(req.userId.s)
              && ParseItemType(req.itemType.s).Some?
              && (req.wasteCategory.Truthy() ==> ParseCategory(req.wasteCategory.s).Some?)
              && req.latitude.Number? && req.longitude.Number?
    ensures HasRequiredFields(req) && env.isValidId(req.userId.s) && ParseItemType(req.itemType.s).Some?
            && (req.wasteCategory.Truthy() ==> ParseCategory(req.wasteCategory.s).Some?)
            && !(req.latitude.Number? && req.longitude.Number?)
            ==> out.result == Err(ServerError)
    ensures out.result.Ok? ==>
              && var l := out.result.value;
              && out.store == st.(listings := st.listings[freshId := l])
              && l.status == Pending
              && l.assignedCollectorId.None?
              && l.completedAt.None?
              && l.userId == req.userId.s
              && l.wasteType == req.wasteType.s
              && l.quantity == req.quantity.s
              && l.latitude == req.latitude.x
              && l.longitude == req.longitude.x
              && ItemTypeName(l.itemType) == Upper(req.itemType.s)
              && (l.wasteCategory.Some? <==> req.wasteCategory.Truthy())
              && (l.wasteCategory.Some? ==> CategoryName(l.wasteCategory.value) == Upper(req.wasteCategory.s))
              && l.createdAt == env.now
              && l.unit == req.unit.Stored()
              && l.description == req.description.Stored()
              && l.address == req.address.Stored()
              && l.city == req.city.Stored()
              && l.state == req.state.Stored()
              && l.zipCode == req.zipCode.Stored()
              && l.imageUrl == req.imageUrl.Stored()
              && l.price == req.price.Stored()
              && WellFormedListing(l)
  {
    if !HasRequiredFields(req) then Reply(st, Err(BadRequest(MissingListingFields)))
    else if !env.isValidId(req.userId.s) then Reply(st, Err(BadRequest(InvalidUserId)))
    else
      match ParseItemType(req.itemType.s)
      case None => Reply(st, Err(BadRequest(InvalidItemType)))
      case Some(itemType) =>
        var category := if req.wasteCategory.Truthy() then ParseCategory(req.wasteCategory.s) else None;
        if req.wasteCategory.Truthy() && category.None? then Reply(st, Err(BadRequest(InvalidWasteCategory)))
        // A null coordinate passes the controller but fails the schema's
        // required check when the document is saved: a server error.
        else if !req.latitude.Number? || !req.longitude.Number? then Reply(st, Err(ServerError))
        else
          var l := Listing(
            userId := req.userId.s,
            wasteType := req.wasteType.s,
            quantity := req.quantity.s,
            unit := req.unit.Stored(),
            description := req.description.Stored(),
            status := Pending,
            latitude := req.latitude.x,
            longitude := req.longitude.x,
            address := req.address.Stored(),
            city := req.city.Stored(),
            state := req.state.Stored(),
            zipCode := req.zipCode.Stored(),
            assignedCollectorId := None,
            createdAt := env.now,
            completedAt := None,
            itemType := itemType,
            wasteCategory := category,
            imageUrl := req.imageUrl.Stored(),
            price := req.price.Stored());
          Reply(st.(listings := st.listings[freshId := l]), Ok(l))
  }

  // ------------------------------------------------------------------ read

  /** `getWasteListingById`, without population of references. */
  function Get(st: Store, env: Env, id: Id): (r: Result<Listing>)
    ensures r.Ok? <==> env.isValidId(id) && id in st.listings
    ensures r.Ok? ==> r.value == st.listings[id]
    ensures !env.isValidId(id) ==> r == Err(BadRequest(InvalidListingId))
    ensures env.isValidId(id) && id !in st.listings ==> r == Err(NotFound)
  {
    if !env.isValidId(id) then Err(BadRequest(InvalidListingId))
    else if id !in st.listings then Err(NotFound)
    else Ok(st.listings[id])
  }

  // --------------------------------------------------------- state machine

  /** Set or clear the collector. Assigning moves PENDING to ASSIGNED,
      clearing moves ASSIGNED back to PENDING, and no other state moves. */
  function Assign(l: Listing, collector: Option<Id>): (r: Listing)
    ensures r.assignedCollectorId == collector
    ensures collector.Some? && l.status == Pending ==> r.status == Assigned
    ensures collector.None? && l.status == Assigned ==> r.status == Pending
    ensures l.status == Completed || l.status == Cancelled ==> r.status == l.status
    ensures collector.Some? && l.status == Assigned ==> r.status == Assigned
    ensures collector.None? && l.status == Pending ==> r.status == Pending
    ensures r == l.(assignedCollectorId := collector, status := r.status)
  {
    var status :=
      if collector.Some? && l.status == Pending then Assigned
      else if collector.None? && l.status == Assigned then Pending
      else l.status;
    l.(assignedCollectorId := collector, status := status)
  }

  /** An explicit status. COMPLETED stamps `completedAt` unless it is already
      stamped; every other status clears it. */
  function SetStatus(l: Listing, s: WasteStatus, now: Time): (r: Listing)
    ensures r.status == s
    ensures CompletionConsistent(r)
    ensures s == Completed && l.completedAt.Some? ==> r.completedAt == l.completedAt
    ensures s == Completed && l.completedAt.None? ==> r.completedAt == Some(now)
    ensures r == l.(status := s, completedAt := r.completedAt)
  {
    var completedAt :=
      if s == Completed then (if l.completedAt.None? then Some(now) else l.completedAt)
      else None;
    l.(status := s, completedAt := completedAt)
  }

  /** The fields outside the lifecycle that an update may overwrite, as the
      request body carries them: a key that is not sent leaves the path as it
      is, and an explicit null is assigned like any other value. Item type and
      category arrive as raw text: on this path they are checked only by the
      schema, exactly and case-sensitively. */
  datatype Patch = Patch(
    wasteType: TextField,
    quantity: TextField,
    unit: TextField,
    description: TextField,
    latitude: NumberField,
    longitude: NumberField,
    address: TextField,
    city: TextField,
    state: TextField,
    zipCode: TextField,
    itemType: TextField,
    wasteCategory: TextField,
    imageUrl: TextField,
    price: NumberField)

  const NoChanges: Patch :=
    Patch(Absent, Absent, Absent, Absent, NoNumber, NoNumber, Absent, Absent, Absent, Absent,
          Absent, Absent, Absent, NoNumber)

  /** `Object.assign` onto an optional text path. */
  function AssignText(f: TextField, current: Option<string>): (r: Option<string>)
    ensures TakesText(f, current, r)
  {
    match f
    case Absent => current
    case Null => None
    case Str(s) => Some(s)
  }

  /** `Object.assign` onto an optional number path. */
  function AssignNumber(f: NumberField, current: Option<real>): (r: Option<real>)
    ensures TakesNumber(f, current, r)
  {
    match f
    case NoNumber => current
    case NullNumber => None
    case Number(x) => Some(x)
  }

  /** `Object.assign` onto the item type, for a value the schema accepts. */
  function AssignItemType(f: TextField, current: ItemType): (t: ItemType)
    requires !f.Null? && (f.Str? ==> ExactItemType(f.s).Some?)
    ensures f.Str? ==> ItemTypeName(t) == f.s
    ensures f.Absent? ==> t == current
  {
    if f.Str? then ExactItemType(f.s).value else current
  }

  /** `Object.assign` onto the category, for a value the schema accepts. */
  function AssignCategory(f: TextField, current: Option<WasteCategory>): (c: Option<WasteCategory>)
    requires f.Str? ==> ExactCategory(f.s).Some?
    ensures f.Str? ==> c.Some? && CategoryName(c.value) == f.s
    ensures f.Null? ==> c.None?
    ensures f.Absent? ==> c == current
  {
    if f.Str? then ExactCategory(f.s) else if f.Null? then None else current
  }

  /** Would the schema accept the patched document on save? A null on a
      required path, an empty waste type or quantity, and an item type or
      category that is not literally one of the names all fail validation;
      a null category clears the optional path. */
  predicate PatchSavable(l: Listing, p: Patch) {
    && !p.wasteType.Null? && !p.quantity.Null? && !p.itemType.Null?
    && !p.latitude.NullNumber? && !p.longitude.NullNumber?
    && (if p.wasteType.Str? then p.wasteType.s else l.wasteType) != ""
    && (if p.quantity.Str? then p.quantity.s else l.quantity) != ""
    && (p.itemType.Str? ==> ExactItemType(p.itemType.s).Some?)
    && (p.wasteCategory.Str? ==> ExactCategory(p.wasteCategory.s).Some?)
  }

  /** An optional text path after the merge: the sent string, nothing after a
      null, and the old value when the key was not sent. */
  predicate TakesText(f: TextField, before: Option<string>, after: Option<string>) {
    && (f.Absent? ==> after == before)
    && (f.Null? ==> after.None?)
    && (f.Str? ==> after == Some(f.s))
  }

  /** An optional number path after the merge. */
  predicate TakesNumber(f: NumberField, before: Option<real>, after: Option<real>) {
    && (f.NoNumber? ==> after == before)
    && (f.NullNumber? ==> after.None?)
    && (f.Number? ==> after == Some(f.x))
  }

  /** Every free field of `after` is `before`'s field overwritten by what the
      patch sends for it. */
  predicate FreeFieldsMerged(before: Listing, p: Patch, after: Listing) {
    && (p.wasteType.Str? ==> after.wasteType == p.wasteType.s)
    && (p.wasteType.Absent? ==> after.wasteType == before.wasteType)
    && (p.quantity.Str? ==> after.quantity == p.quantity.s)
    && (p.quantity.Absent? ==> after.quantity == before.quantity)
    && (p.latitude.Number? ==> after.latitude == p.latitude.x)
    && (p.latitude.NoNumber? ==> after.latitude == before.latitude)
    && (p.longitude.Number? ==> after.longitude == p.longitude.x)
    && (p.longitude.NoNumber? ==> after.longitude == before.longitude)
    && TakesText(p.unit, before.unit, after.unit)
    && TakesText(p.description, before.description, after.description)
    && TakesText(p.address, before.address, after.address)
    && TakesText(p.city, before.city, after.city)
    && TakesText(p.state, before.state, after.state)
    && TakesText(p.zipCode, before.zipCode, after.zipCode)
    && TakesText(p.imageUrl, before.imageUrl, after.imageUrl)
    && TakesNumber(p.price, before.price, after.price)
    && (p.itemType.Str? ==> ItemTypeName(after.itemType) == p.itemType.s)
    && (p.itemType.Absent? ==> after.itemType == before.itemType)
    && (p.wasteCategory.Str? ==>
          after.wasteCategory.Some? && CategoryName(after.wasteCategory.value) == p.wasteCategory.s)
    && (p.wasteCategory.Null? ==> after.wasteCategory.None?)
    && (p.wasteCategory.Absent? ==> after.wasteCategory == before.wasteCategory)
  }

  /** `Object.assign(listing, otherUpdates)` on a patch the schema accepts. */
  function Merge(l: Listing, p: Patch): (m: Listing)
    requires PatchSavable(l, p)
    ensures FreeFieldsMerged(l, p, m)
    ensures m.userId == l.userId && m.status == l.status && m.createdAt == l.createdAt
    ensures m.assignedCollectorId == l.assignedCollectorId && m.completedAt == l.completedAt
  {
    Listing(
      userId := l.userId,
      wasteType := if p.wasteType.Str? then p.wasteType.s else l.wasteType,
      quantity := if p.quantity.Str? then p.quantity.s else l.quantity,
      unit := AssignText(p.unit, l.unit),
      description := AssignText(p.description, l.description),
      status := l.status,
      latitude := if p.latitude.Number? then p.latitude.x else l.latitude,
      longitude := if p.longitude.Number? then p.longitude.x else l.longitude,
      address := AssignText(p.address, l.address),
      city := AssignText(p.city, l.city),
      state := AssignText(p.state, l.state),
      zipCode := AssignText(p.zipCode, l.zipCode),
      assignedCollectorId := l.assignedCollectorId,
      createdAt := l.createdAt,
      completedAt := l.completedAt,
      itemType := AssignItemType(p.itemType, l.itemType),
      wasteCategory := AssignCategory(p.wasteCategory, l.wasteCategory),
      imageUrl := AssignText(p.imageUrl, l.imageUrl),
      price := AssignNumber(p.price, l.price))
  }

  /** The shallow merge of the free fields, followed by the schema's save
      validation; None when the save is rejected. */
  function ApplyPatch(l: Listing, p: Patch): (r: Option<Listing>)
    ensures r.Some? <==> PatchSavable(l, p)
    ensures r.Some? ==>
              && r.value.userId == l.userId
              && r.value.status == l.status
              && r.value.assignedCollectorId == l.assignedCollectorId
              && r.value.completedAt == l.completedAt
              && r.value.createdAt == l.createdAt
              && r.value.wasteType != "" && r.value.quantity != ""
              && FreeFieldsMerged(l, p, r.value)
  {
    if !PatchSavable(l, p) then None else Some(Merge(l, p))
  }

  // ---------------------------------------------------------------- update

  /** The body of an update request; fields outside `patch` that the request
      could carry (owner, completion time, ...) are not modelled. */
  datatype UpdateRequest = UpdateRequest(
    assignedCollectorId: TextField,
    status: TextField,
    comments: seq<CommentEntry>,
    patch: Patch)

  /** The assignment step: skipped when the field is undefined, clears the
      collector when it is null or empty, and assigns otherwise. */
  function AfterAssignment(l: Listing, f: TextField): Listing {
    if f.Absent? then l
    else Assign(l, if f.Truthy() then Some(f.s) else None)
  }

  /** The explicit-status step, for a status already known to parse. */
  function AfterStatus(l: Listing, f: TextField, now: Time): Listing
    requires f.Str? ==> ParseStatus(f.s).Some?
  {
    if f.Str? then SetStatus(l, ParseStatus(f.s).value, now) else l
  }

  /** Does the update get past every check it makes before saving? */
  predicate UpdateChecksPass(st: Store, env: Env, id: Id, req: UpdateRequest) {
    && env.isValidId(id)
    && id in st.listings
    && (req.assignedCollectorId.Truthy() ==> env.isValidId(req.assignedCollectorId.s))
    && !req.status.Null?
    && (req.status.Str? ==> ParseStatus(req.status.s).Some?)
  }

  /** `updateWasteListing`: validate, move the listing through the
      assignment and status steps, merge the free fields, save, then append
      the comment batch. */
  function Update(st: Store, env: Env, id: Id, req: UpdateRequest): (out: Reply<Listing>)
    ensures out.result.Err? ==> out.store == st
    ensures !env.isValidId(id) ==> out.result == Err(BadRequest(InvalidListingId))
    ensures env.isValidId(id) && id !in st.listings ==> out.result == Err(NotFound)
    ensures env.isValidId(id) && id in st.listings
            && req.assignedCollectorId.Truthy() && !env.isValidId(req.assignedCollectorId.s)
            ==> out.result == Err(BadRequest(InvalidCollectorId))
    ensures env.isValidId(id) && id in st.listings
            && (req.assignedCollectorId.Truthy() ==> env.isValidId(req.assignedCollectorId.s))
            && req.status.Str? && ParseStatus(req.status.s).None?
            ==> out.result == Err(BadRequest(InvalidStatus))
    ensures env.isValidId(id) && id in st.listings
            && (req.assignedCollectorId.Truthy() ==> env.isValidId(req.assignedCollectorId.s))
            && req.status.Null?
            ==> out.result == Err(ServerError)
    ensures UpdateChecksPass(st, env, id, req)
            && !PatchSavable(AfterStatus(AfterAssignment(st.listings[id], req.assignedCollectorId), req.status, env.now),
                             req.patch)
            ==> out.result == Err(ServerError)
    ensures out.result.Ok? ==> UpdateChecksPass(st, env, id, req)
    ensures out.result.Ok? ==>
              && var before := st.listings[id];
              && var after := out.result.value;
              && out.store.listings == st.listings[id := after]
              && out.store.users == st.users
              && out.store.comments == st.comments + NewComments(st.users, env, id, req.comments)
              && after.userId == before.userId
              && after.createdAt == before.createdAt
              && (req.assignedCollectorId.Absent? ==> after.assignedCollectorId == before.assignedCollectorId)
              && (req.assignedCollectorId.Truthy() ==> after.assignedCollectorId == Some(req.assignedCollectorId.s))
              && (!req.assignedCollectorId.Absent? && !req.assignedCollectorId.Truthy()
                  ==> after.assignedCollectorId.None?)
              && (req.status.Str? ==> after.status == ParseStatus(req.status.s).value)
              && (req.status.Absent? ==> after.status == AfterAssignment(before, req.assignedCollectorId).status)
              && (req.status.Absent? ==> after.completedAt == before.completedAt)
              && (req.status.Str? && after.status == Completed ==>
                    after.completedAt == (if before.completedAt.Some? then before.completedAt else Some(env.now)))
              && (req.status.Str? && after.status != Completed ==> after.completedAt.None?)
              && FreeFieldsMerged(before, req.patch, after)
  {
    if !env.isValidId(id) then Reply(st, Err(BadRequest(InvalidListingId)))
    else if id !in st.listings then Reply(st, Err(NotFound))
    else if req.assignedCollectorId.Truthy() && !env.isValidId(req.assignedCollectorId.s) then
      Reply(st, Err(BadRequest(InvalidCollectorId)))
    // `null.toUpperCase()` throws inside the handler: a server error.
    else if req.status.Null? then Reply(st, Err(ServerError))
    else if req.status.Str? && ParseStatus(req.status.s).None? then Reply(st, Err(BadRequest(InvalidStatus)))
    else
      var withCollector := AfterAssignment(st.listings[id], req.assignedCollectorId);
      var stated := AfterStatus(withCollector, req.status, env.now);
      match ApplyPatch(stated, req.patch)
      case None => Reply(st, Err(ServerError))
      case Some(saved) =>
        Reply(Store(st.users, st.listings[id := saved], st.comments + NewComments(st.users, env, id, req.comments)),
              Ok(saved))
  }

  // ---------------------------------------------------------------- delete

  /** The first step of a delete: the cascade over the comments. */
  function DropComments(st: Store, id: Id): (r: Store)
    ensures r.users == st.users && r.listings == st.listings
    ensures KeepsOthers(st.comments, id, r.comments)
    ensures forall c <- r.comments :: c.wasteListingId != id
  {
    st.(comments := RemoveCommentsOf(st.comments, id))
  }

  /** `deleteWasteListing`: comments first, then the listing. The cascade runs
      even when no listing has the id, and the answer is then not-found. */
  function Delete(st: Store, env: Env, id: Id): (out: Reply<()>)
    ensures !env.isValidId(id) ==> out == Reply(st, Err(BadRequest(InvalidListingId)))
    ensures env.isValidId(id) ==>
              && out.store.users == st.users
              && out.store.listings == st.listings - {id}
              && (forall c <- out.store.comments :: c.wasteListingId != id && c in st.comments)
              && (forall c <- st.comments :: c.wasteListingId != id ==> c in out.store.comments)
              && KeepsOthers(st.comments, id, out.store.comments)
              && (out.result.Ok? <==> id in st.listings)
              && (out.result.Err? ==> out.result == Err(NotFound))
  {
    if !env.isValidId(id) then Reply(st, Err(BadRequest(InvalidListingId)))
    else
      var cleared := DropComments(st, id);
      if id !in cleared.listings then Reply(cleared, Err(NotFound))
      else Reply(cleared.(listings := cleared.listings - {id}), Ok(()))
  }
}
