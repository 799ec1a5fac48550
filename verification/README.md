# Waste-listing backend: lifecycle and validation model

A Dafny model of the core of a small Express/Mongoose backend in which
"generators" post waste or used-item listings, "collectors" are assigned to
them, listings move through the states PENDING, ASSIGNED, COMPLETED and
CANCELLED, users comment on listings, and accounts carry a type and a derived
role.

The database is replaced by an immutable `Store` (users in insertion order,
listings keyed by id, comments in insertion order). Every handler that writes
(sign-up, create, update, delete) is a pure function from a store and a
request to a `Reply`: the store afterwards and either a value or an error
(`BadRequest(reason)` for HTTP 400, `NotFound` for 404, `ServerError` for
500). The read by id and sign-in only read the store and return a `Result`.
The list query is a method that builds its answer with a loop. Three things come from outside as
parameters: the current time and the ObjectId syntax check (bundled as
`Env`), and the ids the store hands out to new documents. Password hashing
and checking belong to an external authentication service. The hash is an
input and the check is an opaque predicate; a token is represented by the
claims it would be signed over.

Files, one module each:

- `base.dfy`: `Option`, `Result`, error reasons, request fields with JavaScript truthiness, `Env`.
- `strings.dfy`: upper-casing as `toUpperCase` does it for enumeration matching.
- `enums.dfy`: the five enumerations, case-insensitive parsing from request text, exact schema checks, and the role mapping.
- `records.dfy`: the user, listing and comment records, the store, and its invariant `Valid`.
- `accounts.dfy`: sign-up and sign-in.
- `comments.dfy`: the best-effort comment batch and the delete cascade.
- `listings.dfy`: create, read by id, the update state machine, and delete.
- `lifecycle.dfy`: invariant preservation and properties that span several requests.
- `queries.dfy`: the list filter and the newest-first listing query.
- `scenario.dfy`: an end-to-end walk through a listing's life.

The store invariant `Valid` says five things:

- user ids are unique;
- emails are unique;
- every user's role is the one its type maps to;
- every listing has a non-empty waste type and quantity, and has `completedAt` exactly when it is COMPLETED;
- every comment has text, an existing author and an existing listing. In other words, no comment is orphaned.

## Behaviour the model keeps from the code

- A duplicate email on sign-up is answered with 400 ("User with this email already exists"), not with a distinct conflict status. The model returns `BadRequest(UserExists)`.
- Creating a listing checks that the owner id is well formed, not that the user exists.
- Create rejects only an *undefined* latitude or longitude. A coordinate of 0 passes. A null coordinate also passes the handler but then fails the schema's required check on save, which is a 500.
- An update whose `status` is `null` throws at `toUpperCase` inside the handler, which is a 500. An empty-string status is a 400.
- On update, `itemType` and `wasteCategory` reach the document through the shallow merge. Only the schema checks them there, exactly and case-sensitively. Create, by contrast, matches them case-insensitively.
- Delete removes the comments that reference the id before it looks the listing up. An unknown id therefore still clears any comments that reference it, and the answer is not-found.
- On update, a key sent as `null` is merged like any other value. It clears an optional field such as `description`, `price` or `wasteCategory`. On a required field (`wasteType`, `quantity`, `latitude`, `longitude`, `itemType`) it fails the schema's required check on save, which is a 500.
- Upper-casing follows JavaScript, so "aßigned" matches ASSIGNED ("ß" upper-cases to "SS").

## Model

| member | source | states |
|---|---|---|
| Strings.UpperIdempotent | src/controllers/wasteListingController.ts:13-14 | upper-casing an already upper-cased text changes nothing, so the stored uppercase status is the spelling that matched |
| Strings.UpperOfLower | src/controllers/wasteListingController.ts:90 | a canonical name written in lower case upper-cases back to the name, which is why matching ignores case |
| Enums.Lookup | src/controllers/wasteListingController.ts:13 | `includes` over the enum values: a hit is a member of the set with exactly that name, a miss means no member has it |
| Enums.ParseStatus | src/controllers/wasteListingController.ts:167-168 | a status text names member t exactly when its uppercase is t's name; otherwise it is rejected |
| Enums.ParseItemType | src/controllers/wasteListingController.ts:90 | an item type is accepted exactly when its uppercase is WASTE or OLD_ITEM, and yields that member |
| Enums.ParseCategory | src/controllers/wasteListingController.ts:93 | a category is accepted exactly when its uppercase is one of the eight category names |
| Enums.ExactItemType | src/models/WasteListing.ts:67 | the schema accepts an item type only when it is literally one of the two names |
| Enums.ExactCategory | src/models/WasteListing.ts:68 | the schema accepts a category only when it is literally one of the eight names |
| Enums.ParseUserType | src/controllers/authController.ts:23-26 | a user type is accepted exactly when its uppercase is GENERATOR, COLLECTOR or ADMIN |
| Enums.RoleFor | src/controllers/authController.ts:40-50 | role ADMIN iff type ADMIN, role COLLECTOR iff type COLLECTOR, role LISTER iff type GENERATOR |
| Enums.ParseStatusIgnoresCase | src/models/WasteListing.ts:4-9 | each of the four status names parses to its own member, in upper and in lower case |
| Enums.ParseItemTypeIgnoresCase | src/models/WasteListing.ts:11-14 | each item-type name parses to its member, in upper and in lower case |
| Enums.ParseCategoryIgnoresCase | src/models/WasteListing.ts:16-25 | each of the eight category names parses to its member, in upper and in lower case |
| Enums.ParseUserTypeIgnoresCase | src/models/User.ts:4-8 | each user-type name parses to its member, in upper and in lower case |
| Enums.ParseStatusOfUpper | src/controllers/wasteListingController.ts:14 | the uppercased status the filter stores parses to the same member as the text the client sent |
| Records.FindByEmail | src/controllers/authController.ts:30 | a user is found exactly when some user has that exact email, with no case folding; the one found has it and no earlier user does |
| Accounts.SessionOf | src/controllers/authController.ts:76-85 | the response carries id, email, display name, type and role, and the token claims carry id, role and type; there is no password field to leak |
| Accounts.Signup | src/controllers/authController.ts:15-91 | missing field, bad type, and taken email are refused in that order without touching the store; success appends one user with name = displayName, uppercased type, role from the mapping, the hash, the profile fields (coordinates, address, city, state, zip code, contact phone and email) as sent, created now, and returns its session |
| Accounts.Signin | src/controllers/authController.ts:96-142 | missing fields are refused; an unknown email and a wrong password give the same invalid-credentials error; success is the session of a user with that email whose hash checks |
| Accounts.SignupPreservesValid | src/models/User.ts:36 | registration keeps emails and ids unique and roles derived from types |
| Accounts.SigninSucceedsIff | src/controllers/authController.ts:105-114 | with unique emails, sign-in succeeds iff some user has the email and the password checks against its hash |
| Accounts.SignupThenSignin | src/controllers/authController.ts:53-61 | an account just registered signs in with the same password and gets the same session |
| Accounts.SignupTwiceRefused | src/controllers/authController.ts:30-33 | a second sign-up with the same email is refused and creates no user |
| Comments.NewComments | src/controllers/wasteListingController.ts:183-204 | every created comment comes from an accepted entry (author id and text present, id well formed, author exists), bound to the listing, dated as supplied or now; every accepted entry's comment is among them; there are exactly as many comments as accepted entries; nothing is created iff every entry is skipped |
| Comments.AcceptedCountAppend | src/controllers/wasteListingController.ts:184-195 | the number of accepted entries of a split batch is the sum over its parts: acceptance of an entry does not depend on its neighbours |
| Comments.NewCommentsAppend | src/controllers/wasteListingController.ts:184-204 | a batch split in two creates the first part's comments followed by the second part's: entries are handled one at a time, independently |
| Comments.NewCommentsStep | src/controllers/wasteListingController.ts:185-203 | one pass of the loop appends exactly the entry's own comment when it is accepted and nothing otherwise, so two identical accepted entries create two comments |
| Comments.NewCommentsWellFormed | src/models/Comment.ts:11-16 | a created comment has non-empty text, an existing author and the listing it was posted to |
| Comments.RemoveCommentsOf | src/controllers/wasteListingController.ts:234 | the cascade keeps every comment on another listing with its multiplicity and no comment on the id, and is the identity when none reference the id |
| Listings.Create | src/controllers/wasteListingController.ts:77-138 | the four validation errors in source order, each leaving the store unchanged; a null coordinate after those checks is a 500; success iff all checks pass and both coordinates are numbers; the new listing is PENDING with no collector or completion time whatever status was sent, holds uppercased enums and the optional fields (unit, description, address, city, state, zip code, image, price) as sent, and is stored under the new id |
| Listings.Get | src/controllers/wasteListingController.ts:47-75 | a malformed id is a 400 before lookup, an unknown id a 404, otherwise the stored listing |
| Listings.Assign | src/controllers/wasteListingController.ts:154-164 | the collector becomes the given one or none; PENDING to ASSIGNED on assign, ASSIGNED to PENDING on clear, COMPLETED and CANCELLED untouched, nothing else changes |
| Listings.SetStatus | src/controllers/wasteListingController.ts:166-177 | the explicit status wins; COMPLETED keeps an existing stamp or stamps now; any other status clears the stamp, so completedAt is set iff COMPLETED |
| Listings.Merge | src/controllers/wasteListingController.ts:179 | each free field takes the value the request sends for it (null clears an optional one) and keeps its old value when the key is not sent; owner, status, collector, stamps and creation time do not move |
| Listings.ApplyPatch | src/controllers/wasteListingController.ts:179-181 | the merge saves iff no required field is sent as null, waste type and quantity stay non-empty, and raw enum fields are exact names; the saved document is the merge, with owner, status, collector, stamps and creation time unmoved |
| Listings.Update | src/controllers/wasteListingController.ts:140-226 | errors in source order (bad id, not found, bad collector, then a null status as a 500, a bad status as a 400, and a document the schema rejects as a 500) with the store unchanged; on success only this listing changes, owner and creation time are kept, the collector and status follow the assignment and status rules, an explicit COMPLETED keeps an existing stamp or stamps now and any other explicit status clears it, every free field is merged from the request, and the accepted comments are appended |
| Listings.DropComments | src/controllers/wasteListingController.ts:234 | after the cascade no comment references the id, every comment on another listing survives with its multiplicity, and users and listings are untouched |
| Listings.Delete | src/controllers/wasteListingController.ts:228-247 | a malformed id changes nothing; otherwise no comment on the id survives, every other comment does with its multiplicity, the listing is gone, and the answer is success iff it existed and not-found otherwise |
| Lifecycle.CreatePreservesValid | src/models/WasteListing.ts:51-58 | a created listing satisfies the schema's required fields and the completion invariant |
| Lifecycle.CreateThenGet | src/controllers/wasteListingController.ts:117-131 | the listing returned by create is what a read by its id returns |
| Lifecycle.CreateIgnoresStatus | src/controllers/wasteListingController.ts:114 | two create requests that differ only in status give the same result |
| Lifecycle.UpdatePreservesValid | src/controllers/wasteListingController.ts:154-204 | every update keeps the store invariant, in particular completedAt set iff COMPLETED and no orphan comments |
| Lifecycle.UpdateSucceedsIff | src/controllers/wasteListingController.ts:144-181 | an update succeeds iff the id is well formed and known, a non-empty collector id is well formed, the status is not null and names a status, and the schema accepts the merged document |
| Lifecycle.AssignmentTransitions | src/controllers/wasteListingController.ts:154-164 | without an explicit status: assign on PENDING gives ASSIGNED, clear on ASSIGNED gives PENDING, COMPLETED/CANCELLED never move, and no assignment means no move |
| Lifecycle.AssignThenClear | src/controllers/wasteListingController.ts:158-163 | assigning a collector to a PENDING listing and then clearing it returns it to PENDING with no collector |
| Lifecycle.CompleteTwiceKeepsStamp | src/controllers/wasteListingController.ts:172-173 | completing an already completed listing keeps the first completion time |
| Lifecycle.FirstCompletionStampsNow | src/controllers/wasteListingController.ts:172-173 | the first completion of a listing is stamped with the time of the request, whatever else the request carries |
| Lifecycle.ReopenClearsStamp | src/controllers/wasteListingController.ts:174-175 | any explicit status other than COMPLETED leaves no completion time, whatever else the request carries |
| Lifecycle.UpdateOnlyAppendsComments | src/controllers/wasteListingController.ts:197-203 | existing comments are kept in place and every added comment is on the updated listing |
| Lifecycle.DeletePreservesValid | src/controllers/wasteListingController.ts:234-236 | delete keeps the store invariant |
| Lifecycle.CascadeStepIsSafe | src/controllers/wasteListingController.ts:234 | the store between the cascade and the listing removal is already valid |
| Lifecycle.ListingFirstWouldOrphan | src/controllers/wasteListingController.ts:234-236 | removing a commented listing before its comments would break the invariant |
| Lifecycle.DeleteTwice | src/controllers/wasteListingController.ts:236-240 | a second delete of the same id is a not-found that changes nothing |
| Queries.BuildFilter | src/controllers/wasteListingController.ts:13-21 | the status criterion is present iff the parameter is non-empty and names a status case-insensitively; an owner or collector criterion is present iff its parameter is a non-empty well-formed id; nothing fails |
| Queries.StatusFilterIgnoresCase | src/controllers/wasteListingController.ts:13-14 | "pending" and "PENDING" build the same filter, which selects PENDING |
| Queries.UnknownStatusIgnored | src/controllers/wasteListingController.ts:13 | an unrecognised status builds the same filter as no status |
| Queries.FindListings | src/controllers/wasteListingController.ts:23-38 | the result holds every stored listing matching the filter, once each, only those, and is ordered by createdAt descending |
| Scenario.Walkthrough | src/controllers/wasteListingController.ts:154-204 | a generator's WASTE listing is PENDING, becomes ASSIGNED when the collector is set, COMPLETED with a stamp on "completed", and then holds exactly the collector's comment |

## Left out

- Population of references (owner, collector, comment thread with authors) is not modelled. No read here claims to return a thread.
- The model assumes that populating `comments`, a path the listing schema does not declare, is a silent no-op. That holds for Mongoose 5, or with `strictPopulate: false`. From Mongoose 6 on, the default `strictPopulate` rejects such a populate. Then the read by id of an existing listing and a list query with any match answer 500. Create and update would also answer 500, but only after their writes. The store effects modelled here stay the same; only those responses would differ.
- Fields outside the whitelist in `Patch` are not modelled. `Object.assign` can overwrite any field, including the owner and `completedAt`. The completion invariant holds only because the patch cannot carry `completedAt`.
- `updatedAt` and the schema's `timestamps` option are not modelled.
- Password hashing, comparison and JWT signing are external calls. The hash is a parameter and the check an opaque predicate. The token is represented by its claims; its expiry is not modelled.
- `ObjectId.isValid` is uninterpreted. Ids are compared as text, so the normalisation of hex case by `new ObjectId(...)` is not modelled.
- Request values are limited by type. String fields hold strings, null or nothing, and number fields hold numbers, null or nothing. Values of the wrong JSON type (a string where a number belongs, numbers, arrays or objects where a string belongs) and the schema's casts of them are not modelled; for example, a numeric `itemType` throws outside the handler's `try`. Query parameters given as arrays are not modelled either.
- A `null` sent for `wasteCategory` on update clears the category. This assumes an enum validator that lets null through, as current Mongoose versions do.
- A `null` element in the `comments` array is not modelled. It would throw after the listing is saved, leaving a partial update behind a 500.
- A comment's supplied `createdAt` is a valid time. A falsy numeric 0 and an unparseable date string are not modelled.
- Strings.Upper: only characters whose JavaScript uppercase is plain ASCII are mapped. Every other character is kept as is. This never changes whether a text matches an enumeration name, but it is not JavaScript's uppercase in general.
- Queries.FindListings: the order of listings with equal `createdAt` is left open, as the store leaves it.
- Accounts.SigninSucceedsIff: stated only for stores with unique emails. For other stores, `findOne` returns the first user with the email.
- Store and network failures (the generic 500 of every handler's `catch`) are not modelled, except for save-time schema rejections. Concurrency and the non-atomic delete are not modelled either.
- The ids of new listings and users are parameters. Their freshness is assumed only by the lemmas that need it.
- The user-listing handler, the seed script, routing, app bootstrap and database connection are not part of this model.
