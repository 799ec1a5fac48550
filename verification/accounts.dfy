/** Account registration and sign-in. Password hashing and token signing
    belong to an external authentication service: the hash is an input, the
    password check an opaque predicate, and the token is represented by the
    claims it would carry. */
module Accounts {
  import opened Base
  import opened Strings
  import opened Enums
  import opened Records

  datatype SignupRequest = SignupRequest(
    email: TextField,
    password: TextField,
    displayName: TextField,
    userType: TextField,
    latitude: NumberField,
    longitude: NumberField,
    address: TextField,
    city: TextField,
    state: TextField,
    zipCode: TextField,
    contactPhone: TextField,
    contactEmail: TextField)

  datatype SigninRequest = SigninRequest(email: TextField, password: TextField)

  /** The user as an auth response shows it. It has no password field, so no
      response can leak the hash. */
  datatype PublicUser = PublicUser(
    id: Id, email: string, displayName: Option<string>, userType: UserType, role: UserRole)

  /** The payload a session token is signed over. */
  datatype Claims = Claims(id: Id, role: UserRole, userType: UserType)

  datatype Session = Session(user: PublicUser, claims: Claims)

  function SessionOf(u: User): (s: Session)
    ensures s.user.id == u.id && s.claims.id == u.id
    ensures s.user.email == u.email && s.user.displayName == u.displayName
    ensures s.user.role == u.role && s.claims.role == u.role
    ensures s.user.userType == u.userType && s.claims.userType == u.userType
  {
    Session(PublicUser(u.id, u.email, u.displayName, u.userType, u.role),
            Claims(u.id, u.role, u.userType))
  }

  predicate SignupFieldsPresent(req: SignupRequest) {
    req.email.Truthy() && req.password.Truthy() && req.displayName.Truthy() && req.userType.Truthy()
  }

  /** Register an account. `hashed` is what the authentication service
      returned for the password; `freshId` is the id the store assigns. */
  function Signup(st: Store, env: Env, req: SignupRequest, hashed: string, freshId: Id): (out: Reply<Session>)
    ensures out.result.Err? ==> out.store == st
    ensures !SignupFieldsPresent(req) ==> out.result == Err(BadRequest(MissingSignupFields))
    ensures SignupFieldsPresent(req) && ParseUserType(req.userType.s).None?
            ==> out.result == Err(BadRequest(InvalidUserType))
    ensures SignupFieldsPresent(req) && ParseUserType(req.userType.s).Some? && EmailTaken(st.users, req.email.s)
            ==> out.result == Err(BadRequest(UserExists))
    ensures out.result.Ok? <==>
              SignupFieldsPresent(req) && ParseUserType(req.userType.s).Some? && !EmailTaken(st.users, req.email.s)
    ensures out.result.Ok? ==>
              && |out.store.users| == |st.users| + 1
              && out.store.users[..|st.users|] == st.users
              && out.store.listings == st.listings
              && out.store.comments == st.comments
              && var u := out.store.users[|st.users|];
              && u.id == freshId
              && u.email == req.email.s
              && u.passwordHash == Some(hashed)
              && u.displayName == Some(req.displayName.s)
              && u.name == u.displayName
              && UserTypeName(u.userType) == Upper(req.userType.s)
              && u.role == RoleFor(u.userType)
              && u.latitude == req.latitude.Stored()
              && u.longitude == req.longitude.Stored()
              && u.address == req.address.Stored()
              && u.city == req.city.Stored()
              && u.state == req.state.Stored()
              && u.zipCode == req.zipCode.Stored()
              && u.contactPhone == req.contactPhone.Stored()
              && u.contactEmail == req.contactEmail.Stored()
              && u.createdAt == env.now
              && out.result.value == SessionOf(u)
  {
    if !SignupFieldsPresent(req) then Reply(st, Err(BadRequest(MissingSignupFields)))
    else
      match ParseUserType(req.userType.s)
      case None => Reply(st, Err(BadRequest(InvalidUserType)))
      case Some(t) =>
        if FindByEmail(st.users, req.email.s).Some? then Reply(st, Err(BadRequest(UserExists)))
        else
          var u := User(
            id := freshId,
            email := req.email.s,
            passwordHash := Some(hashed),
            name := Some(req.displayName.s),
            displayName := Some(req.displayName.s),
            userType := t,
            role := RoleFor(t),
            latitude := req.latitude.Stored(),
            longitude := req.longitude.Stored(),
            address := req.address.Stored(),
            city := req.city.Stored(),
            state := req.state.Stored(),
            zipCode := req.zipCode.Stored(),
            contactPhone := req.contactPhone.Stored(),
            contactEmail := req.contactEmail.Stored(),
            createdAt := env.now);
          Reply(st.(users := st.users + [u]), Ok(SessionOf(u)))
  }

  /** Sign in. `verify(password, hash)` is the authentication service's
      password check; a user without a hash is checked against "". */
  function Signin(st: Store, req: SigninRequest, verify: (string, string) -> bool): (r: Result<Session>)
    ensures !(req.email.Truthy() && req.password.Truthy()) ==> r == Err(BadRequest(MissingSigninFields))
    ensures req.email.Truthy() && req.password.Truthy() && !EmailTaken(st.users, req.email.s)
            ==> r == Err(BadRequest(InvalidCredentials))
    ensures r.Err? && req.email.Truthy() && req.password.Truthy() ==> r == Err(BadRequest(InvalidCredentials))
    ensures r.Ok? ==> exists u <- st.users :: u.email == req.email.s
                                             && verify(req.password.s, HashOrEmpty(u))
                                             && r.value == SessionOf(u)
  {
    if !(req.email.Truthy() && req.password.Truthy()) then Err(BadRequest(MissingSigninFields))
    else
      match FindByEmail(st.users, req.email.s)
      case None => Err(BadRequest(InvalidCredentials))
      case Some(u) =>
        if !verify(req.password.s, HashOrEmpty(u)) then Err(BadRequest(InvalidCredentials))
        else Ok(SessionOf(u))
  }

  function HashOrEmpty(u: User): string {
    if u.passwordHash.Some? then u.passwordHash.value else ""
  }

  // ---------------------------------------------------------------- lemmas

  /** Registration keeps the store invariant, given a fresh id. */
  lemma SignupPreservesValid(st: Store, env: Env, req: SignupRequest, hashed: string, freshId: Id)
    requires Valid(st)
    requires !HasUser(st.users, freshId)
    ensures Valid(Signup(st, env, req, hashed, freshId).store)
  {
    var out := Signup(st, env, req, hashed, freshId);
    if out.result.Ok? {
      var s := out.store;
      var n := |st.users|;
      assert s.users == st.users + [s.users[n]];
      forall i, j | 0 <= i < j < |s.users| ensures s.users[i].id != s.users[j].id && s.users[i].email != s.users[j].email {
        if j == n {
          assert s.users[i] == st.users[i];
          assert !EmailTaken(st.users, req.email.s);
        }
      }
      forall c <- s.comments ensures WellFormedComment(s, c) {
        assert WellFormedComment(st, c);
        var i :| 0 <= i < |st.users| && st.users[i].id == c.userId;
        assert s.users[i] == st.users[i];
      }
    }
  }

  /** With unique emails, sign-in succeeds exactly when some user has the
      email and the password checks against that user's hash. */
  lemma SigninSucceedsIff(st: Store, req: SigninRequest, verify: (string, string) -> bool)
    requires UniqueEmails(st.users)
    requires req.email.Truthy() && req.password.Truthy()
    ensures Signin(st, req, verify).Ok? <==>
              exists u <- st.users :: u.email == req.email.s && verify(req.password.s, HashOrEmpty(u))
  {
    var r := Signin(st, req, verify);
    if u :| u in st.users && u.email == req.email.s && verify(req.password.s, HashOrEmpty(u)) {
      var f := FindByEmail(st.users, req.email.s);
      assert f.Some?;
      var i :| 0 <= i < |st.users| && st.users[i] == f.value;
      var k :| 0 <= k < |st.users| && st.users[k] == u;
      assert i == k;
    }
  }

  /** An account registered with a password can sign in with it, provided the
      authentication service accepts the password against its own hash. */
  lemma SignupThenSignin(st: Store, env: Env, req: SignupRequest, hashed: string, freshId: Id,
                         verify: (string, string) -> bool)
    requires Valid(st)
    requires !HasUser(st.users, freshId)
    requires Signup(st, env, req, hashed, freshId).result.Ok?
    requires verify(req.password.s, hashed)
    ensures Signin(Signup(st, env, req, hashed, freshId).store,
                   SigninRequest(req.email, req.password), verify)
            == Signup(st, env, req, hashed, freshId).result
  {
    var out := Signup(st, env, req, hashed, freshId);
    SignupPreservesValid(st, env, req, hashed, freshId);
    var n := |st.users|;
    var u := out.store.users[n];
    var f := FindByEmail(out.store.users, req.email.s);
    assert EmailTaken(out.store.users, req.email.s);
    var i :| 0 <= i < |out.store.users| && out.store.users[i] == f.value;
    assert i == n;
  }

  /** A second registration with the same email is refused and adds no user. */
  lemma SignupTwiceRefused(st: Store, env: Env, req: SignupRequest, hashed: string, freshId: Id,
                           req2: SignupRequest, hashed2: string, freshId2: Id)
    requires Signup(st, env, req, hashed, freshId).result.Ok?
    requires SignupFieldsPresent(req2) && ParseUserType(req2.userType.s).Some?
    requires req2.email == req.email
    ensures var st1 := Signup(st, env, req, hashed, freshId).store;
            Signup(st1, env, req2, hashed2, freshId2) == Reply(st1, Err(BadRequest(UserExists)))
  {
    var st1 := Signup(st, env, req, hashed, freshId).store;
    assert st1.users[|st.users|].email == req2.email.s;
    assert EmailTaken(st1.users, req2.email.s);
  }
}
