/** `POST /users`, `GET /users?email=` and `PUT /users/:email`. */
module Users {
  import opened Wrappers
  import opened Http
  import opened Text
  import opened Seqs
  import opened Store

  /** The JSON body of a registration; `email` is None when the field is missing. */
  datatype Registration = Registration(
    email: Option<string>,
    displayName: string,
    name: string,
    fullName: string,
    photoURL: string)

  function UserEmail(u: User): string
  {
    u.email
  }

  /** Filter `{ email }` on `users`. */
  function UserAs(email: string): User -> bool
  {
    (u: User) => u.email == email
  }

  /** Some user document has exactly this e-mail. */
  predicate Registered(users: seq<User>, email: string)
  {
    exists i :: 0 <= i < |users| && users[i].email == email
  }

  /** `POST /users`: lower-case the e-mail, refuse it with 409 when a user
      already has it, otherwise insert a `member` that is `active`.
      A body without `email` makes `toLowerCase` throw: no reply. */
  function Register(s: Store, body: Registration, now: Time): (r: Step<Inserted>)
    ensures body.email.None? ==> r == Step(s, Unhandled)
    ensures body.email.Some? && Registered(s.users, ToLower(body.email.value)) ==>
              r == Step(s, Error(CONFLICT, "User already exists"))
    ensures r.response.Reply? <==> body.email.Some? && !Registered(s.users, ToLower(body.email.value))
    ensures r.response.Reply? ==>
              && r.response == Reply(OK, Inserted(s.nextId))
              && |r.store.users| == |s.users| + 1
              && r.store.users[..|s.users|] == s.users
              && r.store.users[|s.users|]
                   == User(s.nextId, ToLower(body.email.value), Member, body.displayName, body.name,
                           body.fullName, body.photoURL, true, now, None)
              && r.store == s.(users := r.store.users, nextId := s.nextId + 1)
    ensures DistinctLower(s.users, UserEmail) ==> DistinctLower(r.store.users, UserEmail)
  {
    match body.email
    case None => Step(s, Unhandled)
    case Some(raw) =>
      var email := ToLower(raw);
      if FindFirst(s.users, (u: User) => u.email == email).Some? then
        Step(s, Error(CONFLICT, "User already exists"))
      else
        var user := User(s.nextId, email, Member, body.displayName, body.name, body.fullName,
                         body.photoURL, true, now, None);
        Step(s.(users := s.users + [user], nextId := s.nextId + 1), Reply(OK, Inserted(user.id)))
  }

  /** `GET /users?email=`: 400 without an e-mail, 404 when nobody has its
      lower-cased form, otherwise that user's document. */
  function GetUser(s: Store, email: Option<string>): (r: Response<User>)
    ensures email.None? || email.value == "" ==> r == Error(BAD_REQUEST, "Email is required")
    ensures r == Error(NOT_FOUND, "User not found") <==>
              email.Some? && email.value != "" && !Registered(s.users, ToLower(email.value))
    ensures r.Reply? ==> r.code == OK && r.body.email == ToLower(email.value)
    ensures r.Reply? ==> exists j :: 0 <= j < |s.users| && s.users[j] == r.body
                           && forall k :: 0 <= k < j ==> s.users[k].email != r.body.email
    ensures r.Reply? <==> email.Some? && email.value != "" && Registered(s.users, ToLower(email.value))
    ensures r.Reply? || r.Error?
  {
    match email
    case None => Error(BAD_REQUEST, "Email is required")
    case Some(raw) =>
      var e := ToLower(raw);
      if e == "" then Error(BAD_REQUEST, "Email is required")
      else match FindFirst(s.users, (u: User) => u.email == e)
        case None => Error(NOT_FOUND, "User not found")
        case Some(i) => Reply(OK, s.users[i])
  }

  /** `PUT /users/:email`: set `displayName`, `photoURL` and `updatedAt` on
      the first user with the lower-cased e-mail; 400 without a display
      name, 404 when nobody matches. */
  function UpdateProfile(s: Store, emailParam: string, displayName: string, photoURL: string, now: Time)
    : (r: Step<string>)
    ensures displayName == "" ==> r == Step(s, Error(BAD_REQUEST, "Name is required"))
    ensures displayName != "" && !Registered(s.users, ToLower(emailParam)) ==>
              r == Step(s, Error(NOT_FOUND, "User not found"))
    ensures r.response.Reply? <==> displayName != "" && Registered(s.users, ToLower(emailParam))
    ensures r.response.Reply? ==>
              && r.response == Reply(OK, "Profile updated successfully")
              && r.store == s.(users := r.store.users)
              && |r.store.users| == |s.users|
              && exists i :: 0 <= i < |s.users|
                   && s.users[i].email == ToLower(emailParam)
                   && (forall k :: 0 <= k < i ==> s.users[k].email != ToLower(emailParam))
                   && r.store.users[i] == s.users[i].(displayName := displayName, photoURL := photoURL,
                                                      updatedAt := Some(now))
                   && forall k :: 0 <= k < |s.users| && k != i ==> r.store.users[k] == s.users[k]
  {
    var email := ToLower(emailParam);
    if displayName == "" then Step(s, Error(BAD_REQUEST, "Name is required"))
    else match FindFirst(s.users, (u: User) => u.email == email)
      case None => Step(s, Error(NOT_FOUND, "User not found"))
      case Some(i) =>
        var u := s.users[i].(displayName := displayName, photoURL := photoURL, updatedAt := Some(now));
        Step(s.(users := s.users[i := u]), Reply(OK, "Profile updated successfully"))
  }

  /** Registration is case-insensitive: once an address is registered, every
      spelling of it that lower-cases to the same string is refused. */
  lemma RegisterIsCaseInsensitive(s: Store, a: Registration, b: Registration, now: Time, later: Time)
    requires a.email.Some? && b.email.Some?
    requires ToLower(a.email.value) == ToLower(b.email.value)
    requires Register(s, a, now).response.Reply?
    ensures Register(Register(s, a, now).store, b, later).response == Error(CONFLICT, "User already exists")
  {
    var s1 := Register(s, a, now).store;
    assert s1.users[|s.users|].email == ToLower(b.email.value);
  }

  /** Registration and lookup round-trip: after a successful registration,
      looking up any spelling of the address that lower-cases to the same
      non-empty string answers with the new user. */
  lemma RegisterThenGetUser(s: Store, body: Registration, now: Time, query: string)
    requires body.email.Some? && query != ""
    requires ToLower(query) == ToLower(body.email.value)
    requires Register(s, body, now).response.Reply?
    ensures var s1 := Register(s, body, now).store;
      GetUser(s1, Some(query))
        == Reply(OK, User(s.nextId, ToLower(query), Member, body.displayName, body.name,
                          body.fullName, body.photoURL, true, now, None))
  {
    var s1 := Register(s, body, now).store;
    var e := ToLower(query);
    assert e != "";
    assert forall k :: 0 <= k < |s.users| ==> s1.users[k].email != e;
    assert s1.users[|s.users|].email == e;
  }

  /** A profile update never touches e-mails or roles, so the registration
      invariant survives it. */
  lemma UpdateProfileKeepsIdentity(s: Store, emailParam: string, displayName: string, photoURL: string, now: Time)
    ensures var users' := UpdateProfile(s, emailParam, displayName, photoURL, now).store.users;
      && |users'| == |s.users|
      && (forall k :: 0 <= k < |s.users| ==> users'[k].email == s.users[k].email && users'[k].role == s.users[k].role)
      && (DistinctLower(s.users, UserEmail) ==> DistinctLower(users', UserEmail))
  {
    var users' := UpdateProfile(s, emailParam, displayName, photoURL, now).store.users;
    assert forall k :: 0 <= k < |s.users| ==> users'[k].email == s.users[k].email;
  }
}
