/** The login system of auth.js as values: the records kept under the
    localStorage keys `factory_users`, `factory_session` and
    `factory_access_requests`, and the rule each operation applies to them.
    The class in AuthStore performs these operations step by step; the
    functions here say what each step produces, and the lemmas here state
    what the application promises about them. */
module Auth {
  import opened JsArray
  import opened JsString

  // ------------------------------------------------------------- records

  /** An entry of `factory_users`. A text field the stored object lacks is ""
      (JavaScript treats a missing field and "" alike: both are falsy). */
  datatype User = User(
    username: string, password: string, role: string, name: string, nameHe: string,
    email: string, status: string, createdAt: string, updatedAt: string)

  /** The value of `factory_session`: a user without its password, stamped
      with the login time in epoch milliseconds (0 when the field is falsy). */
  datatype Session = Session(
    username: string, role: string, name: string, nameHe: string,
    email: string, status: string, createdAt: string, updatedAt: string,
    loginTime: int)

  /** An entry of `factory_access_requests`. */
  datatype AccessRequest = AccessRequest(id: string, name: string, email: string, requestedAt: string)

  /** What a localStorage key that should hold a JSON array holds: nothing,
      text that does not parse as an array, or an array. */
  datatype Slot<T> = Missing | Corrupt | Holds(items: seq<T>)

  /** What `factory_session` holds: nothing (or JSON `null`), text that does
      not parse, or a session object. */
  datatype SessionSlot = NoSession | Unreadable | Stored(session: Session)

  /** The `{success, error}` objects the operations return. */
  datatype Outcome = Success | Failure(error: string)

  /** `{success: true, request}` or `{success: false, error}`. */
  datatype Result<T> = Ok(value: T) | Err(error: string)

  const FillAll := "requestError_fillAll"
  const AlreadyPending := "requestError_alreadyPending"
  const EmailExists := "requestError_emailExists"
  const RequestNotFound := "Request not found"
  const UserExists := "signUpError_userExists"
  const UserNotFound := "User not found"

  /** `SESSION_TIMEOUT_MS`: twelve hours. */
  const SessionTimeoutMs: int := 12 * 60 * 60 * 1000

  const DefaultPassword := "Welcome1"
  const DefaultRole := "worker"

  /** `DEFAULT_USERS`: the two owner accounts. */
  const SeedUsers: seq<User> := [
    User("guymaich", "Guy1234", "admin", "Guy Maich", "גיא מייך",
         "guymaich@gmail.com", "active", "", ""),
    User("yonatangarini", "Yon1234", "admin", "Yonatan Garini", "יונתן גריני",
         "yonatangarini@gmail.com", "active", "", "")
  ]

  // ------------------------------------------------- loading the user list

  predicate HasUsername(users: seq<User>, username: string)
  {
    exists i :: 0 <= i < |users| && users[i].username == username
  }

  /** Does a seed still need adding to `users`? */
  function MissingFrom(users: seq<User>): User -> bool
  {
    (seed: User) => !HasUsername(users, seed.username)
  }

  /** The migration loop of `getUsers`: each seed whose username no user has
      is pushed at the end, in the order of the seeds. */
  function WithSeeds(users: seq<User>, seeds: seq<User>): seq<User>
    decreases |seeds|
  {
    if seeds == [] then users
    else WithSeeds(if HasUsername(users, seeds[0].username) then users else users + [seeds[0]], seeds[1..])
  }

  /** The list `getUsers` returns (and leaves stored): the stored array after
      the migration, or the seeds alone when the key is missing, corrupt or
      not an array. */
  function LoadedUsers(slot: Slot<User>): seq<User>
  {
    match slot
    case Holds(users) => WithSeeds(users, SeedUsers)
    case _ => SeedUsers
  }

  /** The list `getPendingRequests` returns: a missing or unparseable key
      reads as the empty list. */
  function LoadedRequests(slot: Slot<AccessRequest>): seq<AccessRequest>
  {
    match slot
    case Holds(requests) => requests
    case _ => []
  }

  lemma HasUsernameAppend(users: seq<User>, u: User, username: string)
    ensures HasUsername(users + [u], username) <==> HasUsername(users, username) || u.username == username
  {
    if HasUsername(users, username) {
      var i :| 0 <= i < |users| && users[i].username == username;
      assert (users + [u])[i] == users[i];
    }
    if u.username == username {
      assert (users + [u])[|users|] == u;
    }
  }

  ghost predicate DistinctUsernames(users: seq<User>)
  {
    forall i, j :: 0 <= i < j < |users| ==> users[i].username != users[j].username
  }

  /** The migration keeps the stored users in place and appends exactly the
      seeds that were missing, in seed order, provided the seeds have
      distinct usernames. */
  lemma {:induction false} WithSeedsAppendsMissing(users: seq<User>, seeds: seq<User>)
    requires DistinctUsernames(seeds)
    ensures WithSeeds(users, seeds) == users + Filter(seeds, MissingFrom(users))
    decreases |seeds|
  {
    if seeds == [] {
      assert users + [] == users;
    } else {
      var next := AfterFirstSeed(users, seeds);
      TailDistinct(seeds);
      WithSeedsAppendsMissing(next, seeds[1..]);
      WithSeedsStep(users, seeds);
    }
  }

  /** The list after the first step of the migration loop. */
  function AfterFirstSeed(users: seq<User>, seeds: seq<User>): seq<User>
    requires seeds != []
  {
    if HasUsername(users, seeds[0].username) then users else users + [seeds[0]]
  }

  lemma WithSeedsStep(users: seq<User>, seeds: seq<User>)
    requires seeds != [] && DistinctUsernames(seeds)
    requires var next := AfterFirstSeed(users, seeds);
      WithSeeds(next, seeds[1..]) == next + Filter(seeds[1..], MissingFrom(next))
    ensures WithSeeds(users, seeds) == users + Filter(seeds, MissingFrom(users))
  {
    var next := AfterFirstSeed(users, seeds);
    assert WithSeeds(users, seeds) == WithSeeds(next, seeds[1..]);
    if HasUsername(users, seeds[0].username) {
      KnownSeedSkipped(users, seeds);
    } else {
      MissingSeedPushed(users, seeds);
    }
  }

  /** A seed some user already has is not among the missing ones. */
  lemma KnownSeedSkipped(users: seq<User>, seeds: seq<User>)
    requires seeds != [] && HasUsername(users, seeds[0].username)
    ensures Filter(seeds, MissingFrom(users)) == Filter(seeds[1..], MissingFrom(users))
  {
    FilterStep(seeds, MissingFrom(users));
    assert !MissingFrom(users)(seeds[0]);
  }

  /** A seed no user has is the first missing one, and pushing it leaves
      the later seeds missing as before. */
  lemma MissingSeedPushed(users: seq<User>, seeds: seq<User>)
    requires seeds != [] && DistinctUsernames(seeds) && !HasUsername(users, seeds[0].username)
    ensures var rest := Filter(seeds[1..], MissingFrom(users + [seeds[0]]));
      users + Filter(seeds, MissingFrom(users)) == (users + [seeds[0]]) + rest
  {
    var rest := Filter(seeds[1..], MissingFrom(users));
    SeedAddedKeepsOthers(users, seeds);
    FilterStep(seeds, MissingFrom(users));
    assert MissingFrom(users)(seeds[0]);
    assert Filter(seeds, MissingFrom(users)) == [seeds[0]] + rest;
    assert (users + [seeds[0]]) + rest == users + ([seeds[0]] + rest);
  }

  lemma TailDistinct(seeds: seq<User>)
    requires seeds != [] && DistinctUsernames(seeds)
    ensures DistinctUsernames(seeds[1..])
  {
    var tail := seeds[1..];
    forall i, j | 0 <= i < j < |tail| ensures tail[i].username != tail[j].username {
      assert tail[i] == seeds[i + 1] && tail[j] == seeds[j + 1];
    }
  }

  lemma FilterStep<T>(s: seq<T>, p: T -> bool)
    requires s != []
    ensures Filter(s, p) == (if p(s[0]) then [s[0]] else []) + Filter(s[1..], p)
  {
  }

  /** Once the first seed is appended, the later seeds are missing exactly when they were before. */
  lemma SeedAddedKeepsOthers(users: seq<User>, seeds: seq<User>)
    requires seeds != [] && DistinctUsernames(seeds)
    ensures Filter(seeds[1..], MissingFrom(users + [seeds[0]])) == Filter(seeds[1..], MissingFrom(users))
  {
    var tail := seeds[1..];
    var next := users + [seeds[0]];
    forall i | 0 <= i < |tail| ensures MissingFrom(next)(tail[i]) == MissingFrom(users)(tail[i]) {
      assert seeds[0].username != seeds[i + 1].username;
      HasUsernameAppend(users, seeds[0], tail[i].username);
    }
    FilterCongruent(tail, MissingFrom(next), MissingFrom(users));
  }

  /** After `getUsers` both owner accounts are present, whatever was stored. */
  lemma SeedsAlwaysLoaded(slot: Slot<User>)
    ensures HasUsername(LoadedUsers(slot), "guymaich")
    ensures HasUsername(LoadedUsers(slot), "yonatangarini")
  {
    var loaded := LoadedUsers(slot);
    forall k | 0 <= k < |SeedUsers| ensures HasUsername(loaded, SeedUsers[k].username) {
      SeedPresent(slot, k);
    }
    assert SeedUsers[0].username == "guymaich";
    assert SeedUsers[1].username == "yonatangarini";
  }

  lemma SeedPresent(slot: Slot<User>, k: nat)
    requires k < |SeedUsers|
    ensures HasUsername(LoadedUsers(slot), SeedUsers[k].username)
  {
    match slot
    case Holds(users) =>
      MigrationAppendsMissing(users);
      var added := Filter(SeedUsers, MissingFrom(users));
      if HasUsername(users, SeedUsers[k].username) {
        KeptUserFound(users, added, SeedUsers[k].username);
      } else {
        FilterMembers(SeedUsers, MissingFrom(users));
        assert MissingFrom(users)(SeedUsers[k]);
        AddedUserFound(users, added, SeedUsers[k]);
      }
    case _ =>
      assert LoadedUsers(slot)[k] == SeedUsers[k];
  }

  lemma KeptUserFound(users: seq<User>, added: seq<User>, username: string)
    requires HasUsername(users, username)
    ensures HasUsername(users + added, username)
  {
    var i :| 0 <= i < |users| && users[i].username == username;
    assert (users + added)[i] == users[i];
  }

  lemma AddedUserFound(users: seq<User>, added: seq<User>, u: User)
    requires u in added
    ensures HasUsername(users + added, u.username)
  {
    var j :| 0 <= j < |added| && added[j] == u;
    assert (users + added)[|users| + j] == u;
  }

  /** `getUsers` on a stored array: the users keep their order and the
      missing seeds follow them. */
  lemma MigrationAppendsMissing(users: seq<User>)
    ensures LoadedUsers(Holds(users)) == users + Filter(SeedUsers, MissingFrom(users))
  {
    assert SeedUsers[0].username != SeedUsers[1].username;
    WithSeedsAppendsMissing(users, SeedUsers);
  }

  /** A second `getUsers` changes nothing. */
  lemma MigrationIdempotent(slot: Slot<User>)
    ensures LoadedUsers(Holds(LoadedUsers(slot))) == LoadedUsers(slot)
  {
    var loaded := LoadedUsers(slot);
    MigrationAppendsMissing(loaded);
    var added := Filter(SeedUsers, MissingFrom(loaded));
    if added != [] {
      assert added[0] in SeedUsers && MissingFrom(loaded)(added[0]);
      var k :| 0 <= k < |SeedUsers| && SeedUsers[k] == added[0];
      SeedPresent(slot, k);
      assert false;
    }
    assert loaded + [] == loaded;
  }

  // ------------------------------------------------------------- log in

  /** The predicate `authenticate` passes to `users.find`. */
  predicate CanLogIn(u: User, identifier: string, password: string)
  {
    && u.status != "inactive"
    && u.password == password
    && ((u.email != "" && Lower(u.email) == Lower(identifier)) || Lower(u.username) == Lower(identifier))
  }

  function LogsIn(identifier: string, password: string): User -> bool
  {
    (u: User) => CanLogIn(u, identifier, password)
  }

  /** `{ ...user, loginTime }` with `password` deleted. */
  function SessionFor(u: User, now: int): Session
  {
    Session(u.username, u.role, u.name, u.nameHe, u.email, u.status, u.createdAt, u.updatedAt, now)
  }

  /** What `authenticate` returns: the session of the first user that may
      log in with these credentials, or null. */
  function Authenticated(users: seq<User>, identifier: string, password: string, now: int): (r: Option<Session>)
    ensures r.Some? <==> exists i :: 0 <= i < |users| && CanLogIn(users[i], identifier, password)
    ensures r.Some? ==>
      exists i :: 0 <= i < |users| && CanLogIn(users[i], identifier, password)
        && (forall j :: 0 <= j < i ==> !CanLogIn(users[j], identifier, password))
        && r.value == SessionFor(users[i], now)
  {
    match FindIndex(users, LogsIn(identifier, password))
    case Some(i) => Some(SessionFor(users[i], now))
    case None => None
  }

  /** Credentials are case-insensitive in the identifier only: the same
      identifier in any letter case yields the same answer. */
  lemma IdentifierCaseInsensitive(users: seq<User>, identifier: string, password: string, now: int)
    ensures Authenticated(users, Lower(identifier), password, now) == Authenticated(users, identifier, password, now)
  {
    LowerIdempotent(identifier);
    forall i | 0 <= i < |users|
      ensures LogsIn(Lower(identifier), password)(users[i]) == LogsIn(identifier, password)(users[i])
    {
    }
    SameMatchSameFind(users, LogsIn(Lower(identifier), password), LogsIn(identifier, password));
  }

  lemma {:induction false} SameMatchSameFind<T>(s: seq<T>, p: T -> bool, q: T -> bool)
    requires forall i :: 0 <= i < |s| ==> p(s[i]) == q(s[i])
    ensures FindIndex(s, p) == FindIndex(s, q)
  {
    if s != [] {
      SameMatchSameFind(s[1..], p, q);
    }
  }

  // ------------------------------------------------------------- session

  /** The time-out test of `getSession`; a falsy `loginTime` never expires,
      and exactly twelve hours is still valid. */
  predicate Expired(s: Session, now: int)
  {
    s.loginTime != 0 && now - s.loginTime > SessionTimeoutMs
  }

  /** What `getSession` leaves in `factory_session` and what it returns. */
  datatype SessionRead = SessionRead(slot: SessionSlot, session: Option<Session>)

  function ReadSession(slot: SessionSlot, now: int): SessionRead
  {
    match slot
    case NoSession => SessionRead(NoSession, None)
    case Unreadable => SessionRead(NoSession, None)
    case Stored(s) =>
      if Expired(s, now) then SessionRead(NoSession, None)
      else if s.username == "" || s.role == "" then SessionRead(NoSession, None)
      else SessionRead(slot, Some(s))
  }

  /** `getSession` returns the stored session exactly when it is readable,
      unexpired and carries a username and a role; otherwise it returns null
      and the key is left empty. */
  lemma ReadSessionCases(slot: SessionSlot, now: int)
    ensures var r := ReadSession(slot, now);
      r.session.Some? <==>
        slot.Stored? && !Expired(slot.session, now) && slot.session.username != "" && slot.session.role != ""
    ensures var r := ReadSession(slot, now); r.session.Some? ==> r.session.value == slot.session && r.slot == slot
    ensures var r := ReadSession(slot, now); r.session.None? ==> r.slot == NoSession
  {
  }

  /** A session issued at `now` is read back unchanged for twelve hours. */
  lemma SessionValidForTwelveHours(u: User, loginTime: int, now: int)
    requires u.username != "" && u.role != ""
    requires loginTime <= now <= loginTime + SessionTimeoutMs
    ensures ReadSession(Stored(SessionFor(u, loginTime)), now).session == Some(SessionFor(u, loginTime))
  {
  }

  /** ... and after that it is gone, from the answer and from storage. */
  lemma SessionExpiresAfterTwelveHours(u: User, loginTime: int, now: int)
    requires loginTime != 0 && now > loginTime + SessionTimeoutMs
    ensures ReadSession(Stored(SessionFor(u, loginTime)), now) == SessionRead(NoSession, None)
  {
  }

  // ------------------------------------------------------ access requests

  /** The email as it is stored in a request: trimmed, then lower-cased. */
  function NormalizedEmail(email: string): string
  {
    Lower(Trim(email))
  }

  /** A pending request with this email, compared as it will be stored. */
  predicate PendingFor(requests: seq<AccessRequest>, email: string)
  {
    exists i :: 0 <= i < |requests| && Lower(requests[i].email) == NormalizedEmail(email)
  }

  /** A user with this email, compared as it will be stored. */
  predicate EmailTaken(users: seq<User>, email: string)
  {
    exists i :: 0 <= i < |users| && users[i].email != "" && Lower(users[i].email) == NormalizedEmail(email)
  }

  /** The `findIndex` callback of the pending-email test. */
  function SameRequestEmail(normalized: string): AccessRequest -> bool
  {
    (q: AccessRequest) => Lower(q.email) == normalized
  }

  /** The `findIndex` callback of the existing-user test. */
  function SameUserEmail(normalized: string): User -> bool
  {
    (u: User) => u.email != "" && Lower(u.email) == normalized
  }

  /** The search of auth.js:129 finds a request exactly when one is pending. */
  lemma PendingSearch(requests: seq<AccessRequest>, email: string)
    ensures FindIndex(requests, SameRequestEmail(NormalizedEmail(email))).Some? <==> PendingFor(requests, email)
  {
    var p := SameRequestEmail(NormalizedEmail(email));
    assert forall i :: 0 <= i < |requests| ==> (p(requests[i]) <==> Lower(requests[i].email) == NormalizedEmail(email));
  }

  /** The search of auth.js:134 finds a user exactly when the email is taken. */
  lemma TakenSearch(users: seq<User>, email: string)
    ensures FindIndex(users, SameUserEmail(NormalizedEmail(email))).Some? <==> EmailTaken(users, email)
  {
    var p := SameUserEmail(NormalizedEmail(email));
    assert forall i :: 0 <= i < |users| ==>
      (p(users[i]) <==> users[i].email != "" && Lower(users[i].email) == NormalizedEmail(email));
  }

  /** The duplicate test of auth.js:129 as written: the untrimmed input. */
  predicate PendingForAsWritten(requests: seq<AccessRequest>, email: string)
  {
    exists i :: 0 <= i < |requests| && Lower(requests[i].email) == Lower(email)
  }

  /** The existing-user test of auth.js:134 as written: the untrimmed input. */
  predicate EmailTakenAsWritten(users: seq<User>, email: string)
  {
    exists i :: 0 <= i < |users| && users[i].email != "" && Lower(users[i].email) == Lower(email)
  }

  /** The error `submitAccessRequest` reports, in its order of precedence
      (empty field, then pending email, then existing user), or None. */
  function SubmitError(name: string, email: string, requests: seq<AccessRequest>, users: seq<User>): (r: Option<string>)
    ensures r == Some(FillAll) <==> name == "" || email == ""
    ensures r == Some(AlreadyPending) <==> name != "" && email != "" && PendingFor(requests, email)
    ensures r == Some(EmailExists) <==>
      name != "" && email != "" && !PendingFor(requests, email) && EmailTaken(users, email)
    ensures r.None? <==> name != "" && email != "" && !PendingFor(requests, email) && !EmailTaken(users, email)
  {
    if name == "" || email == "" then Some(FillAll)
    else if PendingFor(requests, email) then Some(AlreadyPending)
    else if EmailTaken(users, email) then Some(EmailExists)
    else None
  }

  /** The same cascade with the comparisons of auth.js:129 and auth.js:134 as written. */
  function SubmitErrorAsWritten(name: string, email: string, requests: seq<AccessRequest>, users: seq<User>): (r: Option<string>)
    ensures r == Some(FillAll) <==> name == "" || email == ""
    ensures r == Some(AlreadyPending) <==> name != "" && email != "" && PendingForAsWritten(requests, email)
    ensures r == Some(EmailExists) <==>
      name != "" && email != "" && !PendingForAsWritten(requests, email) && EmailTakenAsWritten(users, email)
    ensures r.None? <==>
      name != "" && email != "" && !PendingForAsWritten(requests, email) && !EmailTakenAsWritten(users, email)
  {
    if name == "" || email == "" then Some(FillAll)
    else if PendingForAsWritten(requests, email) then Some(AlreadyPending)
    else if EmailTakenAsWritten(users, email) then Some(EmailExists)
    else None
  }

  /** The correction changes nothing for an email typed without surrounding
      white space: both cascades then give the same answer. */
  lemma AsWrittenAgreesUnpadded(name: string, email: string, requests: seq<AccessRequest>, users: seq<User>)
    requires Trim(email) == email
    ensures SubmitErrorAsWritten(name, email, requests, users) == SubmitError(name, email, requests, users)
  {
    assert NormalizedEmail(email) == Lower(email);
  }

  /** The request `submitAccessRequest` appends. */
  function NewRequest(id: string, name: string, email: string, requestedAt: string): AccessRequest
  {
    AccessRequest(id, Trim(name), NormalizedEmail(email), requestedAt)
  }

  function DifferentEmail(a: AccessRequest, b: AccessRequest): bool
  {
    Lower(a.email) != Lower(b.email)
  }

  /** No two pending requests share an email: access requests are unique
      by email among the pending ones. */
  ghost predicate DistinctEmails(requests: seq<AccessRequest>)
  {
    PairwiseDistinct(requests, DifferentEmail)
  }

  /** Submitting the same email again while the first request is pending
      fails with `requestError_alreadyPending`, whatever name comes with it. */
  lemma ResubmitIsPending(name: string, email: string, requests: seq<AccessRequest>, users: seq<User>,
                          id: string, requestedAt: string, name2: string, users2: seq<User>)
    requires SubmitError(name, email, requests, users).None?
    requires name2 != ""
    ensures SubmitError(name2, email, requests + [NewRequest(id, name, email, requestedAt)], users2) == Some(AlreadyPending)
  {
    var after := requests + [NewRequest(id, name, email, requestedAt)];
    LowerIdempotent(Trim(email));
    assert Lower(after[|requests|].email) == NormalizedEmail(email);
  }

  /** A successful submission keeps the pending emails distinct. */
  lemma SubmitKeepsEmailsDistinct(name: string, email: string, requests: seq<AccessRequest>, users: seq<User>,
                                  id: string, requestedAt: string)
    requires DistinctEmails(requests)
    requires SubmitError(name, email, requests, users).None?
    ensures DistinctEmails(requests + [NewRequest(id, name, email, requestedAt)])
  {
    var added := NewRequest(id, name, email, requestedAt);
    var after := requests + [added];
    LowerIdempotent(Trim(email));
    forall i, j | 0 <= i < j < |after| ensures DifferentEmail(after[i], after[j]) {
      if j == |requests| {
        assert after[i] == requests[i];
      } else {
        assert after[i] == requests[i] && after[j] == requests[j];
      }
    }
  }

  /** Removing requests (approval or denial) keeps the pending emails distinct. */
  lemma RemovalKeepsEmailsDistinct(requests: seq<AccessRequest>, requestId: string)
    requires DistinctEmails(requests)
    ensures DistinctEmails(WithoutRequest(requests, requestId))
  {
    FilterKeepsPairwise(requests, NotRequest(requestId), DifferentEmail);
  }

  /** With the checks as written, a pending email typed again with a
      leading space is accepted, and the list then holds two requests for
      one email (for instance "ann@x.io" pending and " ann@x.io" submitted). */
  lemma AsWrittenAdmitsDuplicate(id: string, name: string, email: string, requestedAt: string,
                                 id2: string, requestedAt2: string)
    requires name != ""
    requires email != [] && !IsJsSpace(email[0]) && !IsJsSpace(email[|email| - 1])
    requires forall i :: 0 <= i < |email| ==> !IsUpper(email[i])
    ensures var requests := [AccessRequest(id, name, email, requestedAt)];
      && SubmitErrorAsWritten(name, " " + email, requests, []).None?
      && !DistinctEmails(requests + [NewRequest(id2, name, " " + email, requestedAt2)])
  {
    var requests := [AccessRequest(id, name, email, requestedAt)];
    var typed := " " + email;
    assert |Lower(typed)| != |Lower(email)|;
    assert !PendingForAsWritten(requests, typed);
    assert !EmailTakenAsWritten([], typed);
    assert SubmitErrorAsWritten(name, typed, requests, []).None?;
    PaddedEmailNormalizes(email);
    var after := requests + [NewRequest(id2, name, typed, requestedAt2)];
    assert after[0].email == email && after[1].email == email;
    assert !DifferentEmail(after[0], after[1]);
  }

  lemma PaddedEmailNormalizes(email: string)
    requires email != [] && !IsJsSpace(email[0]) && !IsJsSpace(email[|email| - 1])
    requires forall i :: 0 <= i < |email| ==> !IsUpper(email[i])
    ensures NormalizedEmail(" " + email) == email
  {
    var typed := " " + email;
    assert typed[1..] == email;
    assert LeadingSpaces(typed) == 1;
    assert TrailingSpaces(email) == 0;
    assert email[..|email|] == email;
    LowerKeepsLower(email);
  }

  // ------------------------------------------------------- approve / deny

  function NotRequest(requestId: string): AccessRequest -> bool
  {
    (r: AccessRequest) => r.id != requestId
  }

  function IsRequest(requestId: string): AccessRequest -> bool
  {
    (r: AccessRequest) => r.id == requestId
  }

  /** `requests.filter(r => r.id !== requestId)`. */
  function WithoutRequest(requests: seq<AccessRequest>, requestId: string): (r: seq<AccessRequest>)
    ensures forall i :: 0 <= i < |r| ==> r[i].id != requestId && r[i] in requests
    ensures forall i :: 0 <= i < |requests| && requests[i].id != requestId ==> requests[i] in r
  {
    FilterMembers(requests, NotRequest(requestId));
    Filter(requests, NotRequest(requestId))
  }

  /** Denying a request twice is denying it once. */
  lemma DenyIdempotent(requests: seq<AccessRequest>, requestId: string)
    ensures WithoutRequest(WithoutRequest(requests, requestId), requestId) == WithoutRequest(requests, requestId)
  {
    FilterIdempotent(requests, NotRequest(requestId));
  }

  /** The username an approval derives: the email's local part with every
      character outside [a-zA-Z0-9] removed. */
  function ApplicantUsername(email: string): string
  {
    AlnumOnly(LocalPart(email))
  }

  function PasswordOrDefault(password: string): string
  {
    if password == "" then DefaultPassword else password
  }

  /** The object `approveRequest` hands to `createUser`. */
  function ApplicantData(req: AccessRequest, password: string, role: string): User
  {
    User(ApplicantUsername(req.email), PasswordOrDefault(password),
         if role == "" then DefaultRole else role,
         req.name, "", req.email, "active", "", "")
  }

  // ------------------------------------------------------- user management

  /** The clash test of `createUser`: usernames compared case-insensitively. */
  predicate UsernameTaken(users: seq<User>, username: string)
  {
    exists i :: 0 <= i < |users| && Lower(users[i].username) == Lower(username)
  }

  /** `{ ...userData, createdAt, status: userData.status || 'active' }`. */
  function NewUser(data: User, createdAt: string): User
  {
    data.(createdAt := createdAt, status := if data.status == "" then "active" else data.status)
  }

  ghost predicate UniqueUsernames(users: seq<User>)
  {
    forall i, j :: 0 <= i < j < |users| ==> Lower(users[i].username) != Lower(users[j].username)
  }

  /** `createUser` keeps usernames unique up to letter case. */
  lemma CreateKeepsUsernamesUnique(users: seq<User>, data: User, createdAt: string)
    requires UniqueUsernames(users)
    requires !UsernameTaken(users, data.username)
    ensures UniqueUsernames(users + [NewUser(data, createdAt)])
  {
    var after := users + [NewUser(data, createdAt)];
    forall i, j | 0 <= i < j < |after| ensures Lower(after[i].username) != Lower(after[j].username) {
      assert after[i] == users[i];
      if j < |users| {
        assert after[j] == users[j];
      }
    }
  }

  /** After a push, the pushed user logs in when the credentials fit it;
      when no earlier user accepts them, the session is the pushed user's. */
  lemma {:induction false} NewcomerLogsIn(users: seq<User>, u: User, identifier: string, password: string, now: int)
    requires CanLogIn(u, identifier, password)
    ensures Authenticated(users + [u], identifier, password, now).Some?
    ensures (forall i :: 0 <= i < |users| ==> !CanLogIn(users[i], identifier, password)) ==>
      Authenticated(users + [u], identifier, password, now) == Some(SessionFor(u, now))
  {
    var after := users + [u];
    assert after[|users|] == u;
    if forall i :: 0 <= i < |users| ==> !CanLogIn(users[i], identifier, password) {
      forall i | 0 <= i < |users| ensures !CanLogIn(after[i], identifier, password) {
        assert after[i] == users[i];
      }
    }
  }

  /** An approved applicant can log in at once, with their email or with the
      username derived from it, and the password the approval set. Unless an
      earlier user accepts the same credentials, the session is the new
      user's: the derived username, the role chosen at approval (`worker`
      by default), the applicant's name and email, active, stamped now. */
  lemma ApprovedApplicantCanLogIn(users: seq<User>, req: AccessRequest, password: string, role: string,
                                  createdAt: string, now: int)
    ensures var after := users + [NewUser(ApplicantData(req, password, role), createdAt)];
      && Authenticated(after, req.email, PasswordOrDefault(password), now).Some?
      && Authenticated(after, ApplicantUsername(req.email), PasswordOrDefault(password), now).Some?
    ensures var after := users + [NewUser(ApplicantData(req, password, role), createdAt)];
      var session := Session(ApplicantUsername(req.email), if role == "" then "worker" else role,
                             req.name, "", req.email, "active", createdAt, "", now);
      && ((forall i :: 0 <= i < |users| ==> !CanLogIn(users[i], req.email, PasswordOrDefault(password))) ==>
            Authenticated(after, req.email, PasswordOrDefault(password), now) == Some(session))
      && ((forall i :: 0 <= i < |users| ==> !CanLogIn(users[i], ApplicantUsername(req.email), PasswordOrDefault(password))) ==>
            Authenticated(after, ApplicantUsername(req.email), PasswordOrDefault(password), now) == Some(session))
  {
    var u := NewUser(ApplicantData(req, password, role), createdAt);
    if req.email == "" {
      assert LocalPart("") == "";
      assert u.username == "";
    }
    assert CanLogIn(u, req.email, PasswordOrDefault(password));
    assert CanLogIn(u, ApplicantUsername(req.email), PasswordOrDefault(password));
    NewcomerLogsIn(users, u, req.email, PasswordOrDefault(password), now);
    NewcomerLogsIn(users, u, ApplicantUsername(req.email), PasswordOrDefault(password), now);
  }

  /** The fields `updateUser` may overwrite; None leaves a field as it is. */
  datatype UserPatch = UserPatch(
    username: Option<string>, password: Option<string>, role: Option<string>,
    name: Option<string>, nameHe: Option<string>, email: Option<string>,
    status: Option<string>, createdAt: Option<string>)

  function Or(o: Option<string>, fallback: string): string
  {
    match o
    case Some(v) => v
    case None => fallback
  }

  /** `{ ...user, ...updates, updatedAt }`. */
  function Patched(u: User, patch: UserPatch, updatedAt: string): User
  {
    User(Or(patch.username, u.username), Or(patch.password, u.password), Or(patch.role, u.role),
         Or(patch.name, u.name), Or(patch.nameHe, u.nameHe), Or(patch.email, u.email),
         Or(patch.status, u.status), Or(patch.createdAt, u.createdAt), updatedAt)
  }

  function Named(username: string): User -> bool
  {
    (u: User) => u.username == username
  }

  function NotNamed(username: string): User -> bool
  {
    (u: User) => u.username != username
  }

  /** `users.filter(u => u.username !== username)`: every exact match goes,
      the other users stay in order. */
  function WithoutUser(users: seq<User>, username: string): (r: seq<User>)
    ensures forall i :: 0 <= i < |r| ==> r[i].username != username && r[i] in users
    ensures forall i :: 0 <= i < |users| && users[i].username != username ==> users[i] in r
    ensures |r| < |users| <==> HasUsername(users, username)
  {
    FilterMembers(users, NotNamed(username));
    Filter(users, NotNamed(username))
  }

  /** Deleting a username twice is deleting it once. */
  lemma DeleteIdempotent(users: seq<User>, username: string)
    ensures WithoutUser(WithoutUser(users, username), username) == WithoutUser(users, username)
  {
    FilterIdempotent(users, NotNamed(username));
  }

  // ----------------------------------------- the shared `DEFAULT_USERS` array

  /** The migration only appends: the stored users stay in front. */
  lemma {:induction false} WithSeedsExtends(users: seq<User>, seeds: seq<User>)
    ensures users <= WithSeeds(users, seeds)
    decreases |seeds|
  {
    if seeds != [] {
      var next := if HasUsername(users, seeds[0].username) then users else users + [seeds[0]];
      WithSeedsExtends(next, seeds[1..]);
    }
  }

  /** A seed whose username neither the users nor an earlier seed carry is
      pushed by the migration. */
  lemma {:induction false} WithSeedsAddsMissing(users: seq<User>, seeds: seq<User>, k: nat)
    requires k < |seeds|
    requires !HasUsername(users, seeds[k].username)
    requires forall j :: 0 <= j < k ==> seeds[j].username != seeds[k].username
    ensures seeds[k] in WithSeeds(users, seeds)
    decreases k
  {
    var next := if HasUsername(users, seeds[0].username) then users else users + [seeds[0]];
    if k == 0 {
      assert next == users + [seeds[0]];
      assert next[|users|] == seeds[0];
      WithSeedsExtends(next, seeds[1..]);
      assert next[|users|] == WithSeeds(users, seeds)[|users|];
    } else {
      HasUsernameAppend(users, seeds[0], seeds[k].username);
      assert seeds[1..][k - 1] == seeds[k];
      WithSeedsAddsMissing(next, seeds[1..], k - 1);
    }
  }

  /** `getUsers` as written, with the current content of `DEFAULT_USERS` as
      `defaults`: the list it returns, and whether that list is the
      `DEFAULT_USERS` array itself, as it is when the key is missing or
      unreadable. */
  function UsersAsWritten(slot: Slot<User>, defaults: seq<User>): (seq<User>, bool)
  {
    match slot
    case Holds(users) => (WithSeeds(users, defaults), false)
    case _ => (defaults, true)
  }

  /** `createUser` as written: the new key and the new content of
      `DEFAULT_USERS`, which the push grows as well when the list is that
      array. */
  function CreateAsWritten(slot: Slot<User>, defaults: seq<User>, data: User, createdAt: string): (Slot<User>, seq<User>)
  {
    var (list, aliased) := UsersAsWritten(slot, defaults);
    if UsernameTaken(list, data.username) then (Holds(list), defaults)
    else
      var after := list + [NewUser(data, createdAt)];
      (Holds(after), if aliased then after else defaults)
  }

  /** `deleteUserByUsername` as written: `filter` builds a new array, so
      `DEFAULT_USERS` keeps what it holds. */
  function DeleteAsWritten(slot: Slot<User>, defaults: seq<User>, username: string): Slot<User>
  {
    var list := UsersAsWritten(slot, defaults).0;
    var filtered := WithoutUser(list, username);
    if |filtered| < |list| then Holds(filtered) else Holds(list)
  }

  /** As written, a user created while the key is missing lands in
      `DEFAULT_USERS` too (whatever that array holds by then); deleting that
      user removes it from the key only, so the next load restores it as a
      seed and it can log in again. */
  lemma AsWrittenDeletedUserReturns(defaults: seq<User>, data: User, createdAt: string, now: int)
    requires !UsernameTaken(defaults, data.username)
    requires data.status != "inactive"
    ensures var (created, grown) := CreateAsWritten(Missing, defaults, data, createdAt);
      var reloaded := UsersAsWritten(DeleteAsWritten(created, grown, data.username), grown).0;
      && HasUsername(reloaded, data.username)
      && Authenticated(reloaded, data.username, data.password, now).Some?
  {
    var u := NewUser(data, createdAt);
    var grown := defaults + [u];
    assert CreateAsWritten(Missing, defaults, data, createdAt) == (Holds(grown), grown);
    var list := WithSeeds(grown, grown);
    WithSeedsExtends(grown, grown);
    assert list[|defaults|] == u;
    var filtered := WithoutUser(list, data.username);
    assert |filtered| < |list|;
    assert !HasUsername(filtered, data.username);
    forall j | 0 <= j < |defaults| ensures grown[j].username != grown[|defaults|].username {
      assert grown[j] == defaults[j];
      assert Lower(defaults[j].username) != Lower(data.username);
    }
    WithSeedsAddsMissing(filtered, grown, |defaults|);
    var reloaded := WithSeeds(filtered, grown);
    var i :| 0 <= i < |reloaded| && reloaded[i] == u;
    assert CanLogIn(reloaded[i], data.username, data.password);
  }

  /** With `DEFAULT_USERS` left as the two owner accounts, a deleted user
      who is not one of them stays deleted however often the list is
      loaded again. */
  lemma DeletedUserStaysDeleted(users: seq<User>, username: string)
    requires !HasUsername(SeedUsers, username)
    ensures !HasUsername(LoadedUsers(Holds(WithoutUser(users, username))), username)
  {
    var kept := WithoutUser(users, username);
    MigrationAppendsMissing(kept);
    var added := Filter(SeedUsers, MissingFrom(kept));
    FilterMembers(SeedUsers, MissingFrom(kept));
    forall i | 0 <= i < |kept + added| ensures (kept + added)[i].username != username {
      if i >= |kept| {
        assert (kept + added)[i] == added[i - |kept|];
      }
    }
  }

  /** A patch that names no field only stamps `updatedAt`. */
  lemma EmptyPatchOnlyStamps(u: User, updatedAt: string)
    ensures Patched(u, UserPatch(None, None, None, None, None, None, None, None), updatedAt) == u.(updatedAt := updatedAt)
  {
  }

  /** An email whose local part is already plain letters and digits gives
      that local part as the username (newuser@example.com becomes newuser). */
  lemma {:induction false} PlainLocalPartIsUsername(local: string, domain: string)
    requires forall i :: 0 <= i < |local| ==> IsAsciiAlnum(local[i])
    ensures ApplicantUsername(local + "@" + domain) == local
  {
    var email := local + "@" + domain;
    assert email[|local|] == '@';
    assert email[..|local|] == local;
    assert LocalPart(email) == local;
    FilterKeepsAll(local, IsAsciiAlnum);
  }
}
