/** The three localStorage keys of auth.js as the fields of one object, and
    the operations of auth.js as methods that read those fields and write
    them back, as the source reads and writes the keys. Each method's
    postcondition gives its whole new state in terms of the functions of
    module Auth. */
module AuthStore {
  import opened JsArray
  import opened JsString
  import opened Auth
  import Permissions

  class LocalStore {
    /** `factory_users` */
    var users: Slot<User>
    /** `factory_session` */
    var session: SessionSlot
    /** `factory_access_requests` */
    var requests: Slot<AccessRequest>

    constructor (users: Slot<User>, session: SessionSlot, requests: Slot<AccessRequest>)
      ensures this.users == users && this.session == session && this.requests == requests
    {
      this.users := users;
      this.session := session;
      this.requests := requests;
    }

    /** `getUsers`: a missing, corrupt or non-array key is replaced by the
        seeds; otherwise every missing seed is pushed, and the list is
        written back only if something was pushed. */
    method GetUsers() returns (list: seq<User>)
      modifies this`users
      ensures list == LoadedUsers(old(users))
      ensures users == Holds(list)
    {
      if !users.Holds? {
        list := SeedUsers;
        users := Holds(list);
        return;
      }
      list := users.items;
      var changed := false;
      var i := 0;
      while i < |SeedUsers|
        invariant 0 <= i <= |SeedUsers|
        invariant WithSeeds(list, SeedUsers[i..]) == LoadedUsers(old(users))
        invariant !changed ==> list == old(users).items
        invariant users == old(users)
      {
        var required := SeedUsers[i];
        assert SeedUsers[i..][1..] == SeedUsers[i + 1..];
        if FindIndex(list, Named(required.username)).None? {
          list := list + [required];
          changed := true;
        }
        i := i + 1;
      }
      if changed {
        users := Holds(list);
      }
    }

    /** `authenticate`: the first user the credentials fit becomes the
        session, replacing any earlier one; on failure the session key is
        left alone. */
    method Authenticate(identifier: string, password: string, now: int) returns (s: Option<Session>)
      modifies this`users, this`session
      ensures users == Holds(LoadedUsers(old(users)))
      ensures s == Authenticated(LoadedUsers(old(users)), identifier, password, now)
      ensures session == if s.Some? then Stored(s.value) else old(session)
    {
      var list := GetUsers();
      var found := FindIndex(list, LogsIn(identifier, password));
      if found.Some? {
        var issued := SessionFor(list[found.value], now);
        session := Stored(issued);
        return Some(issued);
      }
      return None;
    }

    /** `getPendingRequests`: a missing or unparseable key reads as no requests. */
    method PendingRequests() returns (list: seq<AccessRequest>)
      ensures requests.Holds? ==> list == requests.items
      ensures !requests.Holds? ==> list == []
    {
      match requests
      case Holds(items) => list := items;
      case _ => list := [];
    }

    /** `submitAccessRequest`, with the duplicate checks comparing the email
        as it will be stored (trimmed and lower-cased). */
    method SubmitAccessRequest(name: string, email: string, id: string, requestedAt: string)
      returns (r: Result<AccessRequest>)
      modifies this`users, this`requests
      ensures var error := SubmitError(name, email, LoadedRequests(old(requests)), LoadedUsers(old(users)));
        && (error.Some? ==> r == Err(error.value) && requests == old(requests))
        && (error.None? ==> r == Ok(NewRequest(id, name, email, requestedAt))
                            && requests == Holds(LoadedRequests(old(requests)) + [r.value]))
      ensures users == if name == "" || email == "" || PendingFor(LoadedRequests(old(requests)), email)
                       then old(users) else Holds(LoadedUsers(old(users)))
    {
      var error, pending := SubmitCheck(name, email);
      if error.Some? {
        return Err(error.value);
      }
      var request := NewRequest(id, name, email, requestedAt);
      requests := Holds(pending + [request]);
      return Ok(request);
    }

    /** The three refusals of `submitAccessRequest`, in their order. The
        user list is loaded, and so migrated, only after the pending check
        passes. */
    method SubmitCheck(name: string, email: string) returns (error: Option<string>, pending: seq<AccessRequest>)
      modifies this`users
      ensures pending == LoadedRequests(requests)
      ensures error == SubmitError(name, email, pending, LoadedUsers(old(users)))
      ensures users == if name == "" || email == "" || PendingFor(pending, email)
                       then old(users) else Holds(LoadedUsers(old(users)))
    {
      pending := PendingRequests();
      if name == "" || email == "" {
        return Some(FillAll), pending;
      }
      var normalized := NormalizedEmail(email);
      PendingSearch(pending, email);
      if FindIndex(pending, SameRequestEmail(normalized)).Some? {
        return Some(AlreadyPending), pending;
      }
      var list := GetUsers();
      TakenSearch(list, email);
      if FindIndex(list, SameUserEmail(normalized)).Some? {
        return Some(EmailExists), pending;
      }
      return None, pending;
    }

    /** `createUser`: refuse a username some user has in any letter case,
        otherwise push the new user. */
    method CreateUser(data: User, createdAt: string) returns (r: Outcome)
      modifies this`users
      ensures var before := LoadedUsers(old(users));
        && (UsernameTaken(before, data.username) ==> r == Failure(UserExists) && users == Holds(before))
        && (!UsernameTaken(before, data.username) ==>
              r == Success && users == Holds(before + [NewUser(data, createdAt)]))
    {
      var list := GetUsers();
      var wanted := Lower(data.username);
      if FindIndex(list, (u: User) => Lower(u.username) == wanted).Some? {
        return Failure(UserExists);
      }
      users := Holds(list + [NewUser(data, createdAt)]);
      return Success;
    }

    /** `approveRequest`: create the applicant's user; only when that
        succeeds are the requests with this id removed. */
    method ApproveRequest(requestId: string, password: string, role: string, createdAt: string)
      returns (r: Outcome)
      modifies this`users, this`requests
      ensures var pending := LoadedRequests(old(requests));
        var found := FindIndex(pending, IsRequest(requestId));
        && (found.None? ==> r == Failure(RequestNotFound) && users == old(users) && requests == old(requests))
        && (found.Some? ==>
              var data := ApplicantData(pending[found.value], password, role);
              var before := LoadedUsers(old(users));
              var taken := UsernameTaken(before, data.username);
              && users == Holds(if taken then before else before + [NewUser(data, createdAt)])
              && (taken ==> r == Failure(UserExists) && requests == old(requests))
              && (!taken ==> r == Success && requests == Holds(WithoutRequest(pending, requestId))))
    {
      var pending := PendingRequests();
      var found := FindIndex(pending, IsRequest(requestId));
      if found.None? {
        return Failure(RequestNotFound);
      }
      var data := ApplicantData(pending[found.value], password, role);
      r := CreateUser(data, createdAt);
      if r.Failure? {
        return;
      }
      requests := Holds(WithoutRequest(pending, requestId));
      return Success;
    }

    /** `denyRequest`: always succeeds; drops every request with this id. */
    method DenyRequest(requestId: string) returns (r: Outcome)
      modifies this`requests
      ensures r == Success
      ensures requests == Holds(WithoutRequest(LoadedRequests(old(requests)), requestId))
    {
      var pending := PendingRequests();
      requests := Holds(WithoutRequest(pending, requestId));
      return Success;
    }

    /** `getSession`: clears the key when it is unreadable, expired or
        lacks a username or a role. */
    method GetSession(now: int) returns (s: Option<Session>)
      modifies this`session
      ensures SessionRead(session, s) == ReadSession(old(session), now)
    {
      match session
      case NoSession =>
        return None;
      case Unreadable =>
        session := NoSession;
        return None;
      case Stored(stored) =>
        if stored.loginTime != 0 && now - stored.loginTime > SessionTimeoutMs {
          session := NoSession;
          return None;
        }
        if stored.username == "" || stored.role == "" {
          session := NoSession;
          return None;
        }
        return Some(stored);
    }

    /** `logout`, without its screen changes. */
    method Logout()
      modifies this`session
      ensures session == NoSession
    {
      session := NoSession;
    }

    /** `hasPermission`: false without a valid session; otherwise the table
        entry for the session's role and the capability's name. */
    method HasPermission(perm: string, now: int) returns (granted: bool)
      modifies this`session
      ensures var read := ReadSession(old(session), now);
        && session == read.slot
        && granted == (read.session.Some? && Permissions.Allows(read.session.value.role, perm))
    {
      var s := GetSession(now);
      if s.None? {
        return false;
      }
      granted := Permissions.Allows(s.value.role, perm);
    }

    /** `updateUser`: the first user with exactly this username is merged
        with the patch and stamped; no write when there is none. */
    method UpdateUser(username: string, patch: UserPatch, updatedAt: string) returns (r: Outcome)
      modifies this`users
      ensures var before := LoadedUsers(old(users));
        var found := FindIndex(before, Named(username));
        && (found.None? ==> r == Failure(UserNotFound) && users == Holds(before))
        && (found.Some? ==>
              r == Success
              && users == Holds(before[found.value := Patched(before[found.value], patch, updatedAt)]))
    {
      var list := GetUsers();
      var found := FindIndex(list, Named(username));
      if found.Some? {
        var i := found.value;
        list := list[i := Patched(list[i], patch, updatedAt)];
        users := Holds(list);
        return Success;
      }
      return Failure(UserNotFound);
    }

    /** `deleteUserByUsername`: drops every user with exactly this username;
        no write when there is none. */
    method DeleteUserByUsername(username: string) returns (r: Outcome)
      modifies this`users
      ensures var before := LoadedUsers(old(users));
        && (HasUsername(before, username) ==> r == Success && users == Holds(WithoutUser(before, username)))
        && (!HasUsername(before, username) ==> r == Failure(UserNotFound) && users == Holds(before))
    {
      var list := GetUsers();
      var filtered := WithoutUser(list, username);
      if |filtered| < |list| {
        users := Holds(filtered);
        return Success;
      }
      return Failure(UserNotFound);
    }
  }
}
