/**
 * The authentication context (`AuthProvider`): who is signed in, with which
 * token, and whether as an administrator. The in-memory slots mirror four keys
 * of the browser's persistent storage, modelled here as a map field.
 *
 * The login server's reply, the token decoder and the user-record fetch are
 * parameters of the methods that use them.
 */
module Session {
  import opened Wrappers

  datatype UserRecord = UserRecord(id: int, username: string, email: string, credits: nat)

  /** What a login request yields. */
  datatype LoginReply =
    | Accepted(token: string, admin: Option<UserRecord>)  // a 2xx reply; `admin` only in the administrator's reply
    | Rejected(message: Option<string>)                   // a non-2xx reply and its `error` field, if present
    | Unreachable                                         // the request or the decoding of its body threw

  const UserTokenKey := "userToken"
  const AdminTokenKey := "adminToken"
  const UserKey := "user"
  const IsAdminKey := "isAdmin"

  /** The storage keys owned by the session. */
  const SessionKeys: set<string> := {UserTokenKey, AdminTokenKey, UserKey, IsAdminKey}

  const ConnectError := "Failed to connect to the server"

  /** A token slot read as a JavaScript condition: `null` and the empty string are falsy. */
  predicate Truthy(t: Option<string>) {
    t.Some? && t.value != ""
  }

  /** The role flag restored at start-up: set only by the exact stored string "true". */
  function StoredIsAdmin(stored: map<string, string>): (r: bool)
    ensures r <==> IsAdminKey in stored && stored[IsAdminKey] == "true"
  {
    Lookup(stored, IsAdminKey) == Some("true")
  }

  /** Storage after logging out: the session keys are gone, every other entry is untouched. */
  function LogoutStorage(m: map<string, string>): (r: map<string, string>)
    ensures r.Keys == m.Keys - SessionKeys
    ensures forall k | k in r :: r[k] == m[k]
  {
    m - SessionKeys
  }

  /** Logging out a second time leaves storage as the first time did. */
  lemma LogoutStorageIdempotent(m: map<string, string>)
    ensures LogoutStorage(LogoutStorage(m)) == LogoutStorage(m)
  {
  }

  /** What storage holds under `user` after a successful refresh; "undefined" when the reply had no record. */
  function StoredUser(record: Option<UserRecord>, serialize: UserRecord -> string): string {
    match record
    case Some(r) => serialize(r)
    case None => "undefined"
  }

  class AuthState {
    var user: Option<UserRecord>
    /** The user token slot. */
    var token: Option<string>
    var adminToken: Option<string>
    var error: Option<string>
    var isAdmin: bool
    var storage: map<string, string>

    /** The in-memory token and role slots hold exactly what storage holds. */
    ghost predicate MirrorsStorage()
      reads this
    {
      && token == Lookup(storage, UserTokenKey)
      && adminToken == Lookup(storage, AdminTokenKey)
      && isAdmin == StoredIsAdmin(storage)
    }

    /** At most one of the two token slots is filled, in memory and in storage. */
    ghost predicate SlotsExclusive()
      reads this
    {
      && (token.None? || adminToken.None?)
      && (UserTokenKey !in storage || AdminTokenKey !in storage)
    }

    /** The `token` the context exposes: the slot of the current role. */
    function ExposedToken(): (t: Option<string>)
      reads this
      ensures isAdmin ==> t == adminToken
      ensures !isAdmin ==> t == token
      ensures MirrorsStorage() ==> t == Lookup(storage, if StoredIsAdmin(storage) then AdminTokenKey else UserTokenKey)
    {
      if isAdmin then adminToken else token
    }

    /** The context's `isAuthenticated`. */
    predicate IsAuthenticated(): (r: bool)
      reads this
      ensures r <==> Truthy(ExposedToken())
    {
      if isAdmin then Truthy(adminToken) else Truthy(token)
    }

    /** Start-up: the slots are read back from storage; no user record is loaded yet. */
    constructor (stored: map<string, string>)
      ensures storage == stored && user == None && error == None
      ensures token == Lookup(stored, UserTokenKey) && adminToken == Lookup(stored, AdminTokenKey)
      ensures isAdmin <==> IsAdminKey in stored && stored[IsAdminKey] == "true"
      ensures MirrorsStorage()
    {
      storage := stored;
      user := None;
      token := Lookup(stored, UserTokenKey);
      adminToken := Lookup(stored, AdminTokenKey);
      error := None;
      isAdmin := StoredIsAdmin(stored);
    }

    /**
     * `login`: a user token replaces any administrator session. The user
     * record is left as it was; it is reloaded by `RefreshUserData`.
     */
    method Login(reply: LoginReply) returns (ok: bool)
      modifies this`token, this`adminToken, this`isAdmin, this`error, this`storage
      ensures ok <==> reply.Accepted?
      ensures old(MirrorsStorage()) ==> MirrorsStorage()
      ensures reply.Accepted? ==>
        && token == Some(reply.token) && adminToken == None && !isAdmin && error == None
        && storage == old(storage)[UserTokenKey := reply.token] - {AdminTokenKey, IsAdminKey}
        && SlotsExclusive()
        && ExposedToken() == Some(reply.token)
        && (IsAuthenticated() <==> reply.token != "")
      ensures !reply.Accepted? ==>
        && token == old(token) && adminToken == old(adminToken)
        && isAdmin == old(isAdmin) && storage == old(storage)
      ensures reply.Rejected? ==> error == reply.message
      ensures reply.Unreachable? ==> error == Some(ConnectError)
    {
      match reply
      case Rejected(message) =>
        error := message;
        return false;
      case Unreachable =>
        error := Some(ConnectError);
        return false;
      case Accepted(t, _) =>
        storage := storage[UserTokenKey := t];
        storage := storage - {AdminTokenKey};
        storage := storage - {IsAdminKey};
        token := Some(t);
        adminToken := None;
        isAdmin := false;
        error := None;
        return true;
    }

    /**
     * `adminLogin`: an administrator token replaces any user session and the
     * reply's administrator record becomes the user record.
     */
    method AdminLogin(reply: LoginReply) returns (ok: bool)
      modifies this
      ensures ok <==> reply.Accepted?
      ensures old(MirrorsStorage()) ==> MirrorsStorage()
      ensures reply.Accepted? ==>
        && adminToken == Some(reply.token) && token == None && isAdmin && error == None
        && user == reply.admin
        && storage == old(storage)[AdminTokenKey := reply.token][IsAdminKey := "true"] - {UserTokenKey}
        && SlotsExclusive()
        && ExposedToken() == Some(reply.token)
        && (IsAuthenticated() <==> reply.token != "")
      ensures !reply.Accepted? ==>
        && token == old(token) && adminToken == old(adminToken) && user == old(user)
        && isAdmin == old(isAdmin) && storage == old(storage)
      ensures reply.Rejected? ==> error == reply.message
      ensures reply.Unreachable? ==> error == Some(ConnectError)
    {
      match reply
      case Rejected(message) =>
        error := message;
        return false;
      case Unreachable =>
        error := Some(ConnectError);
        return false;
      case Accepted(t, admin) =>
        storage := storage[AdminTokenKey := t];
        storage := storage[IsAdminKey := "true"];
        storage := storage - {UserTokenKey};
        adminToken := Some(t);
        token := None;
        user := admin;
        isAdmin := true;
        error := None;
        return true;
    }

    /** `logout`: unconditional; every session slot and storage key is cleared. */
    method Logout()
      modifies this
      ensures user == None && token == None && adminToken == None && !isAdmin && error == None
      ensures storage == LogoutStorage(old(storage))
      ensures MirrorsStorage() && SlotsExclusive() && !IsAuthenticated()
    {
      storage := storage - {UserTokenKey};
      storage := storage - {AdminTokenKey};
      storage := storage - {UserKey};
      storage := storage - {IsAdminKey};
      user := None;
      token := None;
      adminToken := None;
      isAdmin := false;
      error := None;
    }

    /**
     * `refreshUserData`: with a user token and no administrator role, the
     * user id is decoded from the token and the record fetched and cached.
     * `decodeUserId` stands for the token decoder together with the id checks
     * of the user-record request: it answers `None` when the token does not
     * decode, when its user-id claim is missing or falsy, or when the claim
     * does not parse as a base-10 integer, and otherwise the parsed id (which
     * may be 0, for the claim "0"). `fetchUser` stands for the user-record
     * request: `None` when it fails, `Some(r)` when it succeeds
     * with the first record of the reply, `r` being `None` for an empty list.
     * `serialize` is the JSON encoding of a record. A successful reply without
     * a record clears `user` and stores the string "undefined", as
     * `JSON.stringify(undefined)` written to storage does. Every failure is
     * swallowed.
     */
    method RefreshUserData(
      decodeUserId: string -> Option<int>,
      fetchUser: (string, int) -> Option<Option<UserRecord>>,
      serialize: UserRecord -> string)
      modifies this`user, this`storage
      ensures old(MirrorsStorage()) ==> MirrorsStorage()
      ensures
        var id := if Truthy(token) && !isAdmin then decodeUserId(token.value) else None;
        var fetched := if id.Some? then fetchUser(token.value, id.value) else None;
        && (fetched.Some? ==> user == fetched.value && storage == old(storage)[UserKey := StoredUser(fetched.value, serialize)])
        && (fetched.None? ==> user == old(user) && storage == old(storage))
    {
      if Truthy(token) && !isAdmin {
        var decoded := decodeUserId(token.value);
        if decoded.Some? {
          var reply := fetchUser(token.value, decoded.value);
          if reply.Some? {
            user := reply.value;
            storage := storage[UserKey := StoredUser(reply.value, serialize)];
          }
        }
      }
    }
  }

  /** Calling `Logout` again changes nothing. */
  method LogoutTwice(s: AuthState)
    modifies s
    ensures s.user == None && s.token == None && s.adminToken == None && !s.isAdmin && s.error == None
    ensures s.storage == LogoutStorage(old(s.storage))
  {
    s.Logout();
    ghost var once := s.storage;
    s.Logout();
    LogoutStorageIdempotent(old(s.storage));
    assert s.storage == once;
  }
}
