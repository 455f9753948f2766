/**
  The session bookkeeping of server/thingbox/api.py: the three token caches
  (`auth_sessions`, `user_sessions`, `admin_tokens`), the guards that FastAPI
  runs as dependencies, and the endpoints that change the caches. `db.is_admin`
  is the parameter `isAdmin`, the truth value Python gives its result.
*/
module Api {
  import opened Common

  /** The user type under which every admin lookup of the API is made. */
  const UserType: string := "twitter"

  const Unauthorized: int := 401
  const Forbidden: int := 403
  /** What an exception escaping an endpoint becomes. */
  const ServerError: int := 500

  /** A returned value, or the status code of a raised HTTPException. */
  datatype Reply<+T> = Done(value: T) | Status(code: int)

  /** A pending OAuth handshake, remembered by the token in its callback URL. */
  datatype Handshake = Handshake(callbackToken: string)

  /** `UserSession`: the signed-in user (its `id_str`) and its current admin token. */
  class UserSession {
    const user: string
    var adminToken: Option<string>

    constructor (user: string)
      ensures this.user == user && adminToken == None
    {
      this.user := user;
      adminToken := None;
    }
  }

  class Sessions {
    var authSessions: map<string, Handshake>
    var userSessions: map<string, UserSession>
    var adminTokens: map<string, UserSession>

    /** Every live admin token is the current admin token of the session it maps to. */
    ghost predicate Valid()
      reads this, adminTokens.Values
    {
      forall k :: k in adminTokens ==> adminTokens[k].adminToken == Some(k)
    }

    constructor ()
      ensures Valid()
      ensures authSessions == map[] && userSessions == map[] && adminTokens == map[]
    {
      authSessions, userSessions, adminTokens := map[], map[], map[];
    }

    /** Consequence of `Valid`: a session has at most one live admin token. */
    lemma OneLiveTokenPerSession(k1: string, k2: string)
      requires Valid()
      requires k1 in adminTokens && k2 in adminTokens && adminTokens[k1] == adminTokens[k2]
      ensures k1 == k2
    {
    }

    /** `user_is_authenticated`: the session of a bearer token, or 401. */
    function UserIsAuthenticated(token: string): (r: Reply<UserSession>)
      reads this
      ensures r.Done? <==> token in userSessions
      ensures r.Done? ==> r.value == userSessions[token]
      ensures r.Status? ==> r.code == Unauthorized
    {
      if token in userSessions then Done(userSessions[token]) else Status(Unauthorized)
    }

    /**
      `authenticated_user_is_admin` behind its dependency `user_is_authenticated`:
      401 without a session, 403 when the session's user is not an admin now,
      and otherwise the same session.
    */
    function AuthenticatedUserIsAdmin(token: string, isAdmin: (string, string) -> bool): (r: Reply<UserSession>)
      reads this
      ensures r.Done? <==> token in userSessions && isAdmin(UserType, userSessions[token].user)
      ensures r.Done? ==> r.value == userSessions[token]
      ensures r.Status? ==> (r.code == Unauthorized <==> token !in userSessions)
      ensures r.Status? ==> (r.code == Forbidden <==> token in userSessions)
    {
      match UserIsAuthenticated(token)
      case Status(code) => Status(code)
      case Done(session) => if isAdmin(UserType, session.user) then Done(session) else Status(Forbidden)
    }

    /**
      `api_token_is_admin_token`: an unknown token is 401; a live token whose
      user is no longer an admin is evicted and answered with 403; otherwise the
      token's session, with nothing changed.
    */
    method ApiTokenIsAdminToken(token: string, isAdmin: (string, string) -> bool) returns (r: Reply<UserSession>)
      requires Valid()
      modifies this
      ensures Valid()
      ensures authSessions == old(authSessions) && userSessions == old(userSessions)
      ensures token !in old(adminTokens) ==> r == Status(Unauthorized) && adminTokens == old(adminTokens)
      ensures token in old(adminTokens) && isAdmin(UserType, old(adminTokens)[token].user) ==>
        r == Done(old(adminTokens)[token]) && adminTokens == old(adminTokens)
      ensures token in old(adminTokens) && !isAdmin(UserType, old(adminTokens)[token].user) ==>
        r == Status(Forbidden) && adminTokens == old(adminTokens) - {token}
      ensures r.Done? ==> isAdmin(UserType, r.value.user)
    {
      if token in adminTokens {
        var session := adminTokens[token];
        if isAdmin(UserType, session.user) {
          r := Done(session);
        } else {
          adminTokens := adminTokens - {token};
          r := Status(Forbidden);
        }
      } else {
        r := Status(Unauthorized);
      }
    }

    /**
      `auth_begin` without the OAuth calls: registers the pending handshake under
      the freshly made `token` and returns that token.
    */
    method AuthBegin(token: string) returns (r: string)
      requires Valid()
      modifies this
      ensures Valid()
      ensures r == token
      ensures authSessions == old(authSessions)[token := Handshake(token)]
      ensures authSessions.Keys == old(authSessions).Keys + {token}
      ensures userSessions == old(userSessions) && adminTokens == old(adminTokens)
    {
      authSessions := authSessions[token := Handshake(token)];
      r := token;
    }

    /**
      `auth_complete(token, oauth_verifier)`. `verified` is what the identity
      provider answers for the pending handshake and the verifier: the user's id,
      or None when `get_access_token` or `verify_credentials` raises (a 500, after
      the two caches have already lost the token). Any old session under `token`
      is dropped first; a new one is created only for a pending token.
    */
    method AuthComplete(token: string, verified: Option<string>) returns (r: Reply<()>)
      requires Valid()
      modifies this
      ensures Valid()
      ensures token !in authSessions
      ensures authSessions == old(authSessions) - {token}
      ensures adminTokens == old(adminTokens)
      ensures token in userSessions ==> token in old(authSessions)
      ensures token !in old(authSessions) ==> r == Done(()) && userSessions == old(userSessions) - {token}
      ensures token in old(authSessions) && verified.None? ==>
        r == Status(ServerError) && userSessions == old(userSessions) - {token}
      ensures token in old(authSessions) && verified.Some? ==>
        && r == Done(())
        && token in userSessions && fresh(userSessions[token])
        && userSessions[token].user == verified.value && userSessions[token].adminToken == None
        && userSessions - {token} == old(userSessions) - {token}
    {
      userSessions := userSessions - {token};
      if token in authSessions {
        authSessions := authSessions - {token};
        if verified.None? {
          return Status(ServerError);
        }
        var session := new UserSession(verified.value);
        userSessions := userSessions[token := session];
      }
      r := Done(());
    }

    /**
      `get_admin_token` behind its dependency `authenticated_user_is_admin`: the
      guard's 401 or 403 with nothing changed, or `newToken`, which
      replaces the session's previous admin token in the cache and on the session.
    */
    method GetAdminToken(bearer: string, isAdmin: (string, string) -> bool, newToken: string) returns (r: Reply<string>)
      requires Valid()
      modifies this, if bearer in userSessions then {userSessions[bearer]} else {}
      ensures Valid()
      ensures authSessions == old(authSessions) && userSessions == old(userSessions)
      ensures r.Status? <==> old(AuthenticatedUserIsAdmin(bearer, isAdmin)).Status?
      ensures r.Status? ==> r.code == old(AuthenticatedUserIsAdmin(bearer, isAdmin)).code
      ensures r.Status? ==> adminTokens == old(adminTokens) && (bearer in userSessions ==> unchanged(userSessions[bearer]))
      ensures r.Done? ==>
        var s := userSessions[bearer];
        && r.value == newToken
        && s.adminToken == Some(newToken)
        && adminTokens == (old(adminTokens) - (if old(s.adminToken).Some? then {old(s.adminToken).value} else {}))[newToken := s]
        && (old(s.adminToken).Some? && old(s.adminToken).value != newToken ==> old(s.adminToken).value !in adminTokens)
        && (forall k :: k in adminTokens && adminTokens[k] == s ==> k == newToken)
    {
      var guard := AuthenticatedUserIsAdmin(bearer, isAdmin);
      if guard.Status? {
        return Status(guard.code);
      }
      var session := guard.value;
      if session.adminToken.Some? && session.adminToken.value in adminTokens {
        adminTokens := adminTokens - {session.adminToken.value};
      }
      session.adminToken := Some(newToken);
      adminTokens := adminTokens[newToken := session];
      r := Done(newToken);
    }
  }
}
