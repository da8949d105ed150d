/**
 * The access gate of server/middleware/auth.ts: `authenticate` pins every
 * request to one fixed Admin identity, and `requireRole` admits a request
 * only when that identity's role is in the route's list.
 */
module Gate {
  import opened Wrappers
  import opened Schema

  /** The identity `authenticate` assigns in single-user mode. */
  const FixedUser := Identity(1, "المشرف الصحي", Admin)

  /** The request object, reduced to the `user` field the middleware sets. */
  class Request {
    var user: Option<Identity>

    constructor ()
      ensures user == None
    {
      user := None;
    }
  }

  /** `authenticate`: whatever the request carried, the caller becomes id 1 with role Admin. */
  method Authenticate(req: Request)
    modifies req
    ensures req.user == Some(FixedUser)
  {
    req.user := Some(FixedUser);
  }

  /** `requireRole(roles)`: the request proceeds iff a user is set and its role is listed. */
  function Admits(roles: seq<string>, user: Option<Identity>): (ok: bool)
    ensures ok ==> user.Some?
    ensures user.Some? ==> (ok <==> user.value.role in roles)
  {
    user.Some? && user.value.role in roles
  }

  /** What a rejected request gets; the handler behind the gate does not run. */
  function Forbidden<T>(): Reply<T>
  {
    Error(403, "Forbidden")
  }

  /** `requireRole([])` rejects every request. */
  lemma EmptyListRejectsAll(user: Option<Identity>)
    ensures !Admits([], user)
  {
  }

  /** A list naming Admin admits every request that went through `authenticate`. */
  lemma AdminListAdmitsAuthenticated(roles: seq<string>, req: Request)
    requires Admin in roles && req.user == Some(FixedUser)
    ensures Admits(roles, req.user)
  {
  }

  /**
   * The chain `authenticate, requireRole(roles)` a router installs: the outcome
   * depends only on whether Admin is listed, never on what the request carried.
   */
  method Guard(req: Request, roles: seq<string>) returns (ok: bool)
    modifies req
    ensures req.user == Some(FixedUser)
    ensures ok <==> Admin in roles
  {
    Authenticate(req);
    ok := Admits(roles, req.user);
  }
}
