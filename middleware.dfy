/**
 * The two access gates: authenticateAdmin
 * (backend/src/middlewares/authenticateAdmin.js) and the role-list gate
 * built by rbacMiddleware (backend/src/middlewares/rbacMiddleware.js).
 */
module Middleware {
  import opened Wrappers
  import opened JsValues

  /** The part of `req.user` the gates read; `None` is a missing role. */
  datatype RequestUser = RequestUser(role: Option<string>)

  /** A gate either answers the request or calls `next()`, never both. */
  datatype GateOutcome = Respond(status: nat, message: string) | Next

  const UserInfoMissing := "Unauthorized. User information is missing."
  const AdminOnly := "Access denied, admin only."
  const AccessDenied := "Access denied"

  /** authenticateAdmin: 401 without a user or role, 403 for any role but "admin", otherwise next. */
  function AuthenticateAdmin(user: Option<RequestUser>): (r: GateOutcome)
    ensures r == Respond(401, UserInfoMissing) <==> user.None? || !Truthy(user.value.role)
    ensures r == Respond(403, AdminOnly) <==> user.Some? && Truthy(user.value.role) && user.value.role.value != "admin"
    ensures r == Next <==> user.Some? && user.value.role == Some("admin")
    ensures r == Next || r == Respond(401, UserInfoMissing) || r == Respond(403, AdminOnly)
  {
    if user.None? || !Truthy(user.value.role) then Respond(401, UserInfoMissing)
    else if user.value.role.value != "admin" then Respond(403, AdminOnly)
    else Next
  }

  /** What the role-list gate does with a request. */
  datatype RbacOutcome = Gate(outcome: GateOutcome) | TypeError

  /**
   * `rbacMiddleware(allowedRoles)(req, res, next)`: reading `req.user.role`
   * without a user throws; otherwise next is called exactly when the role is
   * one of `allowedRoles` (a missing role is in no list of strings).
   */
  function Rbac(allowedRoles: seq<string>, user: Option<RequestUser>): (r: RbacOutcome)
    ensures user.None? <==> r == TypeError
    ensures user.Some? ==> (r == Gate(Next) <==> exists i :: 0 <= i < |allowedRoles| && user.value.role == Some(allowedRoles[i]))
    ensures user.Some? && r != Gate(Next) ==> r == Gate(Respond(403, AccessDenied))
  {
    if user.None? then TypeError
    else if user.value.role.None? || user.value.role.value !in allowedRoles then Gate(Respond(403, AccessDenied))
    else Gate(Next)
  }

  lemma EmptyRoleListDeniesAll(user: RequestUser)
    ensures Rbac([], Some(user)) == Gate(Respond(403, AccessDenied))
  {
  }

  /** Allowing more roles never takes access away from a role that had it. */
  lemma RbacMonotone(allowedRoles: seq<string>, moreRoles: seq<string>, user: RequestUser)
    requires forall i :: 0 <= i < |allowedRoles| ==> allowedRoles[i] in moreRoles
    requires Rbac(allowedRoles, Some(user)) == Gate(Next)
    ensures Rbac(moreRoles, Some(user)) == Gate(Next)
  {
  }
}
