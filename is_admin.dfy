/** The admin gate (server/middleware/isAdmin.js): only a request carrying a
    user whose role is `admin` reaches the next handler. */
module AdminGate {
  import opened Base

  /** The authenticated user as the gate sees it. */
  datatype RequestUser = RequestUser(id: Id, role: string)

  datatype GateResult = Next | Forbidden(status: int, error: string)

  const AdminOnly := "Admin access only"

  /** No user, or a role other than `admin`: 403 with the same message. The
      gate reads the request and changes nothing in it. */
  function IsAdmin(user: Option<RequestUser>): (r: GateResult)
    ensures r.Next? <==> user.Some? && user.value.role == "admin"
    ensures r.Forbidden? ==> r == Forbidden(403, AdminOnly)
  {
    if user.None? then Forbidden(403, AdminOnly)
    else if user.value.role != "admin" then Forbidden(403, AdminOnly)
    else Next
  }

  /** A missing user and a non-admin user get the same answer. */
  lemma SameRefusal(u: RequestUser)
    requires u.role != "admin"
    ensures IsAdmin(None) == IsAdmin(Some(u))
  {
  }
}
