/** lib/auth-check.ts: the admin gate of the portfolio handlers. */
module AuthCheck {
  import opened Wrappers
  import opened Records

  /** What checkAdminAuth answers: whether the caller is an admin, the caller's id when
      there is a session user, and the message to answer with otherwise. */
  datatype AdminAuth = AdminAuth(isAdmin: bool, userId: Option<string>, error: Option<string>)

  function CheckAdminAuth(session: Option<Identity>): (a: AdminAuth)
    ensures a.isAdmin <==> session.Some? && session.value.role == "admin"
    ensures a.isAdmin <==> a.error.None?
    ensures session.None? ==> a.userId.None? && a.error == Some(LoginRequired)
    ensures session.Some? ==> a.userId == Some(session.value.id)
    ensures session.Some? && session.value.role != "admin" ==> a.error == Some(AdminRequired)
  {
    if session.None? then AdminAuth(false, None, Some(LoginRequired))
    else if session.value.role != "admin" then AdminAuth(false, Some(session.value.id), Some(AdminRequired))
    else AdminAuth(true, Some(session.value.id), None)
  }

  /** The 401 an admin-only handler answers with when the gate refuses. */
  function Refusal(a: AdminAuth): (r: Response)
    requires !a.isAdmin
    ensures r.status == 401 && r.body.Error?
    ensures a.error.Some? ==> r.body == Error(a.error.value)
  {
    Response(401, Error(if a.error.Some? then a.error.value else ""))
  }
}
