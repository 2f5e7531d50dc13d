/** The admin section's layout: it asks for the session and either
    redirects or renders the navbar, the sidebar and the page inside. */
module AdminLayout {
  import opened Common
  import opened Register
  import Auth

  /** What auth() resolves to: no session, or a session with or without a
      user. */
  datatype Session = Session(user: Option<Auth.SessionUser>)

  /** redirect(path), or the layout with the navbar's user. */
  datatype Decision = Redirect(path: string) | Render(user: Auth.SessionUser)

  /** AdminLayout. The session test comes first: without a session user
      the role is never looked at. Then anything but the role "admin",
      a missing role included, is sent home. Only an admin gets the page,
      and the navbar gets that user. */
  function Gate(session: Option<Session>): (d: Decision)
    ensures d == Redirect("/auth/login") <==> session.None? || session.value.user.None?
    ensures d == Redirect("/") <==> session.Some? && session.value.user.Some? && session.value.user.value.role != Str("admin")
    ensures d.Render? <==> session.Some? && session.value.user.Some? && session.value.user.value.role == Str("admin")
    ensures d.Render? ==> d.user == session.value.user.value
  {
    if session.None? || session.value.user.None? then Redirect("/auth/login")
    else if session.value.user.value.role != Str("admin") then Redirect("/")
    else Render(session.value.user.value)
  }

  /** Through sign-in: the page renders for a session built from a token
      exactly when the user signed in with the role "admin". */
  method GateAfterSignIn(signedIn: Auth.SignedIn, sessionUser: Auth.SessionUser) returns (d: Decision)
    ensures d.Render? <==> signedIn.role == Str("admin")
    ensures d != Redirect("/auth/login")
  {
    var s := Auth.SignInFlow(signedIn, sessionUser);
    d := Gate(Some(Session(s.user)));
  }
}
