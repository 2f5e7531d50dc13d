/** The credentials sign-in and the JWT session: `authorize` checks an
    e-mail and password against the user table, `jwt` copies the user's
    fields into the token at sign-in, `session` copies them from the token
    into the session's user. */
module Auth {
  import opened Common
  import opened Register

  /** A stored user: the generated columns and the registered record. */
  datatype Account = Account(id: string, name: Field, emailVerified: Field, rec: UserRecord)

  /** The credentials object; None is a missing entry. */
  datatype Credentials = Credentials(email: Option<string>, password: Option<string>)

  /** The user object authorize returns: these fields and no other. */
  datatype SignedIn = SignedIn(
    id: string, firstName: Field, lastName: Field, name: Field,
    email: string, emailVerified: Field, role: Field)

  datatype Outcome = Rejected(message: string) | Accepted(user: SignedIn)

  const Required := "Email y contraseña son requeridos"
  const Invalid := "Credenciales inválidas"

  /** The session lifetime, in seconds: thirty days. */
  const MaxAge: int := 30 * 24 * 60 * 60

  /** authorize. `users` is the user table keyed by e-mail and `compare`
      stands for bcrypt.compare(plain, hash). */
  function Authorize(creds: Option<Credentials>, users: map<string, Account>, compare: (string, string) -> bool): Outcome
  {
    if creds.None? || !Truthy(creds.value.email) || !Truthy(creds.value.password) then Rejected(Required)
    else
      var email := creds.value.email.value;
      if email !in users || !FieldTruthy(users[email].rec.password) then Rejected(Invalid)
      else if !compare(creds.value.password.value, users[email].rec.password.s) then Rejected(Invalid)
      else
        var a := users[email];
        Accepted(SignedIn(a.id, a.rec.firstName, a.rec.lastName, a.name, a.rec.email, a.emailVerified, a.rec.role))
  }

  /** The outcomes of authorize: the missing-field error first, then one
      message for an unknown user, a user without a password and a wrong
      password alike; otherwise the stored user's public fields. */
  lemma AuthorizeCases(creds: Option<Credentials>, users: map<string, Account>, compare: (string, string) -> bool)
    ensures var r := Authorize(creds, users, compare);
      && (r == Rejected(Required) <==> creds.None? || !Truthy(creds.value.email) || !Truthy(creds.value.password))
      && (r.Accepted? <==>
            && creds.Some? && Truthy(creds.value.email) && Truthy(creds.value.password)
            && creds.value.email.value in users
            && FieldTruthy(users[creds.value.email.value].rec.password)
            && compare(creds.value.password.value, users[creds.value.email.value].rec.password.s))
      && (r.Rejected? ==> r.message == Required || r.message == Invalid)
      && (r.Accepted? ==>
            var a := users[creds.value.email.value];
            r.user == SignedIn(a.id, a.rec.firstName, a.rec.lastName, a.name, a.rec.email, a.emailVerified, a.rec.role))
  {
  }

  /** A mayorista registers with the empty password, so no password lets
      that account sign in through the credentials provider. */
  lemma MayoristaCannotSignIn(b: Body, hash: string -> string,
                              accounts: map<string, Account>, compare: (string, string) -> bool, password: string)
    requires b.email.Str? && b.role == Str("mayorista")
    requires b.email.s in accounts && accounts[b.email.s].rec == UserData(b, b.email.s, hash)
    ensures Authorize(Some(Credentials(Some(b.email.s), Some(password))), accounts, compare).Rejected?
  {
    MayoristaRecord(b, b.email.s, hash);
  }

  /** The JWT's custom claims. */
  class Token {
    var id: Option<string>
    var email: Option<string>
    var firstName: Field
    var role: Field

    constructor ()
      ensures id.None? && email.None? && firstName == Absent && role == Absent
    {
      id := None;
      email := None;
      firstName := Absent;
      role := Absent;
    }

    /** The jwt callback: at sign-in (a user is present) copy four fields of
        the user; otherwise leave the token as it is. */
    method Jwt(user: Option<SignedIn>)
      modifies this
      ensures user.Some? ==>
        id == Some(user.value.id) && email == Some(user.value.email) && firstName == user.value.firstName && role == user.value.role
      ensures user.None? ==> id == old(id) && email == old(email) && firstName == old(firstName) && role == old(role)
    {
      if user.Some? {
        id := Some(user.value.id);
        email := Some(user.value.email);
        firstName := user.value.firstName;
        role := user.value.role;
      }
    }
  }

  /** `session.user` as the session callback sees it. */
  datatype SessionUser = SessionUser(id: Option<string>, firstName: Field, email: Option<string>, role: Field, name: Field)

  class Session {
    var user: Option<SessionUser>

    constructor (user: Option<SessionUser>)
      ensures this.user == user
    {
      this.user := user;
    }

    /** The session callback: with a token and a session user, copy id,
        firstName, email and role from the token; otherwise change
        nothing. */
    method FromToken(token: Token?)
      modifies this
      ensures token != null && old(user).Some? ==>
        user == Some(old(user).value.(id := token.id, firstName := token.firstName, email := token.email, role := token.role))
      ensures token == null || old(user).None? ==> user == old(user)
    {
      if token != null && user.Some? {
        user := Some(user.value.(id := token.id, firstName := token.firstName, email := token.email, role := token.role));
      }
    }
  }

  /** From sign-in to session: the session user ends with the signed-in
      user's id, e-mail, first name and role. */
  method SignInFlow(signedIn: SignedIn, sessionUser: SessionUser) returns (s: Session)
    ensures s.user == Some(sessionUser.(id := Some(signedIn.id), firstName := signedIn.firstName,
                                       email := Some(signedIn.email), role := signedIn.role))
  {
    var token := new Token();
    token.Jwt(Some(signedIn));
    s := new Session(Some(sessionUser));
    s.FromToken(token);
  }
}
