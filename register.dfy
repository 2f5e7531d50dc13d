/** The registration endpoint: reject an e-mail already registered, build
    the new user's record field by field according to the role, insert it. */
module Register {
  import opened Common

  /** A JSON value as the body gives it: a field left out, null, or a
      string. */
  datatype Field = Absent | Null | Str(s: string)

  /** JavaScript truthiness of a field: a non-empty string. */
  predicate FieldTruthy(f: Field)
  {
    f.Str? && f.s != ""
  }

  /** `f ?? null` */
  function OrNull(f: Field): Field
  {
    if f.Str? then f else Null
  }

  datatype Body = Body(
    firstName: Field, lastName: Field, email: Field, password: Field,
    phone: Field, storeName: Field, localidad: Field, role: Field)

  /** The record handed to `prisma.user.create`; Absent is a field the
      object does not have. */
  datatype UserRecord = UserRecord(
    firstName: Field, lastName: Field, email: string, role: Field,
    password: Field, phone: Field, storeName: Field, localidad: Field)

  datatype Response = Response(status: nat, text: string)

  const Exists := "El usuario ya existe"
  const PasswordRequired := "La contraseña es obligatoria para minoristas"
  const Registered := "Usuario registrado correctamente"
  const Failed := "Error al registrar usuario"

  /** userData for a body whose request goes through: the base fields, then
      what the role adds. `hash` stands for bcrypt.hash with cost 10. */
  function UserData(b: Body, email: string, hash: string -> string): UserRecord
  {
    var base := UserRecord(b.firstName, b.lastName, email, b.role, Absent, Absent, Absent, Absent);
    if b.role == Str("minorista") && FieldTruthy(b.password) then
      base.(password := Str(hash(b.password.s)), phone := Null, storeName := Null, localidad := Null)
    else if b.role == Str("mayorista") then
      base.(password := Str(""), phone := OrNull(b.phone), storeName := OrNull(b.storeName), localidad := OrNull(b.localidad))
    else base
  }

  /** POST /api/auth/register. The user table is keyed by e-mail. `body` is
      None when the request body is not JSON; an e-mail that is not a
      string makes the lookup throw. Both end in the 500 answer. */
  method Post(users: map<string, UserRecord>, body: Option<Body>, hash: string -> string)
    returns (resp: Response, users': map<string, UserRecord>)
    ensures body.None? || !body.value.email.Str? ==> resp == Response(500, Failed) && users' == users
    ensures body.Some? && body.value.email.Str? ==>
      var b := body.value; var email := b.email.s;
      && (email in users ==> resp == Response(400, Exists) && users' == users)
      && (email !in users && b.role == Str("minorista") && !FieldTruthy(b.password) ==>
            resp == Response(400, PasswordRequired) && users' == users)
      && (email !in users && !(b.role == Str("minorista") && !FieldTruthy(b.password)) ==>
            resp == Response(201, Registered) && users' == users[email := UserData(b, email, hash)])
  {
    if body.None? || !body.value.email.Str? {
      return Response(500, Failed), users;
    }
    var b := body.value;
    var email := b.email.s;
    if email in users {
      return Response(400, Exists), users;
    }
    var userData := UserRecord(b.firstName, b.lastName, email, b.role, Absent, Absent, Absent, Absent);
    if b.role == Str("minorista") {
      if !FieldTruthy(b.password) {
        return Response(400, PasswordRequired), users;
      }
      userData := userData.(password := Str(hash(b.password.s)));
      userData := userData.(phone := Null);
      userData := userData.(storeName := Null);
      userData := userData.(localidad := Null);
    }
    if b.role == Str("mayorista") {
      userData := userData.(password := Str(""));
      userData := userData.(phone := OrNull(b.phone));
      userData := userData.(storeName := OrNull(b.storeName));
      userData := userData.(localidad := OrNull(b.localidad));
    }
    users' := users[email := userData];
    resp := Response(201, Registered);
  }

  /** A minorista record keeps the hash of the password and nulls the
      wholesale fields. */
  lemma MinoristaRecord(b: Body, email: string, hash: string -> string)
    requires b.role == Str("minorista") && FieldTruthy(b.password)
    ensures var u := UserData(b, email, hash);
      && u.password == Str(hash(b.password.s))
      && u.phone == Null && u.storeName == Null && u.localidad == Null
      && u.firstName == b.firstName && u.lastName == b.lastName && u.email == email && u.role == b.role
  {
  }

  /** A mayorista record has the empty password and copies the wholesale
      fields, null where the body has none. */
  lemma MayoristaRecord(b: Body, email: string, hash: string -> string)
    requires b.role == Str("mayorista")
    ensures var u := UserData(b, email, hash);
      && u.password == Str("")
      && (u.phone == if b.phone.Str? then b.phone else Null)
      && (u.storeName == if b.storeName.Str? then b.storeName else Null)
      && (u.localidad == if b.localidad.Str? then b.localidad else Null)
      && u.firstName == b.firstName && u.lastName == b.lastName && u.email == email && u.role == b.role
  {
  }

  /** Any other role, or none, is stored as given with only the base
      fields: no password field at all. */
  lemma OtherRoleRecord(b: Body, email: string, hash: string -> string)
    requires b.role != Str("minorista") && b.role != Str("mayorista")
    ensures UserData(b, email, hash) == UserRecord(b.firstName, b.lastName, email, b.role, Absent, Absent, Absent, Absent)
  {
  }

  /** A successful registration adds exactly one user, under the body's
      e-mail, and keeps every other. */
  lemma RegisterAddsOne(users: map<string, UserRecord>, email: string, u: UserRecord)
    requires email !in users
    ensures var users' := users[email := u];
      && users'.Keys == users.Keys + {email}
      && |users'| == |users| + 1
      && forall e :: e in users ==> users'[e] == users[e]
  {
  }
}
