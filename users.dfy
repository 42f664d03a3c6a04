/** The `users` table and the two handlers of `usersRoutes`: registration
    and login. bcrypt's `hash` and `compare`, jsonwebtoken's `sign`, zod's
    e-mail check and `randomUUID` are inputs: functions and values the
    model does not look inside. */
module Users {
  import opened Values
  import opened Http

  /** A row of `users`. The registration insert gives no timestamps, so they
      are whatever the table's defaults make them (`None` when absent). */
  datatype UserRow = UserRow(
    id: string,
    name: string,
    email: string,
    password: string,
    createdAt: Option<string>,
    updatedAt: Option<string>)

  /** A registration body accepted by `createUserSchema`. */
  datatype Registration = Registration(name: string, email: string, password: string)

  /** A login body accepted by `loginSchema`. */
  datatype Credentials = Credentials(email: string, password: string)

  /** The claims jsonwebtoken's `sign` receives: subject and lifetime. */
  datatype Claims = Claims(subject: string, expiresIn: string)

  /** bcrypt cost factor of the registration hash. */
  const HashRounds: nat := 8

  /** Lifetime of a login token. */
  const TokenLifetime: string := "2d"

  /** The one message every login failure sends. */
  const IncorrectCredentials: Payload := Error("email or password is incorrect")

  /** `createUserSchema.parse(request.body)`: name and password strings and
      an email string that zod's `email()` accepts. */
  function ParseRegistration(body: Option<Body>, isEmail: string -> bool): (r: Option<Registration>)
    ensures r.Some? <==>
      && body.Some?
      && Get(body.value, "name").Str?
      && Get(body.value, "email").Str? && isEmail(Get(body.value, "email").s)
      && Get(body.value, "password").Str?
    ensures r.Some? ==>
      && Get(body.value, "name") == Str(r.value.name)
      && Get(body.value, "email") == Str(r.value.email)
      && Get(body.value, "password") == Str(r.value.password)
  {
    if body.None? then None
    else
      var b := body.value;
      match (AsString(Get(b, "name")), AsString(Get(b, "email")), AsString(Get(b, "password")))
      case (Some(n), Some(e), Some(p)) => if isEmail(e) then Some(Registration(n, e, p)) else None
      case _ => None
  }

  /** `loginSchema.parse(request.body)`. */
  function ParseLogin(body: Option<Body>, isEmail: string -> bool): (r: Option<Credentials>)
    ensures r.Some? <==>
      && body.Some?
      && Get(body.value, "email").Str? && isEmail(Get(body.value, "email").s)
      && Get(body.value, "password").Str?
    ensures r.Some? ==>
      && Get(body.value, "email") == Str(r.value.email)
      && Get(body.value, "password") == Str(r.value.password)
  {
    if body.None? then None
    else
      var b := body.value;
      match (AsString(Get(b, "email")), AsString(Get(b, "password")))
      case (Some(e), Some(p)) => if isEmail(e) then Some(Credentials(e, p)) else None
      case _ => None
  }

  /** `knex('users').where({ email }).first()`: the first stored row with
      that email, if any. */
  function FirstByEmail(rows: seq<UserRow>, email: string): (found: Option<UserRow>)
    ensures found.None? <==> forall k :: 0 <= k < |rows| ==> rows[k].email != email
    ensures found.Some? ==>
      exists k :: 0 <= k < |rows| && rows[k] == found.value && rows[k].email == email &&
        forall j :: 0 <= j < k ==> rows[j].email != email
  {
    if rows == [] then None
    else if rows[0].email == email then Some(rows[0])
    else
      var rest := FirstByEmail(rows[1..], email);
      assert forall k :: 1 <= k < |rows| ==> rows[k] == rows[1..][k - 1];
      rest
  }

  /** The password checks of the login handler fail: `user.password` is
      empty (falsy), or bcrypt's `compare` rejects the password. */
  predicate PasswordRejected(user: UserRow, password: string, compare: (string, string) -> bool) {
    user.password == "" || !compare(password, user.password)
  }

  function Ids(rows: seq<UserRow>): set<string> {
    set u | u in rows :: u.id
  }

  class UserStore {
    var rows: seq<UserRow>

    /** Primary key: no two users share an id. */
    ghost predicate Valid()
      reads this
    {
      forall i, j :: 0 <= i < j < |rows| ==> rows[i].id != rows[j].id
    }

    constructor ()
      ensures Valid() && rows == []
    {
      rows := [];
    }

    /** POST /users. The stored password is `hash(password, 8)`, never the
        request's plaintext field itself; `freshId` is what `randomUUID()`
        returned. A body zod refuses stops the handler before the table. */
    method Register(body: Option<Body>, isEmail: string -> bool, hash: (string, nat) -> string,
                    freshId: string, reply: Reply) returns (rejected: bool)
      requires Valid()
      requires freshId !in Ids(rows)
      modifies this, reply
      ensures Valid()
      ensures ParseRegistration(body, isEmail).None? ==>
        rejected && rows == old(rows) && unchanged(reply)
      ensures ParseRegistration(body, isEmail).Some? ==>
        var r := ParseRegistration(body, isEmail).value;
        && !rejected
        && rows == old(rows) + [UserRow(freshId, r.name, r.email, hash(r.password, HashRounds), None, None)]
        && reply.statusCode == 201
        && reply.sent == old(reply.sent) + [Sent(201, NoContent)]
    {
      var r := ParseRegistration(body, isEmail);
      if r.None? {
        return true;
      }
      var passwordHash := hash(r.value.password, HashRounds);
      var row := UserRow(freshId, r.value.name, r.value.email, passwordHash, None, None);
      forall i, j | 0 <= i < j < |rows + [row]| ensures (rows + [row])[i].id != (rows + [row])[j].id {
        if j == |rows| {
          assert rows[i] in rows;
        }
      }
      rows := rows + [row];
      reply.Status(201);
      reply.Send(NoContent);
      rejected := false;
    }

    /** POST /users/login. None of the failure branches returns, so a
        missing user sends the failure twice, a rejected password sends it
        once and then still signs a token and sends the success payload
        (with the status 400 already set), and only an accepted password
        sends the success payload alone. `signed` lists the claims passed
        to `sign`. */
    method Login(body: Option<Body>, isEmail: string -> bool, compare: (string, string) -> bool,
                 sign: Claims -> string, reply: Reply) returns (rejected: bool, signed: seq<Claims>)
      modifies reply
      ensures ParseLogin(body, isEmail).None? ==>
        rejected && signed == [] && unchanged(reply)
      ensures ParseLogin(body, isEmail).Some? ==> !rejected
      ensures ParseLogin(body, isEmail).Some? ==>
        var c := ParseLogin(body, isEmail).value;
        FirstByEmail(rows, c.email).None? ==>
          && signed == []
          && reply.statusCode == 400
          && reply.sent == old(reply.sent) + [Sent(400, IncorrectCredentials), Sent(400, IncorrectCredentials)]
      ensures ParseLogin(body, isEmail).Some? ==>
        var c := ParseLogin(body, isEmail).value;
        var found := FirstByEmail(rows, c.email);
        found.Some? && PasswordRejected(found.value, c.password, compare) ==>
          var u := found.value;
          var claims := Claims(u.id, TokenLifetime);
          && reply.statusCode == 400
          && signed == (if u.id == "" then [] else [claims])
          && reply.sent == old(reply.sent) + [Sent(400, IncorrectCredentials)]
               + (if u.id == "" then [] else [Sent(400, LoginResult(true, sign(claims), u.name, u.email))])
      ensures ParseLogin(body, isEmail).Some? ==>
        var c := ParseLogin(body, isEmail).value;
        var found := FirstByEmail(rows, c.email);
        found.Some? && !PasswordRejected(found.value, c.password, compare) ==>
          var u := found.value;
          var claims := Claims(u.id, TokenLifetime);
          && reply.statusCode == old(reply.statusCode)
          && signed == (if u.id == "" then [] else [claims])
          && reply.sent == old(reply.sent)
               + (if u.id == "" then [] else [Sent(old(reply.statusCode), LoginResult(true, sign(claims), u.name, u.email))])
    {
      var c := ParseLogin(body, isEmail);
      if c.None? {
        return true, [];
      }
      rejected, signed := false, [];
      var user := FirstByEmail(rows, c.value.email);

      if user.None? {
        reply.Status(400);
        reply.Send(IncorrectCredentials);
      }

      if user.Some? && user.value.password != "" {
        var passwordMatch := compare(c.value.password, user.value.password);
        if !passwordMatch {
          reply.Status(400);
          reply.Send(IncorrectCredentials);
        }
      } else {
        reply.Status(400);
        reply.Send(IncorrectCredentials);
      }

      if user.Some? && user.value.id != "" {
        var claims := Claims(user.value.id, TokenLifetime);
        var token := sign(claims);
        signed := [claims];
        reply.Send(LoginResult(true, token, user.value.name, user.value.email));
      }
    }

    /** Login with an early return on every failure: the corrected control
        flow. Exactly one reply is sent for an accepted body, a token is
        signed only for an accepted password, and a missing user and a
        rejected password send the same reply. */
    method LoginFailFast(body: Option<Body>, isEmail: string -> bool, compare: (string, string) -> bool,
                         sign: Claims -> string, reply: Reply) returns (rejected: bool, signed: seq<Claims>)
      modifies reply
      ensures ParseLogin(body, isEmail).None? ==>
        rejected && signed == [] && unchanged(reply)
      ensures ParseLogin(body, isEmail).Some? ==> !rejected && |reply.sent| == |old(reply.sent)| + 1
      ensures ParseLogin(body, isEmail).Some? ==>
        var c := ParseLogin(body, isEmail).value;
        var found := FirstByEmail(rows, c.email);
        found.None? || PasswordRejected(found.value, c.password, compare) ==>
          && signed == []
          && reply.sent == old(reply.sent) + [Sent(400, IncorrectCredentials)]
      ensures ParseLogin(body, isEmail).Some? ==>
        var c := ParseLogin(body, isEmail).value;
        var found := FirstByEmail(rows, c.email);
        found.Some? && !PasswordRejected(found.value, c.password, compare) ==>
          var u := found.value;
          var claims := Claims(u.id, TokenLifetime);
          && signed == [claims]
          && reply.sent == old(reply.sent) + [Sent(old(reply.statusCode), LoginResult(true, sign(claims), u.name, u.email))]
    {
      var c := ParseLogin(body, isEmail);
      if c.None? {
        return true, [];
      }
      rejected, signed := false, [];
      var user := FirstByEmail(rows, c.value.email);
      if user.None? || user.value.password == "" || !compare(c.value.password, user.value.password) {
        reply.Status(400);
        reply.Send(IncorrectCredentials);
        return;
      }
      var claims := Claims(user.value.id, TokenLifetime);
      var token := sign(claims);
      signed := [claims];
      reply.Send(LoginResult(true, token, user.value.name, user.value.email));
    }
  }

  /** One registered user and a login with the wrong password, run through
      the handler as written: the failure is sent, and then a token is
      signed and the success payload sent as well. */
  method WrongPasswordExample() returns (sent: seq<Sent>, signed: seq<Claims>)
    ensures sent == [Sent(400, IncorrectCredentials), Sent(400, LoginResult(true, "token", "Ana", "ana@example.com"))]
    ensures signed == [Claims("u1", TokenLifetime)]
  {
    var store := new UserStore();
    store.rows := [UserRow("u1", "Ana", "ana@example.com", "stored-hash", None, None)];
    var reply := new Reply();
    var body := map["email" := Str("ana@example.com"), "password" := Str("wrong")];
    var rejected;
    rejected, signed := store.Login(Some(body), _ => true, (_, _) => false, _ => "token", reply);
    sent := reply.sent;
  }
}

