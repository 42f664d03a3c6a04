/** The `ensureAuthenticated` pre-handler: it reads the `Authorization`
    header, verifies the bearer token, looks the token's subject up in
    `users`, and either sends a 401 reply or adds a `user` object to the
    request body. Token verification and the user lookup are inputs
    (oracles) whose failures stand for the exceptions the source catches. */
module Auth {
  import opened Values
  import opened Text
  import opened Http
  import opened Users

  /** What `knex('users').where({ id: sub }).first()` yields. */
  datatype Lookup = Found(user: UserRow) | Missing | Threw

  /** The parts of a Fastify request the gate reads and writes. */
  class Request {
    var authorization: Option<string>
    var body: Option<Body>

    constructor (authorization: Option<string>, body: Option<Body>)
      ensures this.authorization == authorization && this.body == body
    {
      this.authorization := authorization;
      this.body := body;
    }
  }

  /** The identity object the gate builds from a looked-up row: the five
      public columns, never the password; every property is `undefined`
      when the lookup found no row. */
  function IdentityOf(found: Option<UserRow>): (user: Value)
    ensures user.Obj?
    ensures user.fields.Keys == {"id", "name", "email", "created_at", "updated_at"}
    ensures "password" !in user.fields
    ensures found.None? ==> forall key :: key in user.fields ==> user.fields[key] == Undefined
    ensures found.Some? ==>
      && user.fields["id"] == Str(found.value.id)
      && user.fields["name"] == Str(found.value.name)
      && user.fields["email"] == Str(found.value.email)
      && user.fields["created_at"] == Column(found.value.createdAt)
      && user.fields["updated_at"] == Column(found.value.updatedAt)
  {
    match found
    case None =>
      Obj(map["id" := Undefined, "name" := Undefined, "email" := Undefined,
              "created_at" := Undefined, "updated_at" := Undefined])
    case Some(u) =>
      Obj(map["id" := Str(u.id), "name" := Str(u.name), "email" := Str(u.email),
              "created_at" := Column(u.createdAt),
              "updated_at" := Column(u.updatedAt)])
  }

  /** A nullable text column as knex returns it: the string, or `null`. */
  function Column(s: Option<string>): Value {
    if s.Some? then Str(s.value) else Null
  }

  /** `{ ...(request.body as object), user }`: the previous properties
      (none when there was no body) with `user` set, replacing any `user`
      the client sent. */
  function WithUser(body: Option<Body>, user: Value): (merged: Body)
    ensures "user" in merged && merged["user"] == user
    ensures forall key :: key != "user" ==> (key in merged <==> body.Some? && key in body.value)
    ensures forall key :: key != "user" && key in merged ==> merged[key] == body.value[key]
  {
    (if body.Some? then body.value else map[])["user" := user]
  }

  /** The subject `verify` yields for the header's second field; `None`
      when there is no second field (jsonwebtoken refuses an undefined
      token) or the token does not verify. */
  function Subject(header: string, verify: string -> Option<string>): Option<string> {
    var token := SecondField(header);
    if token.None? then None else verify(token.value)
  }

  /** `ensureAuthenticated(request, reply)`. `verified` lists the tokens
      handed to `verify` and `lookedUp` the ids looked up in `users`. */
  method EnsureAuthenticated(request: Request, reply: Reply,
                             verify: string -> Option<string>, lookup: string -> Lookup)
    returns (verified: seq<Option<string>>, lookedUp: seq<string>)
    modifies request, reply
    ensures request.authorization == old(request.authorization)
    // A missing (or empty) header: 401 and nothing else happens.
    ensures old(request.authorization) in {None, Some("")} ==>
      && verified == [] && lookedUp == []
      && reply.statusCode == 401
      && reply.sent == old(reply.sent) + [Sent(401, Error("Token missing."))]
      && request.body == old(request.body)
    // Otherwise the second field of the header is what gets verified.
    ensures old(request.authorization) !in {None, Some("")} ==>
      var header := old(request.authorization).value;
      && verified == [SecondField(header)]
      && (Subject(header, verify).None? ==>
            && lookedUp == []
            && reply.statusCode == 401
            && reply.sent == old(reply.sent) + [Sent(401, Error("Invalid token"))]
            && request.body == old(request.body))
      && (Subject(header, verify).Some? ==>
            var sub := Subject(header, verify).value;
            && lookedUp == [sub]
            && (lookup(sub).Threw? ==>
                  && reply.statusCode == 401
                  && reply.sent == old(reply.sent) + [Sent(401, Error("Invalid token"))]
                  && request.body == old(request.body))
            && (lookup(sub).Missing? ==>
                  && reply.statusCode == 401
                  && reply.sent == old(reply.sent) + [Sent(401, Error("User does not exists"))]
                  && request.body == Some(WithUser(old(request.body), IdentityOf(None))))
            && (lookup(sub).Found? ==>
                  && reply.statusCode == old(reply.statusCode)
                  && reply.sent == old(reply.sent)
                  && request.body == Some(WithUser(old(request.body), IdentityOf(Some(lookup(sub).user))))))
  {
    var auth := request.authorization;
    if auth.None? || auth.value == "" {
      reply.Status(401);
      reply.Send(Error("Token missing."));
      return [], [];
    }

    var token := SecondField(auth.value);
    verified, lookedUp := [token], [];
    var sub := if token.None? then None else verify(token.value);
    if sub.None? {
      reply.Status(401);
      reply.Send(Error("Invalid token"));
      return;
    }

    lookedUp := [sub.value];
    var userAuthenticated := lookup(sub.value);
    if userAuthenticated.Threw? {
      reply.Status(401);
      reply.Send(Error("Invalid token"));
      return;
    }

    if userAuthenticated.Missing? {
      reply.Status(401);
      reply.Send(Error("User does not exists"));
    }

    var user := IdentityOf(if userAuthenticated.Found? then Some(userAuthenticated.user) else None);
    request.body := Some(WithUser(request.body, user));
  }

  /** The gate with an early return after the unknown-user reply: the
      corrected control flow. A request either receives exactly one 401
      reply and keeps its body, or receives no reply and has the found
      user's identity added to its body. */
  method EnsureAuthenticatedFailFast(request: Request, reply: Reply,
                                     verify: string -> Option<string>, lookup: string -> Lookup)
    modifies request, reply
    ensures request.authorization == old(request.authorization)
    ensures old(request.authorization) in {None, Some("")} ==>
      && reply.sent == old(reply.sent) + [Sent(401, Error("Token missing."))]
      && request.body == old(request.body)
    ensures old(request.authorization) !in {None, Some("")} ==>
      var sub := Subject(old(request.authorization).value, verify);
      && (sub.None? || lookup(sub.value).Threw? ==>
            && reply.sent == old(reply.sent) + [Sent(401, Error("Invalid token"))]
            && request.body == old(request.body))
      && (sub.Some? && lookup(sub.value).Missing? ==>
            && reply.sent == old(reply.sent) + [Sent(401, Error("User does not exists"))]
            && request.body == old(request.body))
      && (sub.Some? && lookup(sub.value).Found? ==>
            && reply.sent == old(reply.sent)
            && reply.statusCode == old(reply.statusCode)
            && request.body == Some(WithUser(old(request.body), IdentityOf(Some(lookup(sub.value).user)))))
  {
    var auth := request.authorization;
    if auth.None? || auth.value == "" {
      reply.Status(401);
      reply.Send(Error("Token missing."));
      return;
    }
    var token := SecondField(auth.value);
    var sub := if token.None? then None else verify(token.value);
    if sub.None? {
      reply.Status(401);
      reply.Send(Error("Invalid token"));
      return;
    }
    var userAuthenticated := lookup(sub.value);
    if userAuthenticated.Threw? {
      reply.Status(401);
      reply.Send(Error("Invalid token"));
      return;
    }
    if userAuthenticated.Missing? {
      reply.Status(401);
      reply.Send(Error("User does not exists"));
      return;
    }
    request.body := Some(WithUser(request.body, IdentityOf(Some(userAuthenticated.user))));
  }

  /** A verified token whose subject has no row, run through the gate as
      written: the 401 is sent, and the body still receives a `user` whose
      properties are all `undefined`. */
  method UnknownSubjectExample() returns (sent: seq<Sent>, body: Option<Body>)
    ensures sent == [Sent(401, Error("User does not exists"))]
    ensures body.Some? && "user" in body.value && body.value["user"].Obj?
    ensures forall key :: key in body.value["user"].fields ==> body.value["user"].fields[key] == Undefined
  {
    var request := new Request(Some("Bearer abc"), None);
    var reply := new Reply();
    SecondFieldOfSchemeAndToken("Bearer", "abc");
    var verified, lookedUp := EnsureAuthenticated(request, reply, _ => Some("u9"), _ => Missing);
    sent, body := reply.sent, request.body;
  }
}
