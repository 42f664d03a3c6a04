/** The part of a Fastify reply object the handlers touch: a status code
    that `reply.status(code)` sets and the sequence of `reply.send(...)`
    calls made on it. Every send is recorded, including those made after a
    first one; the framework delivers only the first. */
module Http {

  /** The payloads the modelled handlers send. */
  datatype Payload =
    | NoContent                                       // `send()`
    | Error(message: string)                          // `{ error: message }`
    | LoginResult(auth: bool, token: string, name: string, email: string)
                                                      // `{ auth, token, user: { name, email } }`

  /** One `send` call, with the status code the reply held at that moment. */
  datatype Sent = Sent(status: int, payload: Payload)

  class Reply {
    var statusCode: int
    var sent: seq<Sent>

    /** A fresh reply: status 200, nothing sent. */
    constructor ()
      ensures statusCode == 200 && sent == []
    {
      statusCode := 200;
      sent := [];
    }

    /** `reply.status(code)`. */
    method Status(code: int)
      modifies this
      ensures statusCode == code && sent == old(sent)
    {
      statusCode := code;
    }

    /** `reply.send(payload)`: recorded with the current status code. */
    method Send(payload: Payload)
      modifies this
      ensures statusCode == old(statusCode)
      ensures sent == old(sent) + [Sent(statusCode, payload)]
    {
      sent := sent + [Sent(statusCode, payload)];
    }
  }
}
