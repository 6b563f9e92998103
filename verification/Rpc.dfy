/**
 Messages of the RabbitMQ RPC pattern, the server's dispatch, the client's decoding, and the two objects
 that carry them out. JSON is a pair of partial functions; handlers may depend on the whole delivery.
 */
module Rpc {
  import opened Wrappers

  type CorrId = string
  type Value = string
  type Body = string

  const SUCCESS := "success"
  const BAD_HANDLER := "unregistered handler"
  const INTERNAL_ERROR := "internal server error"
  const NO_BODY: Body := ""

  datatype Request = Request(corrId: CorrId, handler: string, body: Body, replyTo: string)

  datatype Reply = Reply(corrId: CorrId, status: string, body: Body)

  datatype HandlerResult = Responds(value: Value) | Fails(message: string)

  datatype Codec = Codec(marshal: Value -> Option<Body>, unmarshal: Body -> Option<Value>)

  datatype Env = Env(router: map<string, Request -> HandlerResult>, codec: Codec)

  /** What is assumed of JSON: marshalled values come back, and an absent body does not parse. */
  ghost predicate GoodCodec(c: Codec) {
    && c.unmarshal(NO_BODY).None?
    && forall v :: c.marshal(v).Some? ==> c.unmarshal(c.marshal(v).value) == Some(v)
  }

  // ----- Server side -----

  /** A response that does not marshal is still sent as a success, without a body. */
  function ReplyFor(e: Env, r: Request): Reply {
    if r.handler !in e.router then Reply(r.corrId, BAD_HANDLER, NO_BODY)
    else match e.router[r.handler](r)
         case Fails(_) => Reply(r.corrId, INTERNAL_ERROR, NO_BODY)
         case Responds(v) =>
           Reply(r.corrId, SUCCESS, match e.codec.marshal(v) case Some(b) => b case None => NO_BODY)
  }

  // ----- Client side -----

  datatype Outcome =
    | Decoded(value: Value)
    | DecodeError
    | BadHandler
    | InternalServer
    | NoResponse
    | Aborted(reason: string)

  /** The switch at the end of RemoteCall; NoResponse is its fall-through `return nil`. */
  function OutcomeOf(c: Codec, status: string, body: Body): Outcome {
    if status == SUCCESS then match c.unmarshal(body) case Some(v) => Decoded(v) case None => DecodeError
    else if status == BAD_HANDLER then BadHandler
    else if status == INTERNAL_ERROR then InternalServer
    else NoResponse
  }

  /** The call without the network between caller and handler. */
  function Direct(e: Env, r: Request): Outcome {
    if r.handler !in e.router then BadHandler
    else match e.router[r.handler](r)
         case Fails(_) => InternalServer
         case Responds(v) => if e.codec.marshal(v).Some? then Decoded(v) else DecodeError
  }

  /** Encoding on the server and decoding on the client cancel out, and the fall-through is never taken. */
  lemma ReplyMeansDirect(e: Env, r: Request)
    requires GoodCodec(e.codec)
    ensures OutcomeOf(e.codec, ReplyFor(e, r).status, ReplyFor(e, r).body) == Direct(e, r)
    ensures !Direct(e, r).NoResponse? && !Direct(e, r).Aborted?
  {
    assert |SUCCESS| == 7 && |BAD_HANDLER| == 20 && |INTERNAL_ERROR| == 21;
  }

  /** The server's three answers, word for word, each to the request's own caller; errors carry no body. */
  lemma ReplyWords(e: Env, r: Request)
    ensures ReplyFor(e, r).corrId == r.corrId
    ensures r.handler !in e.router ==> ReplyFor(e, r).status == "unregistered handler" && ReplyFor(e, r).body == ""
    ensures r.handler in e.router && e.router[r.handler](r).Fails? ==>
      ReplyFor(e, r).status == "internal server error" && ReplyFor(e, r).body == ""
    ensures r.handler in e.router && e.router[r.handler](r).Responds? ==>
      var body := e.codec.marshal(e.router[r.handler](r).value);
      ReplyFor(e, r).status == "success" && ReplyFor(e, r).body == if body.Some? then body.value else ""
  {
  }

  /** What the client makes of them, and of any other word. */
  lemma StatusWords(c: Codec, status: string, body: Body)
    ensures OutcomeOf(c, "unregistered handler", body) == BadHandler
    ensures OutcomeOf(c, "internal server error", body) == InternalServer
    ensures OutcomeOf(c, "success", body) ==
            if c.unmarshal(body).Some? then Decoded(c.unmarshal(body).value) else DecodeError
    ensures OutcomeOf(c, status, body).NoResponse? <==>
            status != "success" && status != "unregistered handler" && status != "internal server error"
  {
    assert |"success"| == 7 && |"unregistered handler"| == 20 && |"internal server error"| == 21;
  }

  // ----- The objects -----

  class PendingCall {
    var done: bool
    var status: string
    var body: Body

    constructor ()
      ensures !done
    {
      done := false;
      status := "";
      body := NO_BODY;
    }
  }

  class Client {
    var calls: map<CorrId, PendingCall>
    var acks: seq<CorrId>
    const codec: Codec

    constructor (codec: Codec)
      ensures calls == map[] && acks == [] && this.codec == codec
    {
      calls := map[];
      acks := [];
      this.codec := codec;
    }

    method AddCall(id: CorrId, call: PendingCall)
      modifies this`calls
      ensures calls == old(calls)[id := call]
    {
      calls := calls[id := call];
    }

    method DeleteCall(id: CorrId)
      modifies this`calls
      ensures calls == old(calls) - {id}
    {
      calls := calls - {id};
    }

    method GetCall(id: CorrId) returns (call: Option<PendingCall>)
      ensures call == if id in calls then Some(calls[id]) else None
    {
      if id in calls {
        return Some(calls[id]);
      }
      return None;
    }

    function Target(id: CorrId): set<PendingCall>
      reads this
    {
      if id in calls then {calls[id]} else {}
    }

    /** Closing a closed channel panics, so a call must not be served twice. */
    method ServeCall(d: Reply)
      requires d.corrId in calls ==> !calls[d.corrId].done
      modifies this`acks, Target(d.corrId)
      ensures d.corrId in calls ==>
        calls[d.corrId].done && calls[d.corrId].status == d.status && calls[d.corrId].body == d.body
      ensures acks == old(acks) + [d.corrId]
    {
      var call := GetCall(d.corrId);
      if call.Some? {
        call.value.status := d.status;
        call.value.body := d.body;
        call.value.done := true;
      }
      acks := acks + [d.corrId];
    }

    method Finish(call: PendingCall) returns (r: Outcome)
      requires call.done
      ensures r == OutcomeOf(codec, call.status, call.body)
    {
      if call.status == SUCCESS {
        var v := codec.unmarshal(call.body);
        if v.None? {
          return DecodeError;
        }
        return Decoded(v.value);
      } else if call.status == BAD_HANDLER {
        return BadHandler;
      } else if call.status == INTERNAL_ERROR {
        return InternalServer;
      }
      return NoResponse;
    }
  }

  class Server {
    const env: Env
    var published: seq<(string, Reply)>
    var acks: seq<CorrId>

    constructor (env: Env)
      ensures this.env == env && published == [] && acks == []
    {
      this.env := env;
      published := [];
      acks := [];
    }

    method Publish(d: Request, body: Body, status: string, channelOk: bool)
      modifies this
      ensures acks == old(acks)
      ensures published == if channelOk then old(published) + [(d.replyTo, Reply(d.corrId, status, body))]
          else old(published)
    {
      if channelOk {
        published := published + [(d.replyTo, Reply(d.corrId, status, body))];
      }
    }

    /** One reply, to the request's own exchange, and one acknowledgement on every path. */
    method ServeCall(d: Request, channelOk: bool)
      modifies this
      ensures published == if channelOk then old(published) + [(d.replyTo, ReplyFor(env, d))] else old(published)
      ensures acks == old(acks) + [d.corrId]
    {
      if d.handler !in env.router {
        Publish(d, NO_BODY, BAD_HANDLER, channelOk);
      } else {
        var result := env.router[d.handler](d);
        if result.Fails? {
          Publish(d, NO_BODY, INTERNAL_ERROR, channelOk);
        } else {
          var body := env.codec.marshal(result.value);
          Publish(d, if body.Some? then body.value else NO_BODY, SUCCESS, channelOk);
        }
      }
      acks := acks + [d.corrId];
    }
  }
}
