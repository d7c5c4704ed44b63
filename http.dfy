/**
 * The request/response façade over the transport exchange: `Request` holds
 * the values built once per request, `Response` guards the exchange with a
 * `sent` flag so that only the first terminal write reaches the transport.
 */
module Http {
  import opened Wrappers
  import opened QueryString

  const TextPlain := "text/plain"
  const ApplicationJson := "application/json"

  /**
   * One terminal write to the transport: status line, the Content-Type set
   * on the response headers (if any), the body; the stream is then closed.
   */
  datatype Write = Write(status: int, contentType: Option<string>, body: string)

  /** The three terminal operations of `Response`. */
  datatype Action = Send(text: string) | Json(json: string) | Status(code: int, msg: string)

  /** What an action writes when it takes effect. */
  function WriteOf(a: Action): Write
  {
    match a
    case Send(text) => Write(200, Some(TextPlain), text)
    case Json(json) => Write(200, Some(ApplicationJson), json)
    case Status(code, msg) => Write(code, None, msg)
  }

  /** A response as a value: its `sent` flag and what its exchange has written. */
  datatype ResState = ResState(sent: bool, writes: seq<Write>)

  /** One operation on the response: a no-op once `sent`. */
  function Act(st: ResState, a: Action): ResState
  {
    if st.sent then st else ResState(true, st.writes + [WriteOf(a)])
  }

  /** Several operations, in order. */
  function Acts(st: ResState, acts: seq<Action>): ResState
  {
    if acts == [] then st else Act(Acts(st, acts[..|acts| - 1]), acts[|acts| - 1])
  }

  /** First writer wins: of a run of operations only the first one writes. */
  lemma {:induction false} ActsFirstWriterWins(st: ResState, acts: seq<Action>)
    ensures st.sent ==> Acts(st, acts) == st
    ensures !st.sent ==> Acts(st, acts) == if acts == [] then st else ResState(true, st.writes + [WriteOf(acts[0])])
  {
    if acts != [] {
      var p := acts[..|acts| - 1];
      ActsFirstWriterWins(st, p);
      if p != [] {
        assert p[0] == acts[0];
      }
    }
  }

  /**
   * What the transport delivers about one request. `path` is the URI's
   * path as `getRequestURI().getPath()` gives it, already percent-decoded;
   * `rawQuery` is `getRawQuery()`, not decoded, and `None` when absent.
   */
  datatype Incoming = Incoming(httpMethod: string, path: string, rawQuery: Option<string>, body: string)

  /** `HttpExchange`: the request it carries and the writes made to it. */
  class Exchange {
    const request: Incoming
    var writes: seq<Write>

    constructor (request: Incoming)
      ensures this.request == request && writes == []
    {
      this.request := request;
      writes := [];
    }
  }

  /** `MiniExpress.Request`: built once per matched request. */
  datatype Request = Request(params: map<string, string>, query: map<string, string>, body: string)

  /** `new Request(exchange, params)`: parses the query, takes the body. */
  method NewRequest(ex: Exchange, params: map<string, string>) returns (req: Request)
    ensures req.params == params && req.body == ex.request.body
    ensures req.query == QuerySpec(ex.request.rawQuery)
  {
    var query := ParseQuery(ex.request.rawQuery);
    req := Request(params, query, ex.request.body);
  }

  /** `MiniExpress.Response`. */
  class Response {
    const exchange: Exchange
    var sent: bool

    constructor (exchange: Exchange)
      ensures this.exchange == exchange && !sent
    {
      this.exchange := exchange;
      sent := false;
    }

    ghost function State(): ResState
      reads this, exchange
    {
      ResState(sent, exchange.writes)
    }

    method Send(text: string)
      modifies this, exchange
      ensures sent
      ensures old(sent) ==> exchange.writes == old(exchange.writes)
      ensures !old(sent) ==> exchange.writes == old(exchange.writes) + [Write(200, Some(TextPlain), text)]
    {
      if sent {
        return;
      }
      exchange.writes := exchange.writes + [Write(200, Some(TextPlain), text)];
      sent := true;
    }

    method Json(json: string)
      modifies this, exchange
      ensures sent
      ensures old(sent) ==> exchange.writes == old(exchange.writes)
      ensures !old(sent) ==> exchange.writes == old(exchange.writes) + [Write(200, Some(ApplicationJson), json)]
    {
      if sent {
        return;
      }
      exchange.writes := exchange.writes + [Write(200, Some(ApplicationJson), json)];
      sent := true;
    }

    /** No Content-Type is set: the transport's default applies. */
    method Status(code: int, msg: string)
      modifies this, exchange
      ensures sent
      ensures old(sent) ==> exchange.writes == old(exchange.writes)
      ensures !old(sent) ==> exchange.writes == old(exchange.writes) + [Write(code, None, msg)]
    {
      if sent {
        return;
      }
      exchange.writes := exchange.writes + [Write(code, None, msg)];
      sent := true;
    }

    /** One call a handler or middleware makes. */
    method Perform(a: Action)
      modifies this, exchange
      ensures State() == Act(old(State()), a)
    {
      match a
      case Send(text) => Send(text);
      case Json(json) => Json(json);
      case Status(code, msg) => Status(code, msg);
    }

    /** The calls a handler or middleware body makes, in order. */
    method PerformAll(acts: seq<Action>)
      modifies this, exchange
      ensures State() == Acts(old(State()), acts)
    {
      for i := 0 to |acts|
        invariant State() == Acts(old(State()), acts[..i])
      {
        assert acts[..i + 1][..i] == acts[..i];
        Perform(acts[i]);
      }
      assert acts[..|acts|] == acts;
    }
  }
}
