/**
 * `MiniExpress.runMiddleware`: middleware `i` gets a `next` that runs
 * middleware `i + 1`, and past the last one `next` runs the route handler.
 * Middlewares and handlers are user closures; each is modelled by what it
 * does to the response and whether it calls `next`.
 */
module Pipeline {
  import opened Wrappers
  import opened JavaStrings
  import opened Http

  /**
   * A middleware: the response calls it makes, whether it then calls
   * `next` (once), and the calls it makes after `next` returns.
   */
  datatype Middleware = Middleware(before: seq<Action>, callsNext: bool, after: seq<Action>)

  /**
   * A route handler: any handler by the response calls it makes, and the
   * three handlers of the example application.
   */
  datatype Handler =
    | Reply(actions: seq<Action>)
    | Hello     // res.send("Hello from Java MiniExpress!")
    | UserById  // res.json of {"user_id": "<id>"}
    | Echo      // res.json of {"you_sent": "<body with quotes escaped>"}

  /** Java's string concatenation of `map.get(k)`: a missing key reads "null". */
  function GetOrNull(m: map<string, string>, k: string): string
  {
    if k in m then m[k] else "null"
  }

  /**
   * The reply calls a handler makes. Each handler of the example application
   * makes exactly one call, with status 200; a missing `id` parameter is
   * rendered as the text `null`, as Java's string concatenation does.
   */
  function HandlerActions(h: Handler, req: Request): (r: seq<Action>)
    ensures h.Reply? ==> r == h.actions
    ensures !h.Reply? ==> |r| == 1 && WriteOf(r[0]).status == 200
    ensures h.Hello? ==> WriteOf(r[0]) == Write(200, Some(TextPlain), "Hello from Java MiniExpress!")
    ensures h.UserById? && "id" in req.params
         ==> WriteOf(r[0]) == Write(200, Some(ApplicationJson), "{\"user_id\": \"" + req.params["id"] + "\"}")
    ensures h.UserById? && "id" !in req.params
         ==> WriteOf(r[0]) == Write(200, Some(ApplicationJson), "{\"user_id\": \"null\"}")
    ensures h.Echo? ==> WriteOf(r[0]).contentType == Some(ApplicationJson)
  {
    match h
    case Reply(actions) => actions
    case Hello => [Send("Hello from Java MiniExpress!")]
    case UserById => [Json("{\"user_id\": \"" + GetOrNull(req.params, "id") + "\"}")]
    case Echo => [Json("{\"you_sent\": \"" + EscapeQuotes(req.body) + "\"}")]
  }

  /** What ran: middleware `index` was applied, or the handler ran. */
  datatype Step = Entered(index: nat) | Handled

  datatype ChainResult = ChainResult(state: ResState, trace: seq<Step>)

  /** `runMiddleware(index, req, res, handler)` on a response in state `st`. */
  function RunChain(mws: seq<Middleware>, index: nat, h: Handler, req: Request, st: ResState): ChainResult
    decreases |mws| - index
  {
    if index < |mws| then
      var m := mws[index];
      var st1 := Acts(st, m.before);
      if m.callsNext then
        var inner := RunChain(mws, index + 1, h, req, st1);
        ChainResult(Acts(inner.state, m.after), [Entered(index)] + inner.trace)
      else
        ChainResult(Acts(st1, m.after), [Entered(index)])
    else
      ChainResult(Acts(st, HandlerActions(h, req)), [Handled])
  }

  /** Middlewares `from` .. `to - 1` entered in that order. */
  function Entries(from: nat, to: nat): (r: seq<Step>)
    requires from <= to
    ensures |r| == to - from
    ensures forall i :: 0 <= i < |r| ==> r[i] == Entered(from + i)
  {
    seq(to - from, i requires 0 <= i < to - from => Entered(from + i))
  }

  /**
   * When every middleware calls `next`, they all run, in registration
   * order, and the handler runs last (directly, with no middleware).
   */
  lemma {:induction false} ChainRunsInOrder(mws: seq<Middleware>, index: nat, h: Handler, req: Request, st: ResState)
    requires index <= |mws|
    requires forall j :: index <= j < |mws| ==> mws[j].callsNext
    ensures RunChain(mws, index, h, req, st).trace == Entries(index, |mws|) + [Handled]
    decreases |mws| - index
  {
    if index < |mws| {
      ChainRunsInOrder(mws, index + 1, h, req, Acts(st, mws[index].before));
      assert Entries(index, |mws|) == [Entered(index)] + Entries(index + 1, |mws|);
    }
  }

  /**
   * When middleware `k` does not call `next`, the chain stops there: no
   * later middleware and not the handler.
   */
  lemma {:induction false} ChainShortCircuit(mws: seq<Middleware>, index: nat, k: nat, h: Handler, req: Request, st: ResState)
    requires index <= k < |mws| && !mws[k].callsNext
    requires forall j :: index <= j < k ==> mws[j].callsNext
    ensures RunChain(mws, index, h, req, st).trace == Entries(index, k + 1)
    ensures Handled !in RunChain(mws, index, h, req, st).trace
    decreases k - index
  {
    if index < k {
      ChainShortCircuit(mws, index + 1, k, h, req, Acts(st, mws[index].before));
      assert Entries(index, k + 1) == [Entered(index)] + Entries(index + 1, k + 1);
    }
  }

  /** The handler runs exactly when every remaining middleware calls `next`. */
  lemma {:induction false} HandlerRunsIffAllContinue(mws: seq<Middleware>, index: nat, h: Handler, req: Request, st: ResState)
    requires index <= |mws|
    ensures Handled in RunChain(mws, index, h, req, st).trace <==> forall j :: index <= j < |mws| ==> mws[j].callsNext
    decreases |mws| - index
  {
    if index < |mws| && mws[index].callsNext {
      HandlerRunsIffAllContinue(mws, index + 1, h, req, Acts(st, mws[index].before));
    }
  }

  /** However the chain goes, the response gets at most one write. */
  lemma {:induction false} ChainWritesAtMostOnce(mws: seq<Middleware>, index: nat, h: Handler, req: Request, st: ResState)
    ensures var r := RunChain(mws, index, h, req, st).state;
      && (st.sent ==> r == st)
      && (r == st || (r.sent && |r.writes| == |st.writes| + 1 && r.writes[..|st.writes|] == st.writes))
    decreases |mws| - index
  {
    if index < |mws| {
      var m := mws[index];
      var st1 := Acts(st, m.before);
      ActsFirstWriterWins(st, m.before);
      if m.callsNext {
        var inner := RunChain(mws, index + 1, h, req, st1);
        ChainWritesAtMostOnce(mws, index + 1, h, req, st1);
        ActsFirstWriterWins(inner.state, m.after);
        if st1 != st {
          assert inner.state == st1;
        }
      } else {
        ActsFirstWriterWins(st1, m.after);
      }
    } else {
      ActsFirstWriterWins(st, HandlerActions(h, req));
    }
  }

  /**
   * When middleware `k` replies and stops the chain, and no earlier one
   * wrote, the client sees exactly the first reply call of middleware `k`
   * (for a middleware that does not call `next`, where the calls fall
   * around the unused `next` does not matter).
   */
  lemma {:induction false} ShortCircuitResponse(mws: seq<Middleware>, index: nat, k: nat, h: Handler, req: Request, st: ResState)
    requires index <= k < |mws| && !mws[k].callsNext && mws[k].before + mws[k].after != []
    requires forall j :: index <= j < k ==> mws[j].callsNext && mws[j].before == []
    requires !st.sent
    ensures RunChain(mws, index, h, req, st).state
         == ResState(true, st.writes + [WriteOf((mws[k].before + mws[k].after)[0])])
    decreases k - index
  {
    var m := mws[index];
    ActsFirstWriterWins(st, m.before);
    if index < k {
      var inner := RunChain(mws, index + 1, h, req, st);
      ShortCircuitResponse(mws, index + 1, k, h, req, st);
      ActsFirstWriterWins(inner.state, m.after);
    } else {
      ActsFirstWriterWins(Acts(st, m.before), m.after);
      if m.before == [] {
        assert (m.before + m.after)[0] == m.after[0];
      } else {
        assert (m.before + m.after)[0] == m.before[0];
      }
    }
  }

  /**
   * When every middleware passes control on without writing first, the
   * client sees the handler's first write, whatever the middlewares do on
   * the way back.
   */
  lemma {:induction false} HandlerResponse(mws: seq<Middleware>, index: nat, h: Handler, req: Request, st: ResState)
    requires index <= |mws|
    requires forall j :: index <= j < |mws| ==> mws[j].callsNext && mws[j].before == []
    requires !st.sent && HandlerActions(h, req) != []
    ensures RunChain(mws, index, h, req, st).state == ResState(true, st.writes + [WriteOf(HandlerActions(h, req)[0])])
    decreases |mws| - index
  {
    if index < |mws| {
      var m := mws[index];
      ActsFirstWriterWins(st, m.before);
      var inner := RunChain(mws, index + 1, h, req, st);
      HandlerResponse(mws, index + 1, h, req, st);
      ActsFirstWriterWins(inner.state, m.after);
    } else {
      ActsFirstWriterWins(st, HandlerActions(h, req));
    }
  }
}
