/**
 A GeeRPC client and the server at the other end of its connection, run
 together: requests and responses travel in order on the two halves of the
 wire, which may break at any moment.
 */
module RpcSystem {
  import opened Wrappers
  import opened RpcTypes
  import C = RpcClient
  import S = RpcServer

  /** `read` counts the responses the client has taken off the wire. */
  datatype System = System(client: C.Client, server: S.Server, read: nat)

  /** How much of a request reaches the server. */
  datatype Delivery = Nothing | HeaderOnly | Whole

  datatype Action =
    | Local(a: C.Action)                            // a client step that does not touch the wire
    | Transmit(c: CallId, ok: bool, d: Delivery)    // the codec's Write
    | DeliverHeader
    | DeliverBody
    | Serve(b: S.Action)

  const Init := System(C.Init, S.Init, 0)

  predicate TouchesWire(a: C.Action) { a.Write? || a.ReadHeader? || (a.ReadBody? && a.body.Some?) }

  /** The client reads the header of the next response. */
  function HeaderStep(s: System): C.Action
    requires s.read < |s.server.out|
  {
    C.ReadHeader(s.server.out[s.read].h)
  }

  /** The client reads the body of the next response. */
  function BodyStep(s: System): C.Action
    requires s.read < |s.server.out|
  {
    C.ReadBody(Some(s.server.out[s.read].body))
  }

  predicate Enabled(cfg: S.Config, s: System, a: Action) {
    match a
    case Serve(b) => !b.Arrive? && S.Enabled(cfg, s.server, b)
    case Local(b) => !TouchesWire(b) && C.Enabled(s.client, b)
    case Transmit(c, ok, _) => C.Enabled(s.client, C.Write(c, ok))
    case DeliverHeader => s.read < |s.server.out| && C.Enabled(s.client, HeaderStep(s))
    case DeliverBody => s.read < |s.server.out| && C.Enabled(s.client, BodyStep(s))
  }

  /** What reaches the server: the header is the client's shared one, as it is when Write runs. */
  function Emitted(s: System, c: CallId, d: Delivery): seq<S.Request>
    requires c in s.client.calls
  {
    match d
    case Nothing => []
    case HeaderOnly => [S.Request(c, s.client.header, None)]
    case Whole => [S.Request(c, s.client.header, Some(s.client.calls[c].args))]
  }

  function Apply(cfg: S.Config, s: System, a: Action): System
    requires Enabled(cfg, s, a)
  {
    match a
    case Local(b) => s.(client := C.Apply(s.client, b))
    case Transmit(c, ok, d) =>
      s.(client := C.Apply(s.client, C.Write(c, ok)),
         server := s.server.(inp := s.server.inp + Emitted(s, c, d)))
    case DeliverHeader => s.(client := C.Apply(s.client, HeaderStep(s)))
    case DeliverBody => s.(client := C.Apply(s.client, BodyStep(s)), read := s.read + 1)
    case Serve(b) => s.(server := S.Apply(cfg, s.server, b))
  }

  predicate Reaches(cfg: S.Config, s: System, run: seq<Action>, s': System)
    decreases |run|
  {
    if run == [] then s == s'
    else Enabled(cfg, s, run[0]) && Reaches(cfg, Apply(cfg, s, run[0]), run[1..], s')
  }

  // ---------------------------------------------------------------- invariant

  /** The request was sent by a call that is still the owner of its sequence number, and is that call's own. */
  predicate Sends(calls: map<CallId, C.CallRec>, m: S.Request) {
    m.from in calls &&
    var r := calls[m.from];
    && r.seqno == m.h.seqno != 0
    && r.target == m.h.target
    && (m.body.Some? ==> m.body.value == r.args)
  }

  ghost predicate WireOk(s: System) {
    && (forall i :: 0 <= i < |s.server.inp| ==> Sends(s.client.calls, s.server.inp[i]))
    && s.read <= |s.server.out|
    && (s.client.recv.GotHeader? || s.client.recv.Holding? ==>
          s.read < |s.server.out| && s.client.recv.h == s.server.out[s.read].h)
    && (s.client.recv.Erring? || s.client.recv.TermLocked? || s.client.recv.Terminating? ==>
          s.client.recv.err == C.ConnectionError)
  }

  /** The error texts that call `r` may be answered with. */
  predicate OwnErrorText(cfg: S.Config, r: C.CallRec, text: string) {
    || (r.target !in cfg.service.known && text == S.NOT_FOUND)
    || (r.target in cfg.service.known && text == S.BAD_BODY)
    || (r.target in cfg.service.known && cfg.hasTimeout && text == S.HANDLE_TIMEOUT)
    || (r.target in cfg.service.known && cfg.service.run(r.target, r.args) == Err(text))
  }

  /** What the end of a call says is about that call's own method on its own arguments. */
  predicate EndsOk(cfg: S.Config, r: C.CallRec) {
    r.done > 0 ==>
      (r.seqno == 0 <==> r.error == Some(C.ErrShutdown)) &&
      match r.error
      case None =>
        r.target in cfg.service.known && r.reply.Some? && cfg.service.run(r.target, r.args) == Ok(r.reply.value)
      case Some(Remote(text)) => OwnErrorText(cfg, r, text)
      case Some(BodyError) => r.target in cfg.service.known && cfg.service.run(r.target, r.args).Ok?
      case _ => true
  }

  ghost predicate Inv(cfg: S.Config, s: System) {
    && C.Inv(s.client)
    && S.Inv(cfg, s.server)
    && WireOk(s)
    && forall c :: c in s.client.calls ==> EndsOk(cfg, s.client.calls[c])
  }

  /** The client tells failure from success by the text alone: no registered method may fail with an empty one. */
  ghost predicate ErrorsHaveText(service: Service) {
    forall target, args :: target in service.known ==> service.run(target, args) != Err("")
  }

  /** Two records of the same call: what it asked for never changes, nor does its number once it has one. */
  predicate SameRequest(r: C.CallRec, r': C.CallRec) {
    r.target == r'.target && r.args == r'.args && (r.seqno != 0 ==> r'.seqno == r.seqno)
  }

  lemma SendKeepsRequest(s: C.Client, a: C.Action, c: CallId)
    requires C.SendingOk(s) && C.Enabled(s, a) && C.OfSend(a) && c in s.calls
    ensures c in C.Apply(s, a).calls && SameRequest(s.calls[c], C.Apply(s, a).calls[c])
  {
  }

  lemma OthersKeepRequest(s: C.Client, a: C.Action, c: CallId)
    requires C.Enabled(s, a) && !C.OfSend(a) && c in s.calls
    ensures c in C.Apply(s, a).calls && SameRequest(s.calls[c], C.Apply(s, a).calls[c])
  {
  }

  lemma ClientKeepsSends(s: C.Client, a: C.Action, inp: seq<S.Request>)
    requires C.Inv(s) && C.Enabled(s, a)
    requires forall i :: 0 <= i < |inp| ==> Sends(s.calls, inp[i])
    ensures forall i :: 0 <= i < |inp| ==> Sends(C.Apply(s, a).calls, inp[i])
  {
    forall i | 0 <= i < |inp| ensures Sends(C.Apply(s, a).calls, inp[i]) {
      assert Sends(s.calls, inp[i]);
      if C.OfSend(a) {
        SendKeepsRequest(s, a, inp[i].from);
      } else {
        OthersKeepRequest(s, a, inp[i].from);
      }
    }
  }

  /** Every step but the delivery to the call itself ends a call with a local error only, if at all. */
  lemma LocalEnd(cfg: S.Config, s: C.Client, a: C.Action, c: CallId)
    requires C.SharedOk(s) && C.Enabled(s, a) && c in C.Apply(s, a).calls
    requires !(a.ReadBody? && s.recv.call == Some(c))
    requires c in s.calls ==> EndsOk(cfg, s.calls[c]) && C.CallOk(s, c)
    requires s.recv.Terminating? ==> s.recv.err == C.ConnectionError
    ensures EndsOk(cfg, C.Apply(s, a).calls[c])
  {
    if C.OfSend(a) {
      SendEnd(cfg, s, a, c);
    } else if C.OfUser(a) {
      UserEnd(cfg, s, a, c);
    } else {
      ReceiverEnd(cfg, s, a, c);
    }
  }

  lemma SendEnd(cfg: S.Config, s: C.Client, a: C.Action, c: CallId)
    requires C.SendingOk(s) && C.Enabled(s, a) && C.OfSend(a) && c in s.calls
    requires EndsOk(cfg, s.calls[c]) && C.CallOk(s, c)
    ensures c in C.Apply(s, a).calls && EndsOk(cfg, C.Apply(s, a).calls[c])
  {
  }

  lemma UserEnd(cfg: S.Config, s: C.Client, a: C.Action, c: CallId)
    requires C.Enabled(s, a) && C.OfUser(a) && c in C.Apply(s, a).calls && (c in s.calls ==> EndsOk(cfg, s.calls[c]))
    ensures EndsOk(cfg, C.Apply(s, a).calls[c])
  {
  }

  lemma ReceiverEnd(cfg: S.Config, s: C.Client, a: C.Action, c: CallId)
    requires C.SharedOk(s) && C.Enabled(s, a) && !C.OfSend(a) && !C.OfUser(a) && c in s.calls
    requires !(a.ReadBody? && s.recv.call == Some(c))
    requires EndsOk(cfg, s.calls[c]) && C.CallOk(s, c)
    requires s.recv.Terminating? ==> s.recv.err == C.ConnectionError
    ensures c in C.Apply(s, a).calls && EndsOk(cfg, C.Apply(s, a).calls[c])
  {
  }

  /** A body, or the failure to read it, ends the call that the header named with what its own request deserves. */
  lemma DeliveredEnd(cfg: S.Config, s: System, body: Option<Value>, c: CallId)
    requires Inv(cfg, s) && ErrorsHaveText(cfg.service) && s.client.recv.Holding? && s.client.recv.call == Some(c)
    requires body.Some? ==> body.value == s.server.out[s.read].body
    requires c in s.client.calls
    ensures EndsOk(cfg, C.Delivered(s.client.calls[c], s.client.recv.h, body))
  {
    var r := s.server.out[s.read];
    assert S.Explains(cfg, s.server, r);
    var m := s.server.inp[r.tag];
    assert Sends(s.client.calls, m);
    assert C.CallOk(s.client, m.from) && C.CallOk(s.client, c);
    assert m.from == c;
  }

  /** A step of the client keeps the client's half of the invariant. */
  lemma ClientStepKeepsEnds(cfg: S.Config, s: System, a: C.Action)
    requires Inv(cfg, s) && ErrorsHaveText(cfg.service) && C.Enabled(s.client, a)
    requires a.ReadBody? && a.body.Some? ==> s.read < |s.server.out| && a.body.value == s.server.out[s.read].body
    ensures C.Inv(C.Apply(s.client, a))
    ensures forall c :: c in C.Apply(s.client, a).calls ==> EndsOk(cfg, C.Apply(s.client, a).calls[c])
    ensures forall i :: 0 <= i < |s.server.inp| ==> Sends(C.Apply(s.client, a).calls, s.server.inp[i])
  {
    C.StepKeepsInv(s.client, a);
    ClientKeepsSends(s.client, a, s.server.inp);
    forall c | c in C.Apply(s.client, a).calls ensures EndsOk(cfg, C.Apply(s.client, a).calls[c]) {
      if c in s.client.calls { assert C.CallOk(s.client, c); }
      if a.ReadBody? && s.client.recv.call == Some(c) {
        DeliveredEnd(cfg, s, a.body, c);
      } else {
        LocalEnd(cfg, s.client, a, c);
      }
    }
  }

  lemma ClientStepKeepsInv(cfg: S.Config, s: System, a: Action)
    requires Inv(cfg, s) && ErrorsHaveText(cfg.service) && Enabled(cfg, s, a) && !a.Serve? && !a.Transmit?
    ensures Inv(cfg, Apply(cfg, s, a))
  {
    ClientStepKeepsEnds(cfg, s, if a.Local? then a.a else if a.DeliverHeader? then HeaderStep(s) else BodyStep(s));
  }

  /** More requests on the wire change nothing in what the server has done. */
  lemma ArrivalsKeepServer(cfg: S.Config, s: S.Server, more: seq<S.Request>)
    requires S.Inv(cfg, s)
    ensures S.Inv(cfg, s.(inp := s.inp + more))
  {
    var s' := s.(inp := s.inp + more);
    forall k | 0 <= k < |s'.tasks| ensures S.TaskOk(cfg, s', k) {
      assert S.TaskOk(cfg, s, k);
    }
    forall i | 0 <= i < |s'.out| ensures s'.out[i].tag < |s'.tasks| && S.Explains(cfg, s', s'.out[i]) {
      assert S.Explains(cfg, s, s.out[i]);
    }
  }

  lemma TransmitKeepsInv(cfg: S.Config, s: System, c: CallId, ok: bool, d: Delivery)
    requires Inv(cfg, s) && ErrorsHaveText(cfg.service) && Enabled(cfg, s, Transmit(c, ok, d))
    ensures Inv(cfg, Apply(cfg, s, Transmit(c, ok, d)))
  {
    ClientStepKeepsEnds(cfg, s, C.Write(c, ok));
    ArrivalsKeepServer(cfg, s.server, Emitted(s, c, d));
  }

  lemma StepKeepsInv(cfg: S.Config, s: System, a: Action)
    requires Inv(cfg, s) && ErrorsHaveText(cfg.service) && Enabled(cfg, s, a)
    ensures Inv(cfg, Apply(cfg, s, a))
  {
    match a
    case Serve(b) =>
      S.StepKeepsInv(cfg, s.server, b);
      ServerOnlyAppends(cfg, s.server, b);
    case Transmit(c, ok, d) => TransmitKeepsInv(cfg, s, c, ok, d);
    case _ => ClientStepKeepsInv(cfg, s, a);
  }

  lemma ServerOnlyAppends(cfg: S.Config, s: S.Server, b: S.Action)
    requires S.Enabled(cfg, s, b) && !b.Arrive?
    ensures s.out <= S.Apply(cfg, s, b).out && S.Apply(cfg, s, b).inp == s.inp
  {
  }

  lemma {:induction false} RunKeepsInv(cfg: S.Config, s: System, run: seq<Action>, s': System)
    requires Inv(cfg, s) && ErrorsHaveText(cfg.service) && Reaches(cfg, s, run, s')
    ensures Inv(cfg, s')
    decreases |run|
  {
    if run != [] {
      StepKeepsInv(cfg, s, run[0]);
      RunKeepsInv(cfg, Apply(cfg, s, run[0]), run[1..], s');
    }
  }

  // ------------------------------------------------------------- main results

  /** A call that ended without an error carries the result of its own method on its own arguments. */
  predicate ReplyIsOwn(cfg: S.Config, r: C.CallRec) {
    r.done > 0 && r.error.None? ==>
      r.target in cfg.service.known && r.reply.Some? && cfg.service.run(r.target, r.args) == Ok(r.reply.value)
  }

  /**
   End to end, with any number of calls in flight, handlers answering in any
   order, timeouts on both sides and connections that break: every call that
   ends without an error has its own reply, provided service errors have text.
   */
  lemma RepliesAreOwn(cfg: S.Config, run: seq<Action>, s: System, c: CallId)
    requires ErrorsHaveText(cfg.service)
    requires Reaches(cfg, Init, run, s) && c in s.client.calls
    ensures ReplyIsOwn(cfg, s.client.calls[c])
  {
    RunKeepsInv(cfg, Init, run, s);
    assert EndsOk(cfg, s.client.calls[c]);
  }

  /**
   A reply that could not be read was that of a method which had succeeded,
   and only a call that never got a number ends with ErrShutdown. So a call
   for an unknown method, once answered, ends with the server's error text.
   */
  lemma OtherErrorsAreOwn(cfg: S.Config, run: seq<Action>, s: System, c: CallId)
    requires ErrorsHaveText(cfg.service) && Reaches(cfg, Init, run, s)
    requires c in s.client.calls && s.client.calls[c].done > 0
    ensures
      var r := s.client.calls[c];
      && (r.error == Some(C.BodyError) ==> r.target in cfg.service.known && cfg.service.run(r.target, r.args).Ok?)
      && (r.error == Some(C.ErrShutdown) <==> r.seqno == 0)
  {
    RunKeepsInv(cfg, Init, run, s);
    assert EndsOk(cfg, s.client.calls[c]);
  }

  /** And an error text that the server sent is about that call's own request. */
  lemma RemoteErrorsAreOwn(cfg: S.Config, run: seq<Action>, s: System, c: CallId, text: string)
    requires ErrorsHaveText(cfg.service) && Reaches(cfg, Init, run, s)
    requires c in s.client.calls && s.client.calls[c].done > 0 && s.client.calls[c].error == Some(C.Remote(text))
    ensures OwnErrorText(cfg, s.client.calls[c], text)
  {
    RunKeepsInv(cfg, Init, run, s);
    assert EndsOk(cfg, s.client.calls[c]);
  }

  // ------------------------------------------------- the condition is exact

  lemma {:induction false} RunExtends(cfg: S.Config, s: System, run: seq<Action>, s': System, a: Action)
    requires Reaches(cfg, s, run, s') && Enabled(cfg, s', a)
    ensures Reaches(cfg, s, run + [a], Apply(cfg, s', a))
    decreases |run|
  {
    if run == [] {
      assert Reaches(cfg, Apply(cfg, s, a), [], Apply(cfg, s, a));
    } else {
      RunExtends(cfg, Apply(cfg, s, run[0]), run[1..], s', a);
      assert (run + [a])[1..] == run[1..] + [a];
    }
  }

  /** The run longer by one action. */
  lemma Step(cfg: S.Config, run: seq<Action>, s: System, a: Action) returns (longer: seq<Action>, s': System)
    requires Reaches(cfg, Init, run, s) && Enabled(cfg, s, a)
    ensures longer == run + [a] && s' == Apply(cfg, s, a) && Reaches(cfg, Init, longer, s')
  {
    RunExtends(cfg, Init, run, s, a);
    longer, s' := run + [a], Apply(cfg, s, a);
  }

  /** A fresh connection, one call made and its request delivered. */
  lemma OneRequestSent(cfg: S.Config, target: string, args: Value) returns (run: seq<Action>, s: System)
    ensures Reaches(cfg, Init, run, s)
    ensures s.client == C.Init.(
      calls := map[0 := C.CallRec(target, args, 1, None, None, 0, C.Sent)], seqno := 2,
      pending := map[1 := 0], registered := map[1 := 0], header := Header(target, 1, ""))
    ensures s.server == S.Init.(inp := [S.Request(0, Header(target, 1, ""), Some(args))]) && s.read == 0
  {
    run, s := Step(cfg, [], Init, Local(C.Issue(0, target, args)));
    run, s := Step(cfg, run, s, Local(C.LockSending(0)));
    run, s := Step(cfg, run, s, Local(C.Register(0)));
    run, s := Step(cfg, run, s, Local(C.SetHeader(0)));
    run, s := Step(cfg, run, s, Transmit(0, true, Whole));
  }

  /** The server runs the method on that request and writes the response. */
  lemma OneRequestServed(cfg: S.Config, target: string, args: Value, run: seq<Action>, s: System)
    returns (longer: seq<Action>, s': System)
    requires target in cfg.service.known && Reaches(cfg, Init, run, s)
    requires s.server == S.Init.(inp := [S.Request(0, Header(target, 1, ""), Some(args))])
    ensures Reaches(cfg, Init, longer, s') && s'.client == s.client && s'.read == s.read
    ensures
      var result := cfg.service.run(target, args);
      s'.server.out == [S.Response(0, Header(target, 1, S.ErrorText(result)), S.Body(result))]
  {
    longer, s' := Step(cfg, run, s, Serve(S.Read));
    longer, s' := Step(cfg, longer, s', Serve(S.MethodReturns(0)));
    longer, s' := Step(cfg, longer, s', Serve(S.Called(0)));
    longer, s' := Step(cfg, longer, s', Serve(S.SendResult(0)));
  }

  /** A method that fails with an empty text is reported to its caller as a success. */
  lemma EmptyErrorReadAsSuccess(cfg: S.Config, target: string, args: Value) returns (run: seq<Action>, s: System)
    requires target in cfg.service.known && cfg.service.run(target, args) == Err("")
    ensures Reaches(cfg, Init, run, s) && 0 in s.client.calls && !ReplyIsOwn(cfg, s.client.calls[0])
  {
    run, s := OneRequestSent(cfg, target, args);
    run, s := OneRequestServed(cfg, target, args, run, s);
    run, s := OneResponseRead(cfg, run, s, 0, S.INVALID_REQUEST);
  }

  /** The client reads the one response there is, which reports no error, to its one call. */
  lemma OneResponseRead(cfg: S.Config, run: seq<Action>, s: System, c: CallId, body: Value)
    returns (longer: seq<Action>, s': System)
    requires Reaches(cfg, Init, run, s) && s.client.recv.Reading? && s.read == 0 && |s.server.out| == 1
    requires s.client.pending == map[1 := c] && c in s.client.calls
    requires s.server.out[0].h.seqno == 1 && s.server.out[0].h.error == "" && s.server.out[0].body == body
    ensures Reaches(cfg, Init, longer, s')
    ensures
      var r := s.client.calls[c];
      s'.client.calls == s.client.calls[c := r.(reply := Some(body), done := r.done + 1)]
  {
    longer, s' := Step(cfg, run, s, DeliverHeader);
    longer, s' := Step(cfg, longer, s', Local(C.RemoveCall));
    longer, s' := Step(cfg, longer, s', DeliverBody);
  }

  /** `run` leads to a state in which call `c` has ended well, but not with its own reply. */
  predicate Misleads(cfg: S.Config, run: seq<Action>, s: System, c: CallId) {
    Reaches(cfg, Init, run, s) && c in s.client.calls && !ReplyIsOwn(cfg, s.client.calls[c])
  }

  /** No run ends a call with a reply that is not its own exactly when every error of a registered method has a text. */
  lemma RepliesAreOwnIff(cfg: S.Config)
    ensures ErrorsHaveText(cfg.service) <==> forall run, s, c :: !Misleads(cfg, run, s, c)
  {
    if ErrorsHaveText(cfg.service) {
      forall run, s, c ensures !Misleads(cfg, run, s, c) {
        if Misleads(cfg, run, s, c) { RepliesAreOwn(cfg, run, s, c); }
      }
    } else {
      var target, args :| target in cfg.service.known && cfg.service.run(target, args) == Err("");
      var run, s := EmptyErrorReadAsSuccess(cfg, target, args);
      assert Misleads(cfg, run, s, 0);
    }
  }
}
