/**
 One connection of a GeeRPC server: the reader in `serveCodec`, one handler
 goroutine per request with the worker it starts, the unbuffered channels
 between those two, the timer, the WaitGroup, and the responses written.

 `sendResponse` runs under one mutex, so a response is one action. The k-th
 request read has tag k; `from` and `tag` are history, no branch reads them.
 */
module RpcServer {
  import opened Wrappers
  import opened RpcTypes

  /** The body of every error response. */
  const INVALID_REQUEST: Value := "{}"
  const NOT_FOUND := "rpc server: can't find service or method"
  const BAD_BODY := "rpc server: read body err"
  const HANDLE_TIMEOUT := "rpc server: request handle timeout"

  /** A request on the wire; its body may not decode. */
  datatype Request = Request(from: CallId, h: Header, body: Option<Value>)

  datatype Response = Response(tag: nat, h: Header, body: Value)

  /** The goroutine that calls the method. */
  datatype Worker =
    | Calling
    | Offering(result: Outcome)  // blocked on called <-
    | Sending(result: Outcome)   // about to write the response
    | Answered                   // blocked on sent <-
    | Exited
  {
    predicate Blocked() { Calling? || Offering? }
  }

  /** The goroutine in `handleRequest`. */
  datatype Handler = Selecting | TimedOut | AwaitingSent | Finished

  /** What became of a request that was read. */
  datatype Task = Refused(answered: bool) | Handled(handler: Handler, worker: Worker)
  {
    predicate Active() { Handled? && !handler.Finished? }

    predicate HasResponse() {
      match this
      case Refused(answered) => answered
      case Handled(handler, worker) => worker.Answered? || worker.Exited? || (handler.Finished? && worker.Blocked())
    }

    /** The timer won the select. */
    predicate Late() { Handled? && worker.Blocked() && (handler.TimedOut? || handler.Finished?) }

    predicate Shaped() {
      Handled? ==>
        match handler
        case Selecting => worker.Blocked()
        case TimedOut => worker.Blocked()
        case AwaitingSent => worker.Sending? || worker.Answered?
        case Finished => worker.Blocked() || worker.Exited?
    }
  }

  /** The loop of `serveCodec`; it cannot go on after a request whose body it left in the stream. */
  datatype Reader = Reading | Refusing(error: string, lost: bool) | Draining | Closed

  datatype Server = Server(inp: seq<Request>, tasks: seq<Task>, out: seq<Response>, wg: nat, reader: Reader)
  {
    /** The server with task `k` replaced. */
    function Put(k: nat, t: Task): Server
      requires k < |tasks|
    {
      this.(tasks := tasks[k := t])
    }

    /** The server with one more response, to request `k`. */
    function Respond(k: nat, error: string, body: Value): Server
      requires k < |inp|
    {
      this.(out := out + [Response(k, inp[k].h.(error := error), body)])
    }
  }

  /** What the connection was opened with. */
  datatype Config = Config(service: Service, hasTimeout: bool)

  datatype Action =
    | Arrive(m: Request)
    | Read
    | ReadFails
    | Refuse
    | MethodReturns(k: nat)
    | Called(k: nat)
    | TimerFires(k: nat)
    | SendTimeout(k: nat)
    | SendResult(k: nat)
    | Sent(k: nat)
    | CloseConnection

  const Init := Server([], [], [], 0, Reading)

  predicate Runs(s: Server, k: nat) { k < |s.tasks| <= |s.inp| && s.tasks[k].Handled? && s.inp[k].body.Some? }

  predicate Enabled(cfg: Config, s: Server, a: Action) {
    match a
    case Arrive(_) => true
    case Read => s.reader.Reading? && |s.tasks| < |s.inp|
    case ReadFails => s.reader.Reading?
    case Refuse => s.reader.Refusing? && 0 < |s.tasks| <= |s.inp|
    case MethodReturns(k) => Runs(s, k) && s.tasks[k].worker.Calling?
    case Called(k) => Runs(s, k) && s.tasks[k].handler.Selecting? && s.tasks[k].worker.Offering?
    case TimerFires(k) => Runs(s, k) && s.tasks[k].handler.Selecting? && cfg.hasTimeout
    case SendTimeout(k) => Runs(s, k) && s.tasks[k].handler.TimedOut? && s.wg > 0
    case SendResult(k) => Runs(s, k) && s.tasks[k].worker.Sending?
    case Sent(k) => Runs(s, k) && s.tasks[k].handler.AwaitingSent? && s.tasks[k].worker.Answered? && s.wg > 0
    case CloseConnection => s.reader.Draining? && s.wg == 0
  }

  function ErrorText(result: Outcome): string { if result.Err? then result.text else "" }

  function Body(result: Outcome): Value { if result.Err? then INVALID_REQUEST else result.reply }

  /** readRequest and the branch that `serveCodec` takes on its result. */
  function ReadOne(cfg: Config, s: Server): Server
    requires |s.tasks| < |s.inp|
  {
    var m := s.inp[|s.tasks|];
    if m.h.target !in cfg.service.known then
      s.(tasks := s.tasks + [Refused(false)], reader := Refusing(NOT_FOUND, true))
    else if m.body.None? then
      s.(tasks := s.tasks + [Refused(false)], reader := Refusing(BAD_BODY, false))
    else
      s.(tasks := s.tasks + [Handled(Selecting, Calling)], wg := s.wg + 1)
  }

  function Apply(cfg: Config, s: Server, a: Action): Server
    requires Enabled(cfg, s, a)
  {
    match a
    case Arrive(m) => s.(inp := s.inp + [m])
    case Read => ReadOne(cfg, s)
    case ReadFails => s.(reader := Draining)
    case Refuse =>
      s.Put(|s.tasks| - 1, Refused(true))
       .Respond(|s.tasks| - 1, s.reader.error, INVALID_REQUEST)
       .(reader := if s.reader.lost then Draining else Reading)
    case MethodReturns(k) =>
      s.Put(k, Handled(s.tasks[k].handler, Offering(cfg.service.run(s.inp[k].h.target, s.inp[k].body.value))))
    case Called(k) => s.Put(k, Handled(AwaitingSent, Sending(s.tasks[k].worker.result)))
    case TimerFires(k) => s.Put(k, Handled(TimedOut, s.tasks[k].worker))
    case SendTimeout(k) =>
      s.Put(k, Handled(Finished, s.tasks[k].worker)).Respond(k, HANDLE_TIMEOUT, INVALID_REQUEST).(wg := s.wg - 1)
    case SendResult(k) =>
      s.Put(k, Handled(s.tasks[k].handler, Answered))
       .Respond(k, ErrorText(s.tasks[k].worker.result), Body(s.tasks[k].worker.result))
    case Sent(k) => s.Put(k, Handled(Finished, Exited)).(wg := s.wg - 1)
    case CloseConnection => s.(reader := Closed)
  }

  predicate Reaches(cfg: Config, s: Server, run: seq<Action>, s': Server)
    decreases |run|
  {
    if run == [] then s == s'
    else Enabled(cfg, s, run[0]) && Reaches(cfg, Apply(cfg, s, run[0]), run[1..], s')
  }

  // ---------------------------------------------------------------- invariant

  /** How many responses request `k` has got. */
  function Tally(out: seq<Response>, k: nat): nat {
    if out == [] then 0 else Tally(out[..|out| - 1], k) + if out[|out| - 1].tag == k then 1 else 0
  }

  function ActiveCount(tasks: seq<Task>): nat {
    if tasks == [] then 0 else ActiveCount(tasks[..|tasks| - 1]) + if tasks[|tasks| - 1].Active() then 1 else 0
  }

  /** An answer that request `m` may get: it echoes the Seq, and says what happened to that very request. */
  predicate Answers(cfg: Config, m: Request, r: Response) {
    r.h.seqno == m.h.seqno && r.h.target == m.h.target &&
    if m.h.target !in cfg.service.known then r.h.error == NOT_FOUND
    else if m.body.None? then r.h.error == BAD_BODY
    else
      var result := cfg.service.run(m.h.target, m.body.value);
      || (r.h.error == ErrorText(result) && r.body == Body(result))
      || (r.h.error == HANDLE_TIMEOUT && cfg.hasTimeout)
  }

  predicate TallyOk(s: Server, k: nat)
    requires k < |s.tasks|
  {
    Tally(s.out, k) == if s.tasks[k].HasResponse() then 1 else 0
  }

  predicate TaskOk(cfg: Config, s: Server, k: nat)
    requires k < |s.tasks| <= |s.inp|
  {
    TallyOk(s, k) && FormOk(cfg, s, k)
  }

  predicate FormOk(cfg: Config, s: Server, k: nat)
    requires k < |s.tasks| <= |s.inp|
  {
    var t, m := s.tasks[k], s.inp[k];
    && t.Shaped()
    && (t == Refused(false) ==> s.reader.Refusing? && k == |s.tasks| - 1)
    && (t.Handled? <==> m.h.target in cfg.service.known && m.body.Some?)
    && (t.Handled? && (t.worker.Offering? || t.worker.Sending?) ==>
          t.worker.result == cfg.service.run(m.h.target, m.body.value))
    && (t.Late() && !t.handler.Selecting? ==> cfg.hasTimeout)
  }

  predicate ReaderOk(cfg: Config, s: Server) {
    s.reader.Refusing? ==>
      0 < |s.tasks| <= |s.inp| && s.tasks[|s.tasks| - 1] == Refused(false) &&
      s.reader.error == if s.inp[|s.tasks| - 1].h.target !in cfg.service.known then NOT_FOUND else BAD_BODY
  }

  /** The response agrees with which side of the select won. */
  predicate Explains(cfg: Config, s: Server, r: Response)
    requires r.tag < |s.tasks| <= |s.inp|
  {
    var t, m := s.tasks[r.tag], s.inp[r.tag];
    && t.HasResponse()
    && Answers(cfg, m, r)
    && (t.Handled? && t.Late() ==> r.h.error == HANDLE_TIMEOUT && r.body == INVALID_REQUEST)
    && (t.Handled? && !t.Late() && m.body.Some? ==>
          var result := cfg.service.run(m.h.target, m.body.value);
          r.h.error == ErrorText(result) && r.body == Body(result))
  }

  ghost predicate OutOk(cfg: Config, s: Server) {
    forall i :: 0 <= i < |s.out| ==> s.out[i].tag < |s.tasks| <= |s.inp| && Explains(cfg, s, s.out[i])
  }

  ghost predicate Inv(cfg: Config, s: Server) {
    && |s.tasks| <= |s.inp|
    && s.wg == ActiveCount(s.tasks)
    && (s.reader.Closed? ==> s.wg == 0)
    && ReaderOk(cfg, s)
    && OutOk(cfg, s)
    && forall k :: 0 <= k < |s.tasks| ==> TaskOk(cfg, s, k)
  }

  lemma {:induction false} ActiveAfterPut(tasks: seq<Task>, k: nat, t: Task)
    requires k < |tasks|
    ensures ActiveCount(tasks[k := t]) ==
      ActiveCount(tasks) - (if tasks[k].Active() then 1 else 0) + (if t.Active() then 1 else 0)
  {
    var n := |tasks| - 1;
    if k < n {
      ActiveAfterPut(tasks[..n], k, t);
      assert tasks[k := t][..n] == tasks[..n][k := t];
    } else {
      assert tasks[k := t][..n] == tasks[..n];
    }
  }

  lemma {:induction false} NoneActive(tasks: seq<Task>, k: nat)
    requires k < |tasks| && ActiveCount(tasks) == 0
    ensures !tasks[k].Active()
  {
    if k < |tasks| - 1 {
      NoneActive(tasks[..|tasks| - 1], k);
    }
  }

  lemma TallyAfter(out: seq<Response>, r: Response, k: nat)
    ensures Tally(out + [r], k) == Tally(out, k) + if r.tag == k then 1 else 0
  {
    assert (out + [r])[..|out|] == out;
  }

  lemma {:induction false} TallyOfNew(cfg: Config, s: Server, out: seq<Response>)
    requires OutOk(cfg, s) && out <= s.out
    ensures Tally(out, |s.tasks|) == 0
    decreases |out|
  {
    if out != [] {
      var n := |out| - 1;
      assert out[n] == s.out[n];
      TallyOfNew(cfg, s, out[..n]);
    }
  }

  lemma ReadKeepsInv(cfg: Config, s: Server)
    requires Inv(cfg, s) && Enabled(cfg, s, Read)
    ensures Inv(cfg, Apply(cfg, s, Read))
  {
    var s' := Apply(cfg, s, Read);
    assert s'.tasks[..|s.tasks|] == s.tasks;
    ReadKeepsOut(cfg, s);
    NewTaskOk(cfg, s);
    forall k | 0 <= k < |s'.tasks| ensures TaskOk(cfg, s', k) {
      if k < |s.tasks| { ReadKeepsTask(cfg, s, k); }
    }
  }

  lemma ReadKeepsTask(cfg: Config, s: Server, k: nat)
    requires Enabled(cfg, s, Read) && k < |s.tasks| && TaskOk(cfg, s, k)
    ensures TaskOk(cfg, Apply(cfg, s, Read), k)
  {
  }

  lemma NewTaskOk(cfg: Config, s: Server)
    requires Enabled(cfg, s, Read) && OutOk(cfg, s)
    ensures TaskOk(cfg, Apply(cfg, s, Read), |s.tasks|)
  {
    TallyOfNew(cfg, s, s.out);
  }

  lemma ReadKeepsOut(cfg: Config, s: Server)
    requires Enabled(cfg, s, Read) && OutOk(cfg, s)
    ensures OutOk(cfg, Apply(cfg, s, Read))
  {
    var s' := Apply(cfg, s, Read);
    forall i | 0 <= i < |s'.out| ensures s'.out[i].tag < |s'.tasks| && Explains(cfg, s', s'.out[i]) {
      assert Explains(cfg, s, s.out[i]);
    }
  }

  /** The task that a step of a handler or worker is about. */
  predicate OfTask(a: Action) {
    a.MethodReturns? || a.Called? || a.TimerFires? || a.SendTimeout? || a.SendResult? || a.Sent?
  }

  lemma OwnStepKeepsForm(cfg: Config, s: Server, a: Action)
    requires OfTask(a) && Enabled(cfg, s, a) && FormOk(cfg, s, a.k)
    ensures FormOk(cfg, Apply(cfg, s, a), a.k)
  {
  }

  lemma OtherStepKeepsForm(cfg: Config, s: Server, a: Action, k: nat)
    requires OfTask(a) && Enabled(cfg, s, a) && k < |s.tasks| && k != a.k && FormOk(cfg, s, k)
    ensures FormOk(cfg, Apply(cfg, s, a), k)
  {
  }

  /** Those of them that write a response. */
  predicate Writes(a: Action) { a.SendTimeout? || a.SendResult? }

  lemma WhatIsWritten(cfg: Config, s: Server, a: Action) returns (r: Response)
    requires OfTask(a) && Enabled(cfg, s, a)
    ensures Apply(cfg, s, a).out == if Writes(a) then s.out + [r] else s.out
    ensures r.tag == a.k
  {
    r := Response(a.k, s.inp[a.k].h, INVALID_REQUEST);
    if Writes(a) { r := Apply(cfg, s, a).out[|s.out|]; }
  }

  lemma WritesOnce(cfg: Config, s: Server, a: Action)
    requires OfTask(a) && Enabled(cfg, s, a) && s.tasks[a.k].Shaped()
    ensures s.tasks[a.k].HasResponse() ==> !Writes(a)
    ensures Apply(cfg, s, a).tasks[a.k].HasResponse() <==> s.tasks[a.k].HasResponse() || Writes(a)
  {
  }

  lemma StepKeepsTally(cfg: Config, s: Server, a: Action, k: nat)
    requires OfTask(a) && Enabled(cfg, s, a) && k < |s.tasks| && TallyOk(s, k) && s.tasks[a.k].Shaped()
    ensures TallyOk(Apply(cfg, s, a), k)
  {
    var r := WhatIsWritten(cfg, s, a);
    TallyAfter(s.out, r, k);
    WritesOnce(cfg, s, a);
  }

  lemma TaskStepKeepsTask(cfg: Config, s: Server, a: Action, k: nat)
    requires OfTask(a) && Enabled(cfg, s, a) && k < |s.tasks|
    requires TaskOk(cfg, s, k) && FormOk(cfg, s, a.k)
    ensures TaskOk(cfg, Apply(cfg, s, a), k)
  {
    StepKeepsTally(cfg, s, a, k);
    if k == a.k { OwnStepKeepsForm(cfg, s, a); } else { OtherStepKeepsForm(cfg, s, a, k); }
  }

  lemma TaskStepKeepsOut(cfg: Config, s: Server, a: Action)
    requires OfTask(a) && Enabled(cfg, s, a) && OutOk(cfg, s) && TaskOk(cfg, s, a.k)
    ensures OutOk(cfg, Apply(cfg, s, a))
  {
  }

  lemma TaskStepKeepsInv(cfg: Config, s: Server, a: Action)
    requires Inv(cfg, s) && OfTask(a) && Enabled(cfg, s, a)
    ensures Inv(cfg, Apply(cfg, s, a))
  {
    var s' := Apply(cfg, s, a);
    assert TaskOk(cfg, s, a.k);
    ActiveAfterPut(s.tasks, a.k, s'.tasks[a.k]);
    TaskStepKeepsOut(cfg, s, a);
    forall k | 0 <= k < |s'.tasks| ensures TaskOk(cfg, s', k) {
      TaskStepKeepsTask(cfg, s, a, k);
    }
    if s.reader.Closed? { NoneActive(s.tasks, a.k); }
  }

  lemma RefuseKeepsTask(cfg: Config, s: Server, k: nat)
    requires Enabled(cfg, s, Refuse) && ReaderOk(cfg, s) && k < |s.tasks| && TaskOk(cfg, s, k)
    ensures TaskOk(cfg, Apply(cfg, s, Refuse), k)
  {
    TallyAfter(s.out, Apply(cfg, s, Refuse).out[|s.out|], k);
  }

  lemma RefuseKeepsOut(cfg: Config, s: Server)
    requires Enabled(cfg, s, Refuse) && ReaderOk(cfg, s) && OutOk(cfg, s) && TaskOk(cfg, s, |s.tasks| - 1)
    ensures OutOk(cfg, Apply(cfg, s, Refuse))
  {
    var s', n := Apply(cfg, s, Refuse), |s.tasks| - 1;
    forall i | 0 <= i < |s'.out| ensures s'.out[i].tag < |s'.tasks| && Explains(cfg, s', s'.out[i]) {
      if i < |s.out| { RefuseKeepsResponse(cfg, s, s.out[i]); } else { assert s'.out[i].tag == n; }
    }
  }

  lemma RefuseKeepsResponse(cfg: Config, s: Server, r: Response)
    requires Enabled(cfg, s, Refuse) && ReaderOk(cfg, s) && r.tag < |s.tasks| && Explains(cfg, s, r)
    ensures Explains(cfg, Apply(cfg, s, Refuse), r)
  {
  }

  lemma RefuseKeepsInv(cfg: Config, s: Server)
    requires Inv(cfg, s) && Enabled(cfg, s, Refuse)
    ensures Inv(cfg, Apply(cfg, s, Refuse))
  {
    var n := |s.tasks| - 1;
    assert TaskOk(cfg, s, n);
    ActiveAfterPut(s.tasks, n, Refused(true));
    RefuseKeepsOut(cfg, s);
    forall k | 0 <= k < |s.tasks| ensures TaskOk(cfg, Apply(cfg, s, Refuse), k) {
      RefuseKeepsTask(cfg, s, k);
    }
  }

  lemma StepKeepsInv(cfg: Config, s: Server, a: Action)
    requires Inv(cfg, s) && Enabled(cfg, s, a)
    ensures Inv(cfg, Apply(cfg, s, a))
  {
    if OfTask(a) {
      TaskStepKeepsInv(cfg, s, a);
    } else if a.Read? {
      ReadKeepsInv(cfg, s);
    } else if a.Refuse? {
      RefuseKeepsInv(cfg, s);
    } else {
      var s' := Apply(cfg, s, a);
      forall k | 0 <= k < |s'.tasks| ensures TaskOk(cfg, s', k) {
        assert TaskOk(cfg, s, k);
      }
    }
  }

  lemma {:induction false} RunKeepsInv(cfg: Config, s: Server, run: seq<Action>, s': Server)
    requires Inv(cfg, s) && Reaches(cfg, s, run, s')
    ensures Inv(cfg, s')
    decreases |run|
  {
    if run != [] {
      StepKeepsInv(cfg, s, run[0]);
      RunKeepsInv(cfg, Apply(cfg, s, run[0]), run[1..], s');
    }
  }

  // ------------------------------------------------------------- main results

  lemma {:induction false} TallyFinds(out: seq<Response>, k: nat) returns (i: nat)
    requires Tally(out, k) > 0
    ensures i < |out| && out[i].tag == k
  {
    i := |out| - 1;
    if out[i].tag != k {
      i := TallyFinds(out[..i], k);
    }
  }

  lemma {:induction false} TallyCountsBoth(out: seq<Response>, i: nat, j: nat)
    requires i < j < |out| && out[i].tag == out[j].tag
    ensures Tally(out, out[i].tag) >= 2
    decreases |out|
  {
    var n := |out| - 1;
    if j < n {
      TallyCountsBoth(out[..n], i, j);
    } else {
      TallyCountsOne(out[..n], i);
    }
  }

  lemma {:induction false} TallyCountsOne(out: seq<Response>, i: nat)
    requires i < |out|
    ensures Tally(out, out[i].tag) >= 1
    decreases |out|
  {
    if i < |out| - 1 {
      TallyCountsOne(out[..|out| - 1], i);
    }
  }

  /** At any time, no request has two responses, and every response answers the request it is tagged with. */
  lemma AtMostOneResponse(cfg: Config, run: seq<Action>, s: Server, i: nat, j: nat)
    requires Reaches(cfg, Init, run, s) && i < |s.out| && j < |s.out|
    ensures s.out[i].tag < |s.tasks| <= |s.inp| && Answers(cfg, s.inp[s.out[i].tag], s.out[i])
    ensures s.out[i].tag == s.out[j].tag ==> i == j
  {
    RunKeepsInv(cfg, Init, run, s);
    if s.out[i].tag == s.out[j].tag && i != j {
      assert TaskOk(cfg, s, s.out[i].tag);
      TallyCountsBoth(s.out, if i < j then i else j, if i < j then j else i);
    }
  }

  /** When the connection is closed, every request that was read has its response. */
  lemma EveryRequestAnsweredAtClose(cfg: Config, run: seq<Action>, s: Server, k: nat) returns (i: nat)
    requires Reaches(cfg, Init, run, s) && s.reader.Closed? && k < |s.tasks|
    ensures i < |s.out| && s.out[i].tag == k < |s.inp| && Answers(cfg, s.inp[k], s.out[i])
  {
    RunKeepsInv(cfg, Init, run, s);
    NoneActive(s.tasks, k);
    assert TaskOk(cfg, s, k);
    i := TallyFinds(s.out, k);
  }

  /** After the close nothing is written any more, whatever goroutines are left. */
  lemma {:induction false} NothingWrittenAfterClose(cfg: Config, s: Server, run: seq<Action>, s': Server)
    requires Inv(cfg, s) && s.reader.Closed? && Reaches(cfg, s, run, s')
    ensures s'.out == s.out && s'.reader.Closed?
    decreases |run|
  {
    if run != [] {
      var a := run[0];
      if OfTask(a) {
        NoneActive(s.tasks, a.k);
        assert TaskOk(cfg, s, a.k);
      }
      StepKeepsInv(cfg, s, a);
      NothingWrittenAfterClose(cfg, Apply(cfg, s, a), run[1..], s');
    }
  }

  /**
   Once the timer has won, the worker never gets past `called`: it stays where
   it is for good, and the one response its request gets is the timeout error.
   */
  lemma {:induction false} TimedOutWorkerNeverWrites(cfg: Config, s: Server, run: seq<Action>, s': Server, k: nat)
    requires Inv(cfg, s) && k < |s.tasks| && s.tasks[k].Late() && Reaches(cfg, s, run, s')
    ensures k < |s'.tasks| && s'.tasks[k].Late() && s'.tasks[k].worker.Blocked()
    ensures forall i :: 0 <= i < |s'.out| && s'.out[i].tag == k ==> s'.out[i].h.error == HANDLE_TIMEOUT
    decreases |run|
  {
    if run == [] {
      assert OutOk(cfg, s);
    } else {
      StepKeepsInv(cfg, s, run[0]);
      LateStaysLate(cfg, s, run[0], k);
      TimedOutWorkerNeverWrites(cfg, Apply(cfg, s, run[0]), run[1..], s', k);
    }
  }

  lemma LateStaysLate(cfg: Config, s: Server, a: Action, k: nat)
    requires Enabled(cfg, s, a) && k < |s.tasks| && s.tasks[k].Late()
    requires ReaderOk(cfg, s)
    ensures k < |Apply(cfg, s, a).tasks| && Apply(cfg, s, a).tasks[k].Late()
  {
  }

  /** How many steps of its goroutines are left for a request. */
  function StepsLeft(t: Task): nat {
    match t
    case Refused(_) => 0
    case Handled(Selecting, w) => if w.Calling? then 5 else 4
    case Handled(TimedOut, w) => if w.Calling? then 4 else 3
    case Handled(AwaitingSent, w) => if w.Sending? then 3 else 2
    case Handled(Finished, w) => if w.Calling? then 1 else 0
  }

  function TotalLeft(tasks: seq<Task>): nat {
    if tasks == [] then 0 else TotalLeft(tasks[..|tasks| - 1]) + StepsLeft(tasks[|tasks| - 1])
  }

  lemma {:induction false} TotalAfterPut(tasks: seq<Task>, k: nat, t: Task)
    requires k < |tasks|
    ensures TotalLeft(tasks[k := t]) == TotalLeft(tasks) - StepsLeft(tasks[k]) + StepsLeft(t)
  {
    var n := |tasks| - 1;
    if k < n {
      TotalAfterPut(tasks[..n], k, t);
      assert tasks[k := t][..n] == tasks[..n][k := t];
    } else {
      assert tasks[k := t][..n] == tasks[..n];
    }
  }

  /** Every step of a handler or a worker uses up one of the steps left: none of them can go on for ever. */
  lemma TaskStepsRunOut(cfg: Config, run: seq<Action>, s: Server, a: Action)
    requires Reaches(cfg, Init, run, s) && OfTask(a) && Enabled(cfg, s, a)
    ensures TotalLeft(Apply(cfg, s, a).tasks) < TotalLeft(s.tasks)
  {
    RunKeepsInv(cfg, Init, run, s);
    assert TaskOk(cfg, s, a.k);
    TotalAfterPut(s.tasks, a.k, Apply(cfg, s, a).tasks[a.k]);
  }

  lemma {:induction false} SomeActive(tasks: seq<Task>) returns (k: nat)
    requires ActiveCount(tasks) > 0
    ensures k < |tasks| && tasks[k].Active()
  {
    k := |tasks| - 1;
    if !tasks[k].Active() {
      k := SomeActive(tasks[..k]);
    }
  }

  /** wg.Wait() is never stuck: while the reader drains, a handler or its worker can step, or the close is due. */
  lemma DrainingNeverStuck(cfg: Config, run: seq<Action>, s: Server) returns (a: Action)
    requires Reaches(cfg, Init, run, s) && s.reader.Draining?
    ensures Enabled(cfg, s, a) && (OfTask(a) || a.CloseConnection?)
  {
    RunKeepsInv(cfg, Init, run, s);
    if s.wg == 0 {
      a := CloseConnection;
    } else {
      var k := SomeActive(s.tasks);
      assert TaskOk(cfg, s, k);
      var t := s.tasks[k];
      a := if t.handler.TimedOut? then SendTimeout(k)
           else if t.worker.Calling? then MethodReturns(k)
           else if t.worker.Offering? then Called(k)
           else if t.worker.Sending? then SendResult(k)
           else Sent(k);
    }
  }
}
