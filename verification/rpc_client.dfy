/**
 The pending-call protocol of a GeeRPC client, as an interleaving of its
 goroutines: one per issued call, one receive loop, and whoever calls Close.

 Every action is one section that the source runs under `mu`, or one piece of
 local work between two such sections. The body of `terminateCalls` is cut
 into one action per completed call, with `mu` held throughout.
 */
module RpcClient {
  import opened Wrappers
  import opened RpcTypes

  /** The buffer that Go gives to the Done channel of every call. */
  const DONE_CAPACITY := 10

  datatype Error =
    | ErrShutdown
    | WriteError
    | BodyError
    | ConnectionError
    | Remote(text: string)

  /** Where the goroutine of a call stands. */
  datatype Phase =
    | InGo       // Go has not returned
    | Sent       // Go has returned; Call waits in its select
    | Cancelled  // the context won the select and the call was removed
    | Returned   // Call received from Done

  /** A Call; `done` counts the sends on its Done channel so far, `seqno` is 0 until it is registered. */
  datatype CallRec = CallRec(
    target: string, args: Value, seqno: nat,
    reply: Option<Value>, error: Option<Error>, done: nat, phase: Phase)
  {
    /** Messages now in the Done channel. */
    function Buffered(): int { done - if phase.Returned? then 1 else 0 }
  }

  /** Where the goroutine that holds `sending` stands in `send`. */
  datatype Stage =
    | Locked       // has not registered
    | Rejected     // registerCall returned ErrShutdown
    | Registered   // has its seq, header not filled
    | HeaderSet    // about to write
    | WriteFailed  // about to take the call back
    | Failing      // took it back, about to complete it
  {
    predicate InFlight() { Registered? || HeaderSet? || WriteFailed? || Failing? }
  }

  /** The owner of the `sending` mutex. */
  datatype Holder = Free | Sender(c: CallId, stage: Stage) | Recv

  /** Where the receive loop stands. */
  datatype Receiver =
    | Reading
    | GotHeader(h: Header)
    | Holding(h: Header, call: Option<CallId>)
    | Erring(err: Error)
    | TermLocked(err: Error)
    | Terminating(err: Error, todo: set<nat>)
    | Finished

  /** `registered` is history: which call each sequence number was given to. */
  datatype Client = Client(
    calls: map<CallId, CallRec>,
    seqno: nat,
    pending: map<nat, CallId>,
    registered: map<nat, CallId>,
    header: Header,
    closing: bool,
    shutdown: bool,
    sending: Holder,
    recv: Receiver)
  {
    /** Only terminateCalls keeps `mu` across actions. */
    predicate MuFree() { !recv.Terminating? }

    predicate InSend(c: CallId, stage: Stage) { c in calls && sending == Sender(c, stage) }

    predicate Waiting(c: CallId) { c in calls && calls[c].phase.Sent? }

    /** The client with the record of `c` replaced. */
    function Put(c: CallId, r: CallRec): Client { this.(calls := calls[c := r]) }
  }

  datatype Action =
    | Issue(c: CallId, target: string, args: Value)
    | LockSending(c: CallId)
    | Register(c: CallId)
    | Reject(c: CallId)
    | SetHeader(c: CallId)
    | Write(c: CallId, ok: bool)
    | TakeBack(c: CallId)
    | FailDone(c: CallId)
    | Timeout(c: CallId)
    | Receive(c: CallId)
    | Close
    | ReadHeader(h: Header)
    | HeaderFails
    | RemoveCall
    | ReadBody(body: Option<Value>)
    | TermLock
    | TermShutdown
    | TermComplete(q: nat)
    | TermUnlock

  const Init := Client(map[], 1, map[], map[], Header("", 0, ""), false, false, Free, Reading)

  predicate Enabled(s: Client, a: Action) {
    match a
    case Issue(c, _, _) => c !in s.calls
    case LockSending(c) => c in s.calls && s.calls[c].phase.InGo? && s.sending == Free
    case Register(c) => s.InSend(c, Locked) && s.MuFree()
    case Reject(c) => s.InSend(c, Rejected)
    case SetHeader(c) => s.InSend(c, Registered)
    case Write(c, _) => s.InSend(c, HeaderSet)
    case TakeBack(c) => s.InSend(c, WriteFailed) && s.MuFree()
    case FailDone(c) => s.InSend(c, Failing)
    case Timeout(c) => s.Waiting(c) && s.MuFree()
    case Receive(c) => s.Waiting(c) && s.calls[c].Buffered() > 0
    case Close => s.MuFree()
    case ReadHeader(_) => s.recv.Reading?
    case HeaderFails => s.recv.Reading?
    case RemoveCall => s.recv.GotHeader?
    case ReadBody(_) => s.recv.Holding? && (s.recv.call.Some? ==> s.recv.call.value in s.calls)
    case TermLock => s.recv.Erring? && s.sending == Free
    case TermShutdown => s.recv.TermLocked?
    case TermComplete(q) =>
      s.recv.Terminating? && q in s.recv.todo && q in s.pending && s.pending[q] in s.calls
    case TermUnlock => s.recv.Terminating? && s.recv.todo == {}
  }

  /** call.Error = err; call.done() */
  function FailCall(r: CallRec, err: Error): CallRec {
    r.(error := Some(err), done := r.done + 1)
  }

  /** registerCall */
  function RegisterCall(s: Client, c: CallId): Client
    requires c in s.calls
  {
    if s.closing || s.shutdown then s.(sending := Sender(c, Rejected))
    else
      s.Put(c, s.calls[c].(seqno := s.seqno)).(
        pending := s.pending[s.seqno := c],
        registered := s.registered[s.seqno := c],
        seqno := s.seqno + 1,
        sending := Sender(c, Registered))
  }

  /** What `receive` does to the call it holds once the body was read, or could not be. */
  function Delivered(r: CallRec, h: Header, body: Option<Value>): CallRec {
    if h.error != "" then FailCall(r, Remote(h.error))
    else if body.None? then FailCall(r, BodyError)
    else r.(reply := body, done := r.done + 1)
  }

  function Apply(s: Client, a: Action): Client
    requires Enabled(s, a)
  {
    match a
    case Issue(c, target, args) => s.Put(c, CallRec(target, args, 0, None, None, 0, InGo))
    case LockSending(c) => s.(sending := Sender(c, Locked))
    case Register(c) => RegisterCall(s, c)
    case Reject(c) => s.Put(c, FailCall(s.calls[c], ErrShutdown).(phase := Sent)).(sending := Free)
    case SetHeader(c) =>
      s.(header := Header(s.calls[c].target, s.calls[c].seqno, ""), sending := Sender(c, HeaderSet))
    case Write(c, ok) =>
      if ok then s.Put(c, s.calls[c].(phase := Sent)).(sending := Free)
      else s.(sending := Sender(c, WriteFailed))
    case TakeBack(c) =>
      if s.calls[c].seqno in s.pending
      then s.(pending := s.pending - {s.calls[c].seqno}, sending := Sender(c, Failing))
      else s.Put(c, s.calls[c].(phase := Sent)).(sending := Free)
    case FailDone(c) => s.Put(c, FailCall(s.calls[c], WriteError).(phase := Sent)).(sending := Free)
    case Timeout(c) =>
      s.Put(c, s.calls[c].(phase := Cancelled)).(pending := s.pending - {s.calls[c].seqno})
    case Receive(c) => s.Put(c, s.calls[c].(phase := Returned))
    case Close => s.(closing := true)
    case ReadHeader(h) => s.(recv := GotHeader(h))
    case HeaderFails => s.(recv := Erring(ConnectionError))
    case RemoveCall =>
      var q := s.recv.h.seqno;
      s.(recv := Holding(s.recv.h, if q in s.pending then Some(s.pending[q]) else None),
         pending := s.pending - {q})
    case ReadBody(body) =>
      var s' := s.(recv := if body.Some? then Reading else Erring(ConnectionError));
      if s.recv.call.None? then s'
      else s'.Put(s.recv.call.value, Delivered(s.calls[s.recv.call.value], s.recv.h, body))
    case TermLock => s.(recv := TermLocked(s.recv.err), sending := Recv)
    case TermShutdown => s.(recv := Terminating(s.recv.err, s.pending.Keys), shutdown := true)
    case TermComplete(q) =>
      s.Put(s.pending[q], FailCall(s.calls[s.pending[q]], s.recv.err)).(
        recv := Terminating(s.recv.err, s.recv.todo - {q}))
    case TermUnlock => s.(recv := Finished, sending := Free)
  }

  /** `s'` is where the actions of `run` lead from `s`, every one of them enabled in its turn. */
  predicate Reaches(s: Client, run: seq<Action>, s': Client)
    decreases |run|
  {
    if run == [] then s == s'
    else Enabled(s, run[0]) && Reaches(Apply(s, run[0]), run[1..], s')
  }

  // ---------------------------------------------------------------- invariant

  /** A pending entry that terminateCalls has not completed. */
  predicate Live(s: Client, q: nat) {
    q in s.pending && (s.recv.Terminating? ==> q in s.recv.todo) && !s.recv.Finished?
  }

  function One(b: bool): nat { if b then 1 else 0 }

  /**
   The places that own call `c`: a live pending entry, the receive loop, its
   own failing sender, or the past (each completion so far).
   */
  function Owners(s: Client, c: CallId): nat
    requires c in s.calls
  {
    One(Live(s, s.calls[c].seqno)) +
    One(s.recv.Holding? && s.recv.call == Some(c)) +
    One(s.sending == Sender(c, Failing)) +
    s.calls[c].done
  }

  /** Linear ownership: one owner each, or none for a call its own timeout removed. */
  predicate Owned(s: Client, c: CallId)
    requires c in s.calls
  {
    && Owners(s, c) <= 1
    && (s.calls[c].seqno != 0 && !s.calls[c].phase.Cancelled? ==> Owners(s, c) == 1)
  }

  /** What the record of a call says about its own past. */
  predicate RecOk(r: CallRec) {
    && (r.seqno == 0 ==> r.done == One(!r.phase.InGo?))
    && (r.phase.Returned? ==> r.done == 1)
    && (r.done == 0 ==> r.error == None)
  }

  predicate CallOk(s: Client, c: CallId)
    requires c in s.calls
  {
    && RecOk(s.calls[c])
    && Owned(s, c)
    && (s.calls[c].phase.InGo? && s.calls[c].seqno != 0 ==> s.sending.Sender? && s.sending.c == c)
    && (s.calls[c].seqno != 0 ==> s.calls[c].seqno in s.registered && s.registered[s.calls[c].seqno] == c)
  }

  ghost predicate PendingOk(s: Client) {
    && 0 !in s.registered
    && (forall q :: q in s.registered ==>
          q < s.seqno && s.registered[q] in s.calls && s.calls[s.registered[q]].seqno == q)
    && (forall q :: q in s.pending ==> q in s.registered && s.registered[q] == s.pending[q])
  }

  predicate RecvOk(s: Client) {
    && (s.recv.Terminating? ==> s.recv.todo <= s.pending.Keys)
    && (s.recv.Holding? && s.recv.call.Some? ==>
          s.recv.h.seqno in s.registered && s.registered[s.recv.h.seqno] == s.recv.call.value)
    && (s.sending == Recv <==> s.recv.TermLocked? || s.recv.Terminating?)
    && (s.shutdown <==> s.recv.Terminating? || s.recv.Finished?)
  }

  predicate SendingOk(s: Client) {
    s.seqno >= 1 &&
    (s.sending.Sender? ==>
      var c := s.sending.c;
      && c in s.calls && s.calls[c].phase.InGo?
      && (s.sending.stage.InFlight() <==> s.calls[c].seqno != 0)
      && (s.sending.stage.InFlight() ==> !s.shutdown)
      && (s.sending.stage.HeaderSet? ==> s.header == Header(s.calls[c].target, s.calls[c].seqno, "")))
  }

  ghost predicate Inv(s: Client) {
    SharedOk(s) && forall c :: c in s.calls ==> CallOk(s, c)
  }

  ghost predicate SharedOk(s: Client) { PendingOk(s) && RecvOk(s) && SendingOk(s) }

  /** Steps of the goroutine inside `send`. */
  predicate OfSend(a: Action) {
    a.LockSending? || a.Register? || a.Reject? || a.SetHeader? || a.Write? || a.TakeBack? || a.FailDone?
  }

  /** Steps of the users of the client. */
  predicate OfUser(a: Action) { a.Issue? || a.Timeout? || a.Receive? || a.Close? }

  lemma RegisterKeepsPending(s: Client, c: CallId)
    requires PendingOk(s) && SendingOk(s) && Enabled(s, Register(c)) && CallOk(s, c)
    ensures PendingOk(Apply(s, Register(c)))
  {
  }

  lemma SendKeepsPending(s: Client, a: Action)
    requires PendingOk(s) && SendingOk(s) && Enabled(s, a) && OfSend(a) && !a.Register?
    ensures PendingOk(Apply(s, a))
  {
  }

  lemma UserKeepsPending(s: Client, a: Action)
    requires PendingOk(s) && Enabled(s, a) && OfUser(a)
    ensures PendingOk(Apply(s, a))
  {
  }

  lemma ReceiverKeepsPending(s: Client, a: Action)
    requires PendingOk(s) && Enabled(s, a) && !OfSend(a) && !OfUser(a)
    ensures PendingOk(Apply(s, a))
  {
  }

  lemma SendKeepsLocks(s: Client, a: Action)
    requires SharedOk(s) && Enabled(s, a) && OfSend(a)
    requires a.LockSending? ==> CallOk(s, a.c)
    ensures RecvOk(Apply(s, a)) && SendingOk(Apply(s, a))
  {
  }

  lemma OthersKeepLocks(s: Client, a: Action)
    requires SharedOk(s) && Enabled(s, a) && !OfSend(a)
    ensures RecvOk(Apply(s, a)) && SendingOk(Apply(s, a))
  {
  }

  lemma SendKeepsOwnCall(s: Client, a: Action)
    requires SharedOk(s) && Enabled(s, a) && OfSend(a) && CallOk(s, a.c)
    ensures CallOk(Apply(s, a), a.c)
  {
  }

  lemma SendKeepsOtherCall(s: Client, a: Action, c: CallId)
    requires SharedOk(s) && Enabled(s, a) && OfSend(a) && !a.Register? && c in s.calls && c != a.c
    requires CallOk(s, c) && CallOk(s, a.c)
    ensures CallOk(Apply(s, a), c)
  {
  }

  lemma RegisterKeepsOtherCall(s: Client, d: CallId, c: CallId)
    requires SharedOk(s) && Enabled(s, Register(d)) && c in s.calls && c != d && CallOk(s, c)
    ensures CallOk(Apply(s, Register(d)), c)
  {
  }

  lemma UserKeepsCall(s: Client, a: Action, c: CallId)
    requires SharedOk(s) && Enabled(s, a) && OfUser(a) && c in Apply(s, a).calls
    requires c in s.calls ==> CallOk(s, c)
    requires a.Timeout? ==> CallOk(s, a.c)
    ensures CallOk(Apply(s, a), c)
  {
  }

  predicate OfTermination(a: Action) { a.TermLock? || a.TermShutdown? || a.TermComplete? || a.TermUnlock? }

  lemma ReceiverKeepsCall(s: Client, a: Action, c: CallId)
    requires SharedOk(s) && Enabled(s, a) && !OfSend(a) && !OfUser(a) && !OfTermination(a) && c in s.calls
    requires CallOk(s, c)
    ensures CallOk(Apply(s, a), c)
  {
  }

  lemma TerminationKeepsCall(s: Client, a: Action, c: CallId)
    requires SharedOk(s) && Enabled(s, a) && OfTermination(a) && c in s.calls
    requires CallOk(s, c)
    ensures CallOk(Apply(s, a), c)
  {
  }

  lemma StepKeepsShared(s: Client, a: Action)
    requires SharedOk(s) && Enabled(s, a)
    requires a.Register? || a.LockSending? ==> CallOk(s, a.c)
    ensures SharedOk(Apply(s, a))
  {
    if OfSend(a) { SendKeepsLocks(s, a); } else { OthersKeepLocks(s, a); }
    if a.Register? {
      RegisterKeepsPending(s, a.c);
    } else if OfSend(a) {
      SendKeepsPending(s, a);
    } else if OfUser(a) {
      UserKeepsPending(s, a);
    } else {
      ReceiverKeepsPending(s, a);
    }
  }

  lemma StepKeepsInv(s: Client, a: Action)
    requires Inv(s) && Enabled(s, a)
    ensures Inv(Apply(s, a))
  {
    StepKeepsShared(s, a);
    forall c | c in Apply(s, a).calls ensures CallOk(Apply(s, a), c) {
      if OfUser(a) {
        UserKeepsCall(s, a, c);
      } else if OfTermination(a) {
        TerminationKeepsCall(s, a, c);
      } else if !OfSend(a) {
        ReceiverKeepsCall(s, a, c);
      } else if c == a.c {
        SendKeepsOwnCall(s, a);
      } else if a.Register? {
        RegisterKeepsOtherCall(s, a.c, c);
      } else {
        SendKeepsOtherCall(s, a, c);
      }
    }
  }

  lemma {:induction false} RunKeepsInv(s: Client, run: seq<Action>, s': Client)
    requires Inv(s) && Reaches(s, run, s')
    ensures Inv(s')
    decreases |run|
  {
    if run != [] {
      StepKeepsInv(s, run[0]);
      RunKeepsInv(Apply(s, run[0]), run[1..], s');
    }
  }

  // ------------------------------------------------------------- main results

  /** No call is ever completed twice, whatever the interleaving and whatever the server sends. */
  lemma CompletedAtMostOnce(run: seq<Action>, s: Client, c: CallId)
    requires Reaches(Init, run, s) && c in s.calls
    ensures s.calls[c].done <= 1
  {
    RunKeepsInv(Init, run, s);
    assert CallOk(s, c);
  }

  /**
   Once terminateCalls is over and nobody is inside `send`, a call whose Go
   has returned was completed exactly once, unless its own timeout removed it.
   */
  lemma AllSettledAfterTermination(run: seq<Action>, s: Client, c: CallId)
    requires Reaches(Init, run, s) && c in s.calls
    requires s.recv.Finished? && s.sending == Free
    ensures s.calls[c].phase.Sent? || s.calls[c].phase.Returned? ==> s.calls[c].done == 1
    ensures s.calls[c].done == 0 ==> s.calls[c].phase.Cancelled? || (s.calls[c].phase.InGo? && s.calls[c].seqno == 0)
  {
    RunKeepsInv(Init, run, s);
    assert CallOk(s, c);
  }

  /** The steps that send on a Done channel. */
  predicate Completes(a: Action) { a.Reject? || a.FailDone? || a.ReadBody? || a.TermComplete? }

  /** What a step may do to the completions of a call. */
  predicate DoneGrows(s: Client, a: Action, c: CallId)
    requires Enabled(s, a) && c in s.calls
  {
    c in Apply(s, a).calls && Apply(s, a).calls[c].done >= s.calls[c].done &&
    (Apply(s, a).calls[c].done != s.calls[c].done ==> Completes(a))
  }

  lemma SendOnlyAddsDone(s: Client, a: Action, c: CallId)
    requires OfSend(a) && Enabled(s, a) && c in s.calls
    ensures DoneGrows(s, a, c)
  {
  }

  lemma OthersOnlyAddDone(s: Client, a: Action, c: CallId)
    requires !OfSend(a) && Enabled(s, a) && c in s.calls
    ensures DoneGrows(s, a, c)
  {
  }

  lemma DoneOnlyGrows(s: Client, a: Action, c: CallId)
    requires Enabled(s, a) && c in s.calls
    ensures DoneGrows(s, a, c)
  {
    if OfSend(a) { SendOnlyAddsDone(s, a, c); } else { OthersOnlyAddDone(s, a, c); }
  }

  /**
   The send in `done()` never blocks: a step that completes a call is the
   first to do so, finds its channel empty, and the channel has room for ten.
   */
  lemma CompletionNeverBlocks(run: seq<Action>, s: Client, a: Action, c: CallId)
    requires Reaches(Init, run, s) && Enabled(s, a)
    requires c in s.calls && c in Apply(s, a).calls && Apply(s, a).calls[c].done != s.calls[c].done
    ensures Completes(a)
    ensures s.calls[c].Buffered() == 0 < DONE_CAPACITY && s.calls[c].error == None
    ensures Apply(s, a).calls[c].done == 1
  {
    RunKeepsInv(Init, run, s);
    DoneOnlyGrows(s, a, c);
    CompletedAtMostOnce(run, s, c);
    assert RecOk(s.calls[c]) by { assert CallOk(s, c); }
    RunExtends(Init, run, s, a);
    CompletedAtMostOnce(run + [a], Apply(s, a), c);
  }

  lemma {:induction false} RunExtends(s: Client, run: seq<Action>, s': Client, a: Action)
    requires Reaches(s, run, s') && Enabled(s', a)
    ensures Reaches(s, run + [a], Apply(s', a))
    decreases |run|
  {
    if run == [] {
      assert Reaches(Apply(s, a), [], Apply(s, a));
    } else {
      RunExtends(Apply(s, run[0]), run[1..], s', a);
      assert (run + [a])[1..] == run[1..] + [a];
    }
  }

  /** Whether `a` is a step of the goroutine that holds `sending`. */
  predicate OfHolder(s: Client, a: Action) {
    match s.sending
    case Free => false
    case Sender(c, _) => OfSend(a) && a.c == c
    case Recv => a.TermShutdown? || a.TermComplete? || a.TermUnlock?
  }

  /** How many steps the holder of `sending` takes at most before it releases it. */
  function StepsLeft(s: Client): nat {
    match s.sending
    case Free => 0
    case Recv =>
      (match s.recv
       case TermLocked(_) => |s.pending| + 2
       case Terminating(_, todo) => |todo| + 1
       case _ => 0)
    case Sender(_, stage) =>
      (match stage
       case Locked => 5
       case Registered => 4
       case HeaderSet => 3
       case WriteFailed => 2
       case Failing => 1
       case Rejected => 1)
  }

  /**
   Locks are taken in the order `sending`, then `mu`: the holder of `sending`
   can always step, because whoever holds `mu` holds `sending` as well. So no
   wait is circular, and the holder gets nearer to its release by that step.
   */
  lemma HolderCanStep(run: seq<Action>, s: Client) returns (a: Action)
    requires Reaches(Init, run, s) && s.sending != Free
    ensures Enabled(s, a) && OfHolder(s, a)
    ensures StepsLeft(Apply(s, a)) < StepsLeft(s)
  {
    RunKeepsInv(Init, run, s);
    if s.sending == Recv {
      a := TerminatorCanStep(s);
    } else {
      a := SenderCanStep(s);
    }
  }

  lemma TerminatorCanStep(s: Client) returns (a: Action)
    requires SharedOk(s) && s.sending == Recv
    ensures Enabled(s, a) && OfHolder(s, a)
    ensures StepsLeft(Apply(s, a)) < StepsLeft(s)
  {
    if s.recv.TermLocked? {
      a := TermShutdown;
      assert |s.pending.Keys| == |s.pending|;
    } else if s.recv.todo == {} {
      a := TermUnlock;
    } else {
      var q :| q in s.recv.todo;
      a := TermComplete(q);
    }
  }

  lemma SenderCanStep(s: Client) returns (a: Action)
    requires RecvOk(s) && SendingOk(s) && s.sending.Sender?
    ensures Enabled(s, a) && OfHolder(s, a)
    ensures StepsLeft(Apply(s, a)) < StepsLeft(s)
  {
    var c := s.sending.c;
    match s.sending.stage
    case Locked => a := Register(c);
    case Rejected => a := Reject(c);
    case Registered => a := SetHeader(c);
    case HeaderSet => a := Write(c, true);
    case WriteFailed => a := TakeBack(c);
    case Failing => a := FailDone(c);
  }

  /** No step of another goroutine takes `sending` from its holder or puts its release further off. */
  lemma OthersDoNotDelayHolder(run: seq<Action>, s: Client, a: Action)
    requires Reaches(Init, run, s) && s.sending != Free && Enabled(s, a) && !OfHolder(s, a)
    ensures Apply(s, a).sending == s.sending && StepsLeft(Apply(s, a)) <= StepsLeft(s)
  {
    RunKeepsInv(Init, run, s);
    if s.sending == Recv { OthersLeaveTerminator(s, a); } else { OthersLeaveSender(s, a); }
  }

  lemma OthersLeaveSender(s: Client, a: Action)
    requires SharedOk(s) && s.sending.Sender? && Enabled(s, a) && !OfHolder(s, a)
    ensures Apply(s, a).sending == s.sending
  {
  }

  lemma OthersLeaveTerminator(s: Client, a: Action)
    requires SharedOk(s) && s.sending == Recv && Enabled(s, a) && !OfHolder(s, a)
    ensures Apply(s, a).sending == s.sending && StepsLeft(Apply(s, a)) <= StepsLeft(s)
  {
    if a.Timeout? { RemovalShrinks(s.pending, s.calls[a.c].seqno); }
  }

  lemma RemovalShrinks(m: map<nat, CallId>, q: nat)
    ensures |m - {q}| <= |m|
  {
    var m' := m - {q};
    assert m'.Keys == m.Keys - {q};
    assert |m'.Keys| == |m'| && |m.Keys| == |m|;
    if q in m { assert |m.Keys - {q}| == |m.Keys| - 1; } else { assert m.Keys - {q} == m.Keys; }
  }

  /** And `mu` is kept across steps only inside terminateCalls, which also holds `sending`. */
  lemma MuImpliesSending(run: seq<Action>, s: Client)
    requires Reaches(Init, run, s) && !s.MuFree()
    ensures s.sending == Recv && s.shutdown
  {
    RunKeepsInv(Init, run, s);
  }

  /** The only step after which nobody owns a call that was never completed is that call's own timeout. */
  lemma OnlyItsTimeoutDropsACall(run: seq<Action>, s: Client, a: Action, c: CallId)
    requires Reaches(Init, run, s) && Enabled(s, a)
    requires c in s.calls && Owners(s, c) == 1
    requires c in Apply(s, a).calls && Owners(Apply(s, a), c) == 0
    ensures a == Timeout(c) && Live(s, s.calls[c].seqno)
  {
    RunKeepsInv(Init, run, s);
    assert CallOk(s, c);
    if OfUser(a) {
      UserDropsOnlyItsOwn(s, a, c);
    } else if OfSend(a) {
      SendNeverDrops(s, a, c);
    } else {
      ReceiverNeverDrops(s, a, c);
    }
  }

  lemma UserDropsOnlyItsOwn(s: Client, a: Action, c: CallId)
    requires SharedOk(s) && Enabled(s, a) && OfUser(a) && c in s.calls && CallOk(s, c)
    requires a.Timeout? ==> CallOk(s, a.c)
    ensures Owners(Apply(s, a), c) >= Owners(s, c) || (a == Timeout(c) && Live(s, s.calls[c].seqno))
  {
  }

  lemma SendNeverDrops(s: Client, a: Action, c: CallId)
    requires SharedOk(s) && Enabled(s, a) && OfSend(a) && c in s.calls && CallOk(s, c) && CallOk(s, a.c)
    ensures Owners(Apply(s, a), c) >= Owners(s, c)
  {
  }

  lemma ReceiverNeverDrops(s: Client, a: Action, c: CallId)
    requires SharedOk(s) && Enabled(s, a) && !OfSend(a) && !OfUser(a) && c in s.calls && CallOk(s, c)
    ensures Owners(Apply(s, a), c) >= Owners(s, c)
  {
  }

  /** The source's registerCall never hands out 0, so a timed-out unregistered call removes nothing. */
  lemma UnregisteredTimeoutRemovesNothing(run: seq<Action>, s: Client, c: CallId)
    requires Reaches(Init, run, s) && Enabled(s, Timeout(c)) && s.calls[c].seqno == 0
    ensures Apply(s, Timeout(c)).pending == s.pending
  {
    RunKeepsInv(Init, run, s);
  }
}
