/**
 The Client struct of GeeRPC with the methods that update it, each proved to
 be a run of the protocol in RpcClient when no other goroutine interferes.
 `Call` objects live in `calls`, by id.
 */
module RpcClientObject {
  import opened Wrappers
  import opened RpcTypes
  import opened RpcClient

  /** What the codec hands to the receive loop in one turn: a header, then a body it may fail to decode. */
  datatype Inbound = Inbound(h: Header, body: Option<Value>)

  /** `r'` is the call `r` completed once more by the answer `m`, as each branch of the switch in `receive` does it. */
  predicate Answered(r: CallRec, m: Inbound, r': CallRec) {
    && r'.done == r.done + 1
    && r'.target == r.target && r'.args == r.args && r'.seqno == r.seqno && r'.phase == r.phase
    && (m.h.error != "" ==> r'.error == Some(Remote(m.h.error)) && r'.reply == r.reply)
    && (m.h.error == "" && m.body.None? ==> r'.error == Some(BodyError) && r'.reply == r.reply)
    && (m.h.error == "" && m.body.Some? ==> r'.error == r.error && r'.reply == m.body)
  }

  class ClientObject {
    var calls: map<CallId, CallRec>
    var seqno: nat
    var pending: map<nat, CallId>
    var header: Header
    var closing: bool
    var shutdown: bool
    ghost var registered: map<nat, CallId>
    ghost var sending: Holder
    ghost var recv: Receiver

    /** The protocol state this object is in. */
    ghost function View(): Client
      reads this
    {
      Client(calls, seqno, pending, registered, header, closing, shutdown, sending, recv)
    }

    constructor ()
      ensures View() == Init
    {
      calls, seqno, pending, header := map[], 1, map[], Header("", 0, "");
      closing, shutdown := false, false;
      registered, sending, recv := map[], Free, Reading;
    }

    method IsAvailable() returns (ok: bool)
      ensures ok <==> !View().shutdown && !View().closing
    {
      ok := !shutdown && !closing;
    }

    /** Returns ErrShutdown on a second Close, and changes nothing then. */
    method CloseConnection() returns (err: Option<Error>)
      requires Enabled(View(), Close)
      modifies this
      ensures View() == Apply(old(View()), Close)
      ensures err == if old(closing) then Some(ErrShutdown) else None
    {
      if closing { return Some(ErrShutdown); }
      closing := true;
      return None;
    }

    method RegisterCall(c: CallId) returns (q: nat, err: Option<Error>)
      requires Enabled(View(), Register(c))
      modifies this
      ensures View() == Apply(old(View()), Register(c))
      ensures err == if old(closing || shutdown) then Some(ErrShutdown) else None
      ensures err.None? ==> q == calls[c].seqno && q in pending && pending[q] == c
    {
      if closing || shutdown {
        sending := Sender(c, Rejected);
        return 0, Some(ErrShutdown);
      }
      q := seqno;
      calls := calls[c := calls[c].(seqno := q)];
      pending, registered := pending[q := c], registered[q := c];
      seqno := seqno + 1;
      sending := Sender(c, Registered);
      err := None;
    }

    method RemoveCallBySeq(q: nat) returns (call: Option<CallId>)
      modifies this`pending
      ensures call == if q in old(pending) then Some(old(pending)[q]) else None
      ensures pending == old(pending) - {q}
    {
      call := if q in pending then Some(pending[q]) else None;
      pending := pending - {q};
    }

    /** call.Error = err; call.done() */
    method Fail(c: CallId, err: Error)
      requires c in calls
      modifies this`calls
      ensures calls == old(calls)[c := FailCall(old(calls)[c], err)]
    {
      calls := calls[c := calls[c].(error := Some(err), done := calls[c].done + 1)];
    }

    /** The end of `send` for a call that could not be registered, or that was taken back. */
    method FailAndReturn(c: CallId, err: Error)
      requires c in calls
      modifies this
      ensures View() == old(View()).Put(c, FailCall(old(calls)[c], err).(phase := Sent)).(sending := Free)
    {
      Fail(c, err);
      calls := calls[c := calls[c].(phase := Sent)];
      sending := Free;
    }

    method FillHeader(c: CallId, q: nat)
      requires Enabled(View(), SetHeader(c)) && q == calls[c].seqno
      modifies this
      ensures View() == Apply(old(View()), SetHeader(c))
    {
      header := header.(target := calls[c].target);
      header := header.(seqno := q);
      header := header.(error := "");
      sending := Sender(c, HeaderSet);
    }

    /** The codec's Write; `ok` is what it returned. */
    method WriteRequest(c: CallId, ok: bool)
      requires Enabled(View(), Write(c, ok))
      modifies this
      ensures View() == Apply(old(View()), Write(c, ok))
    {
      if ok {
        calls := calls[c := calls[c].(phase := Sent)];
        sending := Free;
      } else {
        sending := Sender(c, WriteFailed);
      }
    }

    /** After a failed Write. */
    method TakeBackCall(c: CallId, q: nat) returns (call: Option<CallId>)
      requires Enabled(View(), TakeBack(c)) && q == calls[c].seqno
      modifies this
      ensures View() == Apply(old(View()), TakeBack(c))
      ensures call == if q in old(pending) then Some(old(pending)[q]) else None
    {
      call := RemoveCallBySeq(q);
      if call.Some? {
        sending := Sender(c, Failing);
      } else {
        calls := calls[c := calls[c].(phase := Sent)];
        sending := Free;
      }
    }

    /**
     `send`. Its call is completed with ErrShutdown if the client was closed,
     with the codec's error if the write failed, and is pending otherwise.
     */
    method Send(c: CallId, writeOk: bool) returns (ghost run: seq<Action>)
      requires Enabled(View(), LockSending(c)) && View().MuFree() && seqno !in pending
      modifies this
      ensures Reaches(old(View()), run, View())
      ensures sending == Free && c in calls && calls[c].phase.Sent?
      ensures calls[c].error ==
        if old(closing || shutdown) then Some(ErrShutdown)
        else if writeOk then old(calls[c].error) else Some(WriteError)
      ensures pending == if old(closing || shutdown) || !writeOk then old(pending) else old(pending)[old(seqno) := c]
      ensures forall d :: d in old(calls) && d != c ==> d in calls && calls[d] == old(calls)[d]
    {
      ghost var start := View();
      sending := Sender(c, Locked);
      run := Step(start, [], start, LockSending(c), View());
      ghost var s := View();
      var q, err := RegisterCall(c);
      run := Step(start, run, s, Register(c), View());
      s := View();
      if err.Some? {
        FailAndReturn(c, err.value);
        run := Step(start, run, s, Reject(c), View());
        return;
      }
      run := Transmit(c, q, writeOk, start, run);
    }

    /** The part of `send` after a registration. */
    method Transmit(c: CallId, q: nat, writeOk: bool, ghost start: Client, ghost before: seq<Action>)
      returns (ghost run: seq<Action>)
      requires Enabled(View(), SetHeader(c)) && q == calls[c].seqno && View().MuFree()
      requires q in pending && pending[q] == c && Reaches(start, before, View())
      modifies this
      ensures Reaches(start, run, View())
      ensures sending == Free && pending == if writeOk then old(pending) else old(pending) - {q}
      ensures calls == old(calls)[c :=
        (if writeOk then old(calls)[c] else FailCall(old(calls)[c], WriteError)).(phase := Sent)]
    {
      ghost var s := View();
      FillHeader(c, q);
      run := Step(start, before, s, SetHeader(c), View());
      s := View();
      WriteRequest(c, writeOk);
      run := Step(start, run, s, Write(c, writeOk), View());
      if !writeOk {
        s := View();
        var call := TakeBackCall(c, q);
        run := Step(start, run, s, TakeBack(c), View());
        s := View();
        FailAndReturn(call.value, WriteError);
        run := Step(start, run, s, FailDone(c), View());
      }
    }

    /** The body of the loop in `terminateCalls`. */
    method CompletePending(q: nat, err: Error, ghost todo: set<nat>, ghost start: Client, ghost before: seq<Action>)
      returns (ghost run: seq<Action>)
      requires q in todo && q in pending && pending[q] in calls && recv == Terminating(err, todo)
      requires Reaches(start, before, View())
      modifies this`calls, this`recv
      ensures Reaches(start, run, View())
      ensures calls == old(calls)[pending[q] := FailCall(old(calls)[pending[q]], err)]
      ensures View() == old(View()).(calls := calls, recv := Terminating(err, todo - {q}))
    {
      ghost var s := View();
      Fail(pending[q], err);
      recv := Terminating(err, todo - {q});
      run := Step(start, before, s, TermComplete(q), View());
    }

    /** The loop of `terminateCalls`. */
    method CompletePendingCalls(err: Error, ghost was: Client, ghost start: Client, ghost before: seq<Action>)
      returns (ghost run: seq<Action>)
      requires Reaches(start, before, View()) && recv == Terminating(err, pending.Keys)
      requires PendingOk(was) && pending == was.pending && calls == was.calls
      modifies this`calls, this`recv
      ensures Reaches(start, run, View())
      ensures View() == old(View()).(calls := calls, recv := Terminating(err, {}))
      ensures CompletedBut(was, calls, err, {})
    {
      ghost var entry := View();
      run := before;
      var todo := pending.Keys;
      while todo != {}
        invariant Reaches(start, run, View())
        invariant View() == entry.(calls := calls, recv := Terminating(err, todo))
        invariant todo <= pending.Keys
        invariant CompletedBut(was, calls, err, todo)
      {
        var q :| q in todo;
        CompletedOneMore(was, calls, err, todo, q);
        run := CompletePending(q, err, todo, start, run);
        todo := todo - {q};
      }
    }

    /** `terminateCalls` takes both locks and marks the client as shut down. */
    method BeginTermination(err: Error) returns (ghost run: seq<Action>)
      requires recv == Erring(err) && sending == Free
      modifies this
      ensures Reaches(old(View()), run, View())
      ensures View() == old(View()).(shutdown := true, sending := Recv, recv := Terminating(err, pending.Keys))
    {
      ghost var start := View();
      sending, recv := Recv, TermLocked(err);
      run := Step(start, [], start, TermLock, View());
      ghost var s := View();
      shutdown, recv := true, Terminating(err, pending.Keys);
      run := Step(start, run, s, TermShutdown, View());
    }

    /** `terminateCalls`: every pending call gets `err` and is completed; `pending` itself is left as it was. */
    method TerminateCalls(err: Error, ghost start: Client, ghost before: seq<Action>)
      returns (ghost run: seq<Action>)
      requires Reaches(start, before, View())
      requires PendingOk(View()) && recv == Erring(err) && sending == Free
      modifies this
      ensures Reaches(start, run, View())
      ensures recv.Finished? && shutdown && sending == Free && pending == old(pending)
      ensures CompletedBut(old(View()), calls, err, {})
    {
      ghost var entry := View();
      ghost var lead := BeginTermination(err);
      RunsCompose(start, before, entry, lead, View());
      run := CompletePendingCalls(err, entry, start, before + lead);
      ghost var s := View();
      recv, sending := Finished, Free;
      run := Step(start, run, s, TermUnlock, View());
    }

    /** One turn of the loop in `receive`: the call that the header names, if it is still pending, is completed. */
    method ReceiveOne(m: Inbound) returns (ok: bool, ghost run: seq<Action>)
      requires PendingOk(View()) && recv.Reading?
      modifies this`calls, this`recv, this`pending
      ensures Reaches(old(View()), run, View())
      ensures ok == m.body.Some? && recv == if ok then Reading else Erring(ConnectionError)
      ensures pending == old(pending) - {m.h.seqno}
      ensures calls ==
        if m.h.seqno !in old(pending) then old(calls)
        else var c := old(pending)[m.h.seqno]; old(calls)[c := Delivered(old(calls)[c], m.h, m.body)]
      ensures m.h.seqno in old(pending) ==>
        var c := old(pending)[m.h.seqno];
        c in old(calls) && c in calls && Answered(old(calls)[c], m, calls[c])
    {
      ghost var start := View();
      var call;
      call, run := TakeAnswered(m.h);
      ghost var s := View();
      assert call.Some? ==> registered[m.h.seqno] == call.value;
      ok := Deliver(call, m);
      run := Step(start, run, s, ReadBody(m.body), View());
    }

    /** A header was read: its call is taken from `pending`. */
    method TakeAnswered(h: Header) returns (call: Option<CallId>, ghost run: seq<Action>)
      requires recv.Reading?
      modifies this`recv, this`pending
      ensures Reaches(old(View()), run, View())
      ensures recv == Holding(h, call) && pending == old(pending) - {h.seqno}
      ensures call == if h.seqno in old(pending) then Some(old(pending)[h.seqno]) else None
    {
      ghost var start := View();
      recv := GotHeader(h);
      run := Step(start, [], start, ReadHeader(h), View());
      ghost var s := View();
      call := RemoveCallBySeq(h.seqno);
      recv := Holding(h, call);
      run := Step(start, run, s, RemoveCall, View());
    }

    /** The switch in `receive`, once the call was taken from `pending`. */
    method Deliver(call: Option<CallId>, m: Inbound) returns (ok: bool)
      requires recv == Holding(m.h, call) && Enabled(View(), ReadBody(m.body))
      modifies this`calls, this`recv
      ensures View() == Apply(old(View()), ReadBody(m.body)) && ok == m.body.Some?
    {
      ok := m.body.Some?;
      if call.Some? {
        var c := call.value;
        if m.h.error != "" {
          Fail(c, Remote(m.h.error));
        } else if m.body.None? {
          Fail(c, BodyError);
        } else {
          calls := calls[c := calls[c].(reply := m.body, done := calls[c].done + 1)];
        }
      }
      recv := if ok then Reading else Erring(ConnectionError);
    }

    /**
     `receive`, when the connection delivers `inbox` and then fails. When it
     is over, every call that its Call still waits for was completed, once.
     */
    method Receive(inbox: seq<Inbound>) returns (ghost run: seq<Action>)
      requires Inv(View()) && recv.Reading? && sending == Free
      modifies this
      ensures Reaches(old(View()), run, View())
      ensures recv.Finished? && shutdown && Inv(View())
      ensures forall c :: c in calls && calls[c].phase.Sent? ==> calls[c].done == 1
    {
      ghost var start := View();
      run := [];
      var ok, i := true, 0;
      while ok && i < |inbox|
        invariant 0 <= i <= |inbox| && Reaches(start, run, View())
        invariant recv == (if ok then Reading else Erring(ConnectionError)) && sending == Free
      {
        RunKeepsInv(start, run, View());
        ghost var s, turn := View(), [];
        ok, turn := ReceiveOne(inbox[i]);
        RunsCompose(start, run, s, turn, View());
        run := run + turn;
        i := i + 1;
      }
      if ok {
        ghost var s := View();
        recv := Erring(ConnectionError);
        run := Step(start, run, s, HeaderFails, View());
      }
      RunKeepsInv(start, run, View());
      run := TerminateCalls(ConnectionError, start, run);
      RunKeepsInv(start, run, View());
      forall c | c in calls && calls[c].phase.Sent? ensures calls[c].done == 1 { SettledOnce(View(), c); }
    }
  }

  lemma SettledOnce(s: Client, c: CallId)
    requires Inv(s) && s.recv.Finished? && s.sending == Free && c in s.calls && s.calls[c].phase.Sent?
    ensures s.calls[c].done == 1
  {
    assert CallOk(s, c);
  }

  lemma {:induction false} RunsCompose(s: Client, run: seq<Action>, s': Client, run': seq<Action>, s'': Client)
    requires Reaches(s, run, s') && Reaches(s', run', s'')
    ensures Reaches(s, run + run', s'')
    decreases |run|
  {
    if run == [] {
      assert run + run' == run';
    } else {
      RunsCompose(Apply(s, run[0]), run[1..], s', run', s'');
      assert (run + run')[1..] == run[1..] + run';
    }
  }

  /** Every call of `s` that is pending under a number outside `todo` failed with `err`; the others are as in `s`. */
  ghost predicate CompletedBut(s: Client, calls: map<CallId, CallRec>, err: Error, todo: set<nat>) {
    calls.Keys == s.calls.Keys &&
    forall c :: c in calls ==>
      var r := s.calls[c];
      calls[c] == if r.seqno in s.pending && s.pending[r.seqno] == c && r.seqno !in todo then FailCall(r, err) else r
  }

  lemma CompletedOneMore(s: Client, calls: map<CallId, CallRec>, err: Error, todo: set<nat>, q: nat)
    requires PendingOk(s) && CompletedBut(s, calls, err, todo) && q in todo && q in s.pending
    ensures s.pending[q] in calls
    ensures CompletedBut(s, calls[s.pending[q] := FailCall(calls[s.pending[q]], err)], err, todo - {q})
  {
    assert s.registered[q] in s.calls;
  }

  /** The run longer by one action. */
  ghost function Step(start: Client, run: seq<Action>, s: Client, a: Action, s': Client): (longer: seq<Action>)
    requires Reaches(start, run, s) && Enabled(s, a) && s' == Apply(s, a)
    ensures longer == run + [a] && Reaches(start, longer, s')
  {
    RunExtends(start, run, s, a);
    run + [a]
  }
}
