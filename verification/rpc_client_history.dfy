/**
 How the state of a GeeRPC client follows from what has happened to it: which
 event ended each call and with what, and what closing and timeouts rule out.
 */
module RpcClientHistory {
  import opened Wrappers
  import opened RpcTypes
  import opened RpcClient

  /** A header with this number and error text was read. */
  ghost predicate HeaderRead(past: seq<Action>, q: nat, text: string) {
    exists h: Header :: ReadHeader(h) in past && h.seqno == q && h.error == text
  }

  /** The connection could not be read any more. */
  predicate Broke(past: seq<Action>) { HeaderFails in past || ReadBody(None) in past }

  /** How a call ended, by what happened: every error has its own cause, and a reply a header of the number. */
  ghost predicate EndExplained(past: seq<Action>, c: CallId, r: CallRec) {
    (r.seqno == 0 <==> r.error == Some(ErrShutdown)) &&
    match r.error
    case None => r.reply.Some? && HeaderRead(past, r.seqno, "") && ReadBody(r.reply) in past
    case Some(Remote(text)) => text != "" && HeaderRead(past, r.seqno, text)
    case Some(BodyError) => HeaderRead(past, r.seqno, "") && ReadBody(None) in past
    case Some(WriteError) => Write(c, false) in past
    case Some(ErrShutdown) => Reject(c) in past
    case Some(ConnectionError) => Broke(past)
  }

  ghost predicate CallExplained(past: seq<Action>, s: Client, c: CallId)
    requires c in s.calls
  {
    var r := s.calls[c];
    && Issue(c, r.target, r.args) in past
    && (r.done == 0 ==> r.error == None && r.reply == None)
    && (r.done > 0 ==> EndExplained(past, c, r))
  }

  /** What the receive loop holds was read, and it stops only for a broken connection. */
  ghost predicate RecvExplained(past: seq<Action>, s: Client) {
    match s.recv
    case GotHeader(h) => ReadHeader(h) in past
    case Holding(h, call) =>
      ReadHeader(h) in past && (call.Some? ==> call.value in s.calls && s.calls[call.value].seqno == h.seqno)
    case Erring(err) => err == ConnectionError && Broke(past)
    case TermLocked(err) => err == ConnectionError && Broke(past)
    case Terminating(err, _) => err == ConnectionError && Broke(past)
    case _ => true
  }

  lemma HeaderStaysRead(past: seq<Action>, a: Action, q: nat, text: string)
    requires HeaderRead(past, q, text)
    ensures HeaderRead(past + [a], q, text)
  {
    var h: Header :| ReadHeader(h) in past && h.seqno == q && h.error == text;
    assert ReadHeader(h) in past + [a];
  }

  lemma EndStaysExplained(past: seq<Action>, a: Action, c: CallId, r: CallRec)
    requires EndExplained(past, c, r)
    ensures EndExplained(past + [a], c, r)
  {
    match r.error
    case None => HeaderStaysRead(past, a, r.seqno, "");
    case Some(Remote(text)) => HeaderStaysRead(past, a, r.seqno, text);
    case Some(BodyError) => HeaderStaysRead(past, a, r.seqno, "");
    case _ =>
  }

  lemma StepExplainsRecv(past: seq<Action>, s: Client, a: Action)
    requires RecvExplained(past, s) && SharedOk(s) && Enabled(s, a)
    requires a.Register? ==> CallOk(s, a.c)
    ensures RecvExplained(past + [a], Apply(s, a))
  {
    if OfSend(a) || OfUser(a) { OthersExplainRecv(past, s, a); } else { ReceiverExplainsRecv(past, s, a); }
  }

  lemma OthersExplainRecv(past: seq<Action>, s: Client, a: Action)
    requires RecvExplained(past, s) && SendingOk(s) && Enabled(s, a) && (OfSend(a) || OfUser(a))
    requires a.Register? ==> CallOk(s, a.c)
    requires s.recv.Holding? && s.recv.call.Some? ==> s.recv.h.seqno != 0
    ensures RecvExplained(past + [a], Apply(s, a))
  {
  }

  lemma ReceiverExplainsRecv(past: seq<Action>, s: Client, a: Action)
    requires RecvExplained(past, s) && PendingOk(s) && Enabled(s, a) && !OfSend(a) && !OfUser(a)
    ensures RecvExplained(past + [a], Apply(s, a))
  {
  }

  /** A step that leaves a call as it was, but for how far its own goroutine is. */
  predicate Untouched(r: CallRec, r': CallRec) {
    r'.target == r.target && r'.args == r.args && r'.done == r.done && r'.error == r.error && r'.reply == r.reply &&
    (r.done > 0 ==> r'.seqno == r.seqno)
  }

  lemma ExplainedIfUntouched(past: seq<Action>, s: Client, a: Action, c: CallId)
    requires Enabled(s, a) && c in s.calls && c in Apply(s, a).calls && CallExplained(past, s, c)
    requires Untouched(s.calls[c], Apply(s, a).calls[c])
    ensures CallExplained(past + [a], Apply(s, a), c)
  {
    var r, r' := s.calls[c], Apply(s, a).calls[c];
    if r.done > 0 { EndStaysExplained(past, a, c, r); }
  }

  /** The call that a step completes, if it does. */
  predicate CompletesCall(s: Client, a: Action, c: CallId)
    requires Enabled(s, a)
  {
    || (a.Reject? && a.c == c)
    || (a.FailDone? && a.c == c)
    || (a.ReadBody? && s.recv.call == Some(c))
    || (a.TermComplete? && s.pending[a.q] == c)
  }

  lemma SendLeavesCall(s: Client, a: Action, c: CallId)
    requires SharedOk(s) && Enabled(s, a) && OfSend(a) && c in s.calls && !CompletesCall(s, a, c) && CallOk(s, c)
    ensures c in Apply(s, a).calls && Untouched(s.calls[c], Apply(s, a).calls[c])
  {
    if a.Register? { RegisterLeavesCall(s, a.c, c); } else { SendStepLeavesCall(s, a, c); }
  }

  lemma RegisterLeavesCall(s: Client, d: CallId, c: CallId)
    requires SendingOk(s) && Enabled(s, Register(d)) && c in s.calls && CallOk(s, c)
    ensures c in Apply(s, Register(d)).calls && Untouched(s.calls[c], Apply(s, Register(d)).calls[c])
  {
  }

  lemma SendStepLeavesCall(s: Client, a: Action, c: CallId)
    requires Enabled(s, a) && OfSend(a) && !a.Register? && c in s.calls && !CompletesCall(s, a, c)
    ensures c in Apply(s, a).calls && Untouched(s.calls[c], Apply(s, a).calls[c])
  {
    if c == a.c { SendStepLeavesOwnCall(s, a); } else { SendStepLeavesOtherCall(s, a, c); }
  }

  lemma SendStepLeavesOwnCall(s: Client, a: Action)
    requires Enabled(s, a) && OfSend(a) && !a.Register? && a.c in s.calls && !CompletesCall(s, a, a.c)
    ensures a.c in Apply(s, a).calls && Untouched(s.calls[a.c], Apply(s, a).calls[a.c])
  {
  }

  lemma SendStepLeavesOtherCall(s: Client, a: Action, c: CallId)
    requires Enabled(s, a) && OfSend(a) && !a.Register? && c in s.calls && c != a.c
    ensures c in Apply(s, a).calls && Apply(s, a).calls[c] == s.calls[c]
  {
  }

  lemma OthersLeaveCall(s: Client, a: Action, c: CallId)
    requires Enabled(s, a) && !OfSend(a) && c in s.calls && !CompletesCall(s, a, c)
    ensures c in Apply(s, a).calls && Untouched(s.calls[c], Apply(s, a).calls[c])
  {
  }

  lemma SendExplainsEnd(past: seq<Action>, s: Client, a: Action, c: CallId)
    requires SharedOk(s) && Enabled(s, a) && OfSend(a) && c in s.calls && CompletesCall(s, a, c)
    requires CallExplained(past, s, c) && (a.FailDone? ==> Write(c, false) in past)
    ensures CallExplained(past + [a], Apply(s, a), c)
  {
  }

  lemma ReceiverExplainsEnd(past: seq<Action>, s: Client, a: Action, c: CallId)
    requires SharedOk(s) && Enabled(s, a) && !OfSend(a) && c in s.calls && CompletesCall(s, a, c)
    requires CallExplained(past, s, c) && RecvExplained(past, s) && CallOk(s, c) && s.calls[c].done == 0
    ensures CallExplained(past + [a], Apply(s, a), c)
  {
    if a.ReadBody? {
      var h := s.recv.h;
      assert ReadHeader(h) in past + [a];
      assert HeaderRead(past + [a], h.seqno, h.error);
    }
  }

  /** A sender that has failed to write has tried to. */
  predicate SendExplained(past: seq<Action>, s: Client) {
    s.sending.Sender? && (s.sending.stage.WriteFailed? || s.sending.stage.Failing?) ==>
      Write(s.sending.c, false) in past
  }

  lemma StepExplainsSend(past: seq<Action>, s: Client, a: Action)
    requires SendExplained(past, s) && Enabled(s, a)
    ensures SendExplained(past + [a], Apply(s, a))
  {
  }

  ghost predicate Explained(past: seq<Action>, s: Client) {
    RecvExplained(past, s) && SendExplained(past, s) && forall c :: c in s.calls ==> CallExplained(past, s, c)
  }

  lemma CompletedFirstTime(s: Client, a: Action, c: CallId)
    requires Inv(s) && Enabled(s, a) && c in s.calls && CompletesCall(s, a, c)
    ensures s.calls[c].done == 0
  {
    assert CallOk(s, c);
  }

  lemma StepExplainsCall(past: seq<Action>, s: Client, a: Action, c: CallId)
    requires Inv(s) && Explained(past, s) && Enabled(s, a) && c in Apply(s, a).calls
    ensures CallExplained(past + [a], Apply(s, a), c)
  {
    if c in s.calls {
      assert CallOk(s, c) && CallExplained(past, s, c);
      if !CompletesCall(s, a, c) {
        if OfSend(a) { SendLeavesCall(s, a, c); } else { OthersLeaveCall(s, a, c); }
        ExplainedIfUntouched(past, s, a, c);
      } else if OfSend(a) {
        SendExplainsEnd(past, s, a, c);
      } else {
        CompletedFirstTime(s, a, c);
        ReceiverExplainsEnd(past, s, a, c);
      }
    }
  }

  lemma {:induction false} RunIsExplained(past: seq<Action>, s: Client, run: seq<Action>, s': Client)
    requires Inv(s) && Explained(past, s) && Reaches(s, run, s')
    ensures Explained(past + run, s')
    decreases |run|
  {
    if run == [] {
      assert past + [] == past;
    } else {
      var a, mid := run[0], Apply(s, run[0]);
      assert a.Register? ==> CallOk(s, a.c);
      StepExplainsRecv(past, s, a);
      StepExplainsSend(past, s, a);
      forall c | c in mid.calls ensures CallExplained(past + [a], mid, c) { StepExplainsCall(past, s, a, c); }
      StepKeepsInv(s, a);
      RunIsExplained(past + [a], mid, run[1..], s');
      assert past + [a] + run[1..] == past + run;
    }
  }

  /**
   In every run, a call is for the method and arguments it was issued with,
   and if it has ended, its end has the one cause there is for it: a server's
   error text only if a header of its number carried it, and so on.
   */
  lemma EveryEndHasItsCause(run: seq<Action>, s: Client, c: CallId)
    requires Reaches(Init, run, s) && c in s.calls
    ensures Issue(c, s.calls[c].target, s.calls[c].args) in run
    ensures s.calls[c].done > 0 ==> EndExplained(run, c, s.calls[c])
    ensures s.calls[c].done == 0 ==> s.calls[c].error == None && s.calls[c].reply == None
  {
    RunIsExplained([], Init, run, s);
    assert [] + run == run;
    assert CallExplained(run, s, c);
  }

  // ---------------------------------------------------------------- Close

  lemma ClosedStepRegistersNothing(s: Client, a: Action)
    requires s.closing && Enabled(s, a)
    ensures Apply(s, a).closing && Apply(s, a).registered == s.registered && Apply(s, a).pending.Keys <= s.pending.Keys
  {
  }

  lemma {:induction false} ClosedRunRegistersNothing(s: Client, run: seq<Action>, s': Client)
    requires s.closing && Reaches(s, run, s')
    ensures s'.closing && s'.registered == s.registered && s'.pending.Keys <= s.pending.Keys
    decreases |run|
  {
    if run != [] {
      ClosedStepRegistersNothing(s, run[0]);
      ClosedRunRegistersNothing(Apply(s, run[0]), run[1..], s');
    }
  }

  /** After Close no call gets a number any more: whatever is issued later can end with ErrShutdown only. */
  lemma NothingRegisteredAfterClose(before: seq<Action>, s: Client, run: seq<Action>, s': Client, c: CallId)
    requires Reaches(Init, before, s) && Enabled(s, Close) && Reaches(Apply(s, Close), run, s')
    ensures s'.registered == s.registered
    ensures c in s'.calls && c !in s.calls ==>
      s'.calls[c].seqno == 0 && (s'.calls[c].done > 0 ==> s'.calls[c].error == Some(ErrShutdown))
  {
    var closed := Apply(s, Close);
    RunExtends(Init, before, s, Close);
    ClosedRunRegistersNothing(closed, run, s');
    RunsJoin(Init, before + [Close], closed, run, s');
    RunKeepsInv(Init, before, s);
    RunKeepsInv(closed, run, s') by { RunKeepsInv(Init, before + [Close], closed); }
    if c in s'.calls && c !in s.calls {
      assert CallOk(s', c);
      EveryEndHasItsCause(before + [Close] + run, s', c);
    }
  }

  lemma {:induction false} RunsJoin(s: Client, run: seq<Action>, s': Client, more: seq<Action>, s'': Client)
    requires Reaches(s, run, s') && Reaches(s', more, s'')
    ensures Reaches(s, run + more, s'')
    decreases |run|
  {
    if run == [] {
      assert run + more == more;
    } else {
      RunsJoin(Apply(s, run[0]), run[1..], s', more, s'');
      assert (run + more)[1..] == run[1..] + more;
    }
  }

  // ---------------------------------------------------------------- timeouts

  /** A call whose Call has given up is not pending. */
  ghost predicate GivenUp(s: Client) {
    forall c :: c in s.calls && s.calls[c].phase.Cancelled? ==> s.calls[c].seqno !in s.pending
  }

  lemma StepKeepsGivenUp(s: Client, a: Action, c: CallId)
    requires SharedOk(s) && Enabled(s, a) && c in Apply(s, a).calls && Apply(s, a).calls[c].phase.Cancelled?
    requires c in s.calls && s.calls[c].phase.Cancelled? ==> s.calls[c].seqno !in s.pending
    requires c in s.calls ==> CallOk(s, c)
    ensures Apply(s, a).calls[c].seqno !in Apply(s, a).pending
  {
    if a.Register? { RegisterKeepsGivenUp(s, a.c, c); } else if OfSend(a) { SendKeepsGivenUp(s, a, c); }
  }

  lemma RegisterKeepsGivenUp(s: Client, d: CallId, c: CallId)
    requires SharedOk(s) && Enabled(s, Register(d)) && c in s.calls && s.calls[c].phase.Cancelled?
    requires s.calls[c].seqno !in s.pending && CallOk(s, c)
    ensures Apply(s, Register(d)).calls[c].seqno !in Apply(s, Register(d)).pending
  {
  }

  lemma SendKeepsGivenUp(s: Client, a: Action, c: CallId)
    requires SendingOk(s) && Enabled(s, a) && OfSend(a) && !a.Register?
    requires c in s.calls && Apply(s, a).calls[c].phase.Cancelled?
    requires s.calls[c].phase.Cancelled? ==> s.calls[c].seqno !in s.pending
    requires CallOk(s, c)
    ensures Apply(s, a).calls[c].seqno !in Apply(s, a).pending
  {
  }

  lemma {:induction false} RunKeepsGivenUp(s: Client, run: seq<Action>, s': Client)
    requires Inv(s) && GivenUp(s) && Reaches(s, run, s')
    ensures GivenUp(s')
    decreases |run|
  {
    if run != [] {
      var mid := Apply(s, run[0]);
      forall c | c in mid.calls && mid.calls[c].phase.Cancelled? ensures mid.calls[c].seqno !in mid.pending {
        assert c in s.calls ==> CallOk(s, c);
        StepKeepsGivenUp(s, run[0], c);
      }
      StepKeepsInv(s, run[0]);
      RunKeepsGivenUp(mid, run[1..], s');
    }
  }

  /** Once a Call has timed out its call is pending under no number, in any later state. */
  lemma TimedOutIsNotPending(run: seq<Action>, s: Client, c: CallId, q: nat)
    requires Reaches(Init, run, s) && c in s.calls && s.calls[c].phase.Cancelled? && q in s.pending
    ensures s.pending[q] != c
  {
    RunKeepsInv(Init, run, s);
    RunKeepsGivenUp(Init, run, s);
    assert s.registered[q] == s.pending[q];
  }

  lemma StepKeepsCancelled(s: Client, a: Action, c: CallId)
    requires SendingOk(s) && Enabled(s, a) && c in s.calls && s.calls[c].phase.Cancelled?
    ensures c in Apply(s, a).calls && Apply(s, a).calls[c].phase.Cancelled?
  {
  }

  lemma {:induction false} CancelledForGood(s: Client, c: CallId, run: seq<Action>, s': Client)
    requires Inv(s) && c in s.calls && s.calls[c].phase.Cancelled? && Reaches(s, run, s')
    ensures c in s'.calls && s'.calls[c].phase.Cancelled?
    decreases |run|
  {
    if run != [] {
      StepKeepsCancelled(s, run[0], c);
      StepKeepsInv(s, run[0]);
      CancelledForGood(Apply(s, run[0]), c, run[1..], s');
    }
  }

  /** From its timeout on, however a run goes on, a call is pending under no number. */
  lemma TimeoutTakesItsCallAway(before: seq<Action>, s: Client, c: CallId, run: seq<Action>, s': Client, q: nat)
    requires Reaches(Init, before, s) && Enabled(s, Timeout(c)) && Reaches(Apply(s, Timeout(c)), run, s')
    requires q in s'.pending
    ensures s'.pending[q] != c
  {
    RunKeepsInv(Init, before, s);
    StepKeepsInv(s, Timeout(c));
    CancelledForGood(Apply(s, Timeout(c)), c, run, s');
    RunExtends(Init, before, s, Timeout(c));
    RunsJoin(Init, before + [Timeout(c)], Apply(s, Timeout(c)), run, s');
    TimedOutIsNotPending(before + [Timeout(c)] + run, s', c, q);
  }
}
