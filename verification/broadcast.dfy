/**
 `XClient.Broadcast`: one goroutine per server, a section under `mu` at the end
 of each, and the caller that waits for all of them. Their calls may end in
 any way and in any order; cancelling the context only makes failures likelier.
 `log` is history: the ends of the calls in the order the sections ran.
 */
module Broadcast {
  import opened Wrappers

  type Value = string

  /** How the call to one server ends. */
  datatype Result = Ok(reply: Value) | Failed(error: string)

  datatype Stage = Calling | Ended(result: Result) | Done

  datatype Ending = Ending(server: nat, result: Result)

  /** `reply` is where the caller's reply was assigned, `stores` how many times. */
  datatype State = State(
    stages: seq<Stage>,
    e: Option<string>,
    replyDone: bool,
    reply: Option<Value>,
    stores: nat,
    cancelled: bool,
    log: seq<Ending>,
    returned: bool)

  datatype Action = CallEnds(i: nat, result: Result) | Section(i: nat) | Return

  /** Just after the loop that starts the goroutines; `wantReply` says that the caller passed a reply. */
  function Init(servers: nat, wantReply: bool): State {
    State(seq(servers, _ => Calling), None, !wantReply, None, 0, false, [], false)
  }

  predicate Enabled(s: State, a: Action) {
    match a
    case CallEnds(i, _) => i < |s.stages| && s.stages[i].Calling?
    case Section(i) => i < |s.stages| && s.stages[i].Ended?
    case Return => !s.returned && forall i :: 0 <= i < |s.stages| ==> s.stages[i].Done?
  }

  /** The section under `mu`. */
  function EndSection(s: State, i: nat): State
    requires i < |s.stages| && s.stages[i].Ended?
  {
    var r := s.stages[i].result;
    var first := r.Failed? && s.e.None?;
    var takes := r.Ok? && !s.replyDone;
    s.(stages := s.stages[i := Done],
       e := if first then Some(r.error) else s.e,
       cancelled := s.cancelled || first,
       reply := if takes then Some(r.reply) else s.reply,
       stores := s.stores + if takes then 1 else 0,
       replyDone := s.replyDone || takes,
       log := s.log + [Ending(i, r)])
  }

  function Apply(s: State, a: Action): State
    requires Enabled(s, a)
  {
    match a
    case CallEnds(i, result) => s.(stages := s.stages[i := Ended(result)])
    case Section(i) => EndSection(s, i)
    case Return => s.(returned := true)
  }

  predicate Reaches(s: State, run: seq<Action>, s': State)
    decreases |run|
  {
    if run == [] then s == s'
    else Enabled(s, run[0]) && Reaches(Apply(s, run[0]), run[1..], s')
  }

  /** The first failure of a log. */
  function FirstFailure(log: seq<Ending>): Option<string> {
    if log == [] then None
    else if log[0].result.Failed? then Some(log[0].result.error)
    else FirstFailure(log[1..])
  }

  /** The first success of a log. */
  function FirstSuccess(log: seq<Ending>): Option<Value> {
    if log == [] then None
    else if log[0].result.Ok? then Some(log[0].result.reply)
    else FirstSuccess(log[1..])
  }

  lemma {:induction false} FirstsAfter(log: seq<Ending>, x: Ending)
    ensures FirstFailure(log + [x]) ==
      if FirstFailure(log).Some? then FirstFailure(log) else if x.result.Failed? then Some(x.result.error) else None
    ensures FirstSuccess(log + [x]) ==
      if FirstSuccess(log).Some? then FirstSuccess(log) else if x.result.Ok? then Some(x.result.reply) else None
  {
    if log != [] {
      FirstsAfter(log[1..], x);
      assert (log + [x])[1..] == log[1..] + [x];
    }
  }

  lemma {:induction false} FirstsFound(log: seq<Ending>)
    ensures FirstFailure(log).None? <==> forall k :: 0 <= k < |log| ==> log[k].result.Ok?
    ensures FirstSuccess(log).None? <==> forall k :: 0 <= k < |log| ==> log[k].result.Failed?
  {
    if log != [] { FirstsFound(log[1..]); }
  }

  /** Error and reply are what the log says. */
  ghost predicate ResultOk(wantReply: bool, s: State) {
    && s.e == FirstFailure(s.log)
    && s.cancelled == s.e.Some?
    && s.reply == (if wantReply then FirstSuccess(s.log) else None)
    && s.stores == (if s.reply.Some? then 1 else 0)
    && s.replyDone == (!wantReply || s.reply.Some?)
  }

  /** The log is about goroutines that are done, each once. */
  ghost predicate LogOk(s: State) {
    && (forall k :: 0 <= k < |s.log| ==> s.log[k].server < |s.stages| && s.stages[s.log[k].server].Done?)
    && (forall j, k :: 0 <= j < k < |s.log| ==> s.log[j].server != s.log[k].server)
  }

  ghost predicate Logged(s: State, i: nat) { exists k :: 0 <= k < |s.log| && s.log[k].server == i }

  /** And about all that are done. */
  ghost predicate DoneOk(s: State) {
    forall i :: 0 <= i < |s.stages| && s.stages[i].Done? ==> Logged(s, i)
  }

  ghost predicate Inv(wantReply: bool, s: State) {
    && ResultOk(wantReply, s) && LogOk(s) && DoneOk(s)
    && (s.returned ==> forall i :: 0 <= i < |s.stages| ==> s.stages[i].Done?)
  }

  lemma StepKeepsResult(wantReply: bool, s: State, a: Action)
    requires ResultOk(wantReply, s) && Enabled(s, a)
    ensures ResultOk(wantReply, Apply(s, a))
  {
    if a.Section? { FirstsAfter(s.log, Ending(a.i, s.stages[a.i].result)); }
  }

  lemma StepKeepsLog(s: State, a: Action)
    requires LogOk(s) && Enabled(s, a)
    ensures LogOk(Apply(s, a))
  {
  }

  lemma StepKeepsDone(s: State, a: Action, i: nat)
    requires Enabled(s, a) && i < |s.stages| && (s.stages[i].Done? ==> Logged(s, i))
    requires Apply(s, a).stages[i].Done?
    ensures Logged(Apply(s, a), i)
  {
    var s' := Apply(s, a);
    if a.Section? && i == a.i {
      assert s'.log[|s.log|].server == i;
    } else {
      var k :| 0 <= k < |s.log| && s.log[k].server == i;
      assert s'.log[k].server == i;
    }
  }

  lemma StepKeepsInv(wantReply: bool, s: State, a: Action)
    requires Inv(wantReply, s) && Enabled(s, a)
    ensures Inv(wantReply, Apply(s, a)) && |Apply(s, a).stages| == |s.stages|
  {
    StepKeepsResult(wantReply, s, a);
    StepKeepsLog(s, a);
    var s' := Apply(s, a);
    forall i | 0 <= i < |s'.stages| && s'.stages[i].Done? ensures Logged(s', i) {
      StepKeepsDone(s, a, i);
    }
  }

  lemma {:induction false} RunKeepsInv(wantReply: bool, s: State, run: seq<Action>, s': State)
    requires Inv(wantReply, s) && Reaches(s, run, s')
    ensures Inv(wantReply, s') && |s'.stages| == |s.stages|
    decreases |run|
  {
    if run != [] {
      StepKeepsInv(wantReply, s, run[0]);
      RunKeepsInv(wantReply, Apply(s, run[0]), run[1..], s');
    }
  }

  /** Server `i` took part and its call ended like this. */
  ghost predicate Outcome(s: State, i: nat, result: Result) { Ending(i, result) in s.log }

  /** Broadcast returns only when every server has its one outcome: it does not wait just for the first success. */
  lemma EveryServerHasOneOutcome(servers: nat, wantReply: bool, run: seq<Action>, s: State, i: nat)
    requires Reaches(Init(servers, wantReply), run, s) && s.returned && i < servers
    ensures exists result :: Outcome(s, i, result)
    ensures forall q, r :: Outcome(s, i, q) && Outcome(s, i, r) ==> q == r
  {
    RunKeepsInv(wantReply, Init(servers, wantReply), run, s);
    assert s.stages[i].Done?;
    assert Logged(s, i);
    var k :| 0 <= k < |s.log| && s.log[k].server == i;
    assert Outcome(s, i, s.log[k].result);
  }

  /**
   Broadcast returns nil exactly when every call succeeded, and otherwise the
   error of the failure whose section ran first. A reply that was asked for is
   assigned exactly once, from the success whose section ran first, if there
   is one, and not at all otherwise.
   */
  lemma BroadcastReturns(servers: nat, wantReply: bool, run: seq<Action>, s: State)
    requires Reaches(Init(servers, wantReply), run, s) && s.returned
    ensures s.e == FirstFailure(s.log)
    ensures s.e.None? <==> forall i: nat, r :: i < servers && Outcome(s, i, r) ==> r.Ok?
    ensures s.reply == if wantReply then FirstSuccess(s.log) else None
    ensures s.stores == if wantReply && exists i: nat, r :: Outcome(s, i, r) && r.Ok? then 1 else 0
  {
    RunKeepsInv(wantReply, Init(servers, wantReply), run, s);
    FirstsFound(s.log);
    forall k | 0 <= k < |s.log| ensures Outcome(s, s.log[k].server, s.log[k].result) && s.log[k].server < servers {
      assert s.log[k] in s.log;
    }
  }

  // ---------------------------------------------------------------- history

  /** The goroutines whose sections ran, in the order they ran. */
  function Sections(run: seq<Action>): seq<nat> {
    if run == [] then []
    else Sections(run[..|run| - 1]) + if run[|run| - 1].Section? then [run[|run| - 1].i] else []
  }

  /** The log has the sections in their order, and each result is how that goroutine's call ended. */
  ghost predicate Recorded(past: seq<Action>, s: State) {
    && |s.log| == |Sections(past)|
    && (forall k :: 0 <= k < |s.log| ==>
          s.log[k].server == Sections(past)[k] && CallEnds(s.log[k].server, s.log[k].result) in past)
    && (forall i :: 0 <= i < |s.stages| && s.stages[i].Ended? ==> CallEnds(i, s.stages[i].result) in past)
  }

  lemma StepIsRecorded(past: seq<Action>, s: State, a: Action)
    requires Recorded(past, s) && Enabled(s, a)
    ensures Recorded(past + [a], Apply(s, a))
  {
    assert (past + [a])[..|past|] == past;
    assert forall b :: b in past ==> b in past + [a];
  }

  lemma {:induction false} RunIsRecorded(past: seq<Action>, s: State, run: seq<Action>, s': State)
    requires Recorded(past, s) && Reaches(s, run, s')
    ensures Recorded(past + run, s')
    decreases |run|
  {
    if run == [] {
      assert past + [] == past;
    } else {
      StepIsRecorded(past, s, run[0]);
      RunIsRecorded(past + [run[0]], Apply(s, run[0]), run[1..], s');
      assert past + [run[0]] + run[1..] == past + run;
    }
  }

  /**
   The log that decides error and reply is that of the run: section by section
   as they ran under `mu`, each with what the call to its server ended with.
   */
  lemma LogIsThatOfTheRun(servers: nat, wantReply: bool, run: seq<Action>, s: State, k: nat)
    requires Reaches(Init(servers, wantReply), run, s) && k < |s.log|
    ensures |s.log| == |Sections(run)| && s.log[k].server == Sections(run)[k]
    ensures CallEnds(s.log[k].server, s.log[k].result) in run
  {
    RunIsRecorded([], Init(servers, wantReply), run, s);
    assert [] + run == run;
  }

  /** The context is cancelled exactly once some section has found a failed call. */
  lemma CancelledByTheFirstFailure(servers: nat, wantReply: bool, run: seq<Action>, s: State)
    requires Reaches(Init(servers, wantReply), run, s)
    ensures s.cancelled <==> exists k :: 0 <= k < |s.log| && s.log[k].result.Failed?
  {
    RunKeepsInv(wantReply, Init(servers, wantReply), run, s);
    FirstsFound(s.log);
  }

  /** What is left to do, a call and a section for each goroutine, and the return. */
  function StepsLeft(stages: seq<Stage>): nat {
    if stages == [] then 0
    else StepsLeft(stages[..|stages| - 1]) +
         match stages[|stages| - 1] case Calling => 2 case Ended(_) => 1 case Done => 0
  }

  lemma {:induction false} LeftAfterPut(stages: seq<Stage>, i: nat, stage: Stage)
    requires i < |stages|
    requires (stages[i].Calling? && !stage.Calling?) || (stages[i].Ended? && stage.Done?)
    ensures StepsLeft(stages[i := stage]) < StepsLeft(stages)
  {
    var n := |stages| - 1;
    if i < n {
      LeftAfterPut(stages[..n], i, stage);
      assert stages[i := stage][..n] == stages[..n][i := stage];
    } else {
      assert stages[i := stage][..n] == stages[..n];
    }
  }

  /** However the calls end, Broadcast comes to its return: until then some step is possible, and every one counts. */
  lemma BroadcastGoesOn(servers: nat, wantReply: bool, run: seq<Action>, s: State, result: Result)
    returns (a: Action)
    requires Reaches(Init(servers, wantReply), run, s) && !s.returned
    ensures Enabled(s, a) && (a.CallEnds? ==> a.result == result)
    ensures !a.Return? ==> StepsLeft(Apply(s, a).stages) < StepsLeft(s.stages)
    ensures a.Return? ==> Apply(s, a).returned
  {
    if i :| 0 <= i < |s.stages| && !s.stages[i].Done? {
      a := if s.stages[i].Calling? then CallEnds(i, result) else Section(i);
      LeftAfterPut(s.stages, i, if s.stages[i].Calling? then Ended(result) else Done);
    } else {
      a := Return;
    }
  }
}
