/**
 The de-duplication protocol of `singleflight.Group.Do`, as an interleaving of
 its callers. A caller that leads creates the call it leads, so a call has its
 leader's id. `clock`, `entered` and `left` are history: when a caller looked
 up the map, and when it deleted its entry or woke up.
 */
module Singleflight {
  import opened Wrappers

  type Tid = nat
  type Result = string

  /** Where a caller stands in Do. */
  datatype Stage =
    | Entering                    // before mu.Lock()
    | Running                     // leads, executes fn
    | Publishing                  // leads, fn has returned, before wg.Done()
    | Deleting                    // leads, before the entry is deleted
    | Waiting(call: Tid)          // joined, in wg.Wait()
    | Returned(call: Tid, result: Result)
  {
    predicate Leads() { Running? || Publishing? || Deleting? }
  }

  datatype Caller = Caller(key: string, stage: Stage, entered: nat, left: Option<nat>)

  /** A call: what fn returned, and whether wg.Done() was called. */
  datatype Call = Call(val: Option<Result>, done: bool)

  datatype Group = Group(m: map<string, Tid>, calls: map<Tid, Call>, callers: map<Tid, Caller>, clock: nat)
  {
    predicate At(t: Tid, stage: Stage) { t in callers && callers[t].stage == stage }

    /** The group after a step that takes caller `t` to `c`. */
    function Move(t: Tid, c: Caller): Group { this.(callers := callers[t := c], clock := clock + 1) }
  }

  datatype Action =
    | Start(t: Tid, key: string)
    | Enter(t: Tid)
    | FnReturns(t: Tid, result: Result)
    | Done(t: Tid)
    | Delete(t: Tid)
    | Wake(t: Tid)

  const Init := Group(map[], map[], map[], 0)

  predicate Enabled(s: Group, a: Action) {
    match a
    case Start(t, _) => t !in s.callers && t !in s.calls
    case Enter(t) => s.At(t, Entering)
    case FnReturns(t, _) => s.At(t, Running) && t in s.calls
    case Done(t) => s.At(t, Publishing) && t in s.calls
    case Delete(t) => s.At(t, Deleting) && t in s.calls && s.calls[t].val.Some?
    case Wake(t) =>
      t in s.callers && s.callers[t].stage.Waiting? &&
      var c := s.callers[t].stage.call; c in s.calls && s.calls[c].done && s.calls[c].val.Some?
  }

  function Apply(s: Group, a: Action): Group
    requires Enabled(s, a)
  {
    match a
    case Start(t, key) => s.Move(t, Caller(key, Entering, s.clock, None))
    case Enter(t) =>
      var c := s.callers[t].(entered := s.clock);
      if c.key in s.m then s.Move(t, c.(stage := Waiting(s.m[c.key])))
      else s.Move(t, c.(stage := Running)).(m := s.m[c.key := t], calls := s.calls[t := Call(None, false)])
    case FnReturns(t, result) =>
      s.Move(t, s.callers[t].(stage := Publishing)).(calls := s.calls[t := Call(Some(result), false)])
    case Done(t) =>
      s.Move(t, s.callers[t].(stage := Deleting)).(calls := s.calls[t := s.calls[t].(done := true)])
    case Delete(t) =>
      var c := s.callers[t];
      s.Move(t, c.(stage := Returned(t, s.calls[t].val.value), left := Some(s.clock))).(m := s.m - {c.key})
    case Wake(t) =>
      var c := s.callers[t];
      s.Move(t, c.(stage := Returned(c.stage.call, s.calls[c.stage.call].val.value), left := Some(s.clock)))
  }

  predicate Reaches(s: Group, run: seq<Action>, s': Group)
    decreases |run|
  {
    if run == [] then s == s'
    else Enabled(s, run[0]) && Reaches(Apply(s, run[0]), run[1..], s')
  }

  // ---------------------------------------------------------------- invariant

  /** When `u` looked up the map, the leader `l` was in its Do: it had put its entry there and not yet deleted it. */
  predicate Overlaps(l: Caller, u: Caller) {
    l.entered <= u.entered && (l.left.Some? ==> u.entered < l.left.value)
  }

  predicate CallerOk(s: Group, t: Tid)
    requires t in s.callers
  {
    var c := s.callers[t];
    && c.entered < s.clock
    && (c.left.Some? <==> c.stage.Returned?)
    && (c.stage.Entering? <==> t !in s.calls && !c.stage.Waiting? && !c.stage.Returned?)
    && (c.stage.Leads() ==>
          c.key in s.m && s.m[c.key] == t && t in s.calls &&
          s.calls[t].val.Some? == !c.stage.Running? && s.calls[t].done == c.stage.Deleting?)
    && (c.stage.Waiting? || c.stage.Returned? ==>
          var l := c.stage.call;
          l in s.calls && l in s.callers && s.callers[l].key == c.key && Overlaps(s.callers[l], c))
    && (c.stage.Returned? ==> s.calls[c.stage.call] == Call(Some(c.stage.result), true))
  }

  predicate CallOk(s: Group, c: Tid)
    requires c in s.calls
  {
    c in s.callers && (s.callers[c].stage.Leads() || (s.calls[c].done && s.calls[c].val.Some?)) &&
    !s.callers[c].stage.Entering? && !s.callers[c].stage.Waiting?
  }

  predicate EntryOk(s: Group, key: string)
    requires key in s.m
  {
    s.m[key] in s.callers && s.callers[s.m[key]].key == key && s.callers[s.m[key]].stage.Leads()
  }

  ghost predicate Inv(s: Group) {
    && (forall t :: t in s.callers ==> CallerOk(s, t))
    && (forall c :: c in s.calls ==> CallOk(s, c))
    && (forall key :: key in s.m ==> EntryOk(s, key))
  }

  lemma StepKeepsEntry(s: Group, a: Action, key: string)
    requires Inv(s) && Enabled(s, a) && key in Apply(s, a).m
    ensures EntryOk(Apply(s, a), key)
  {
  }

  lemma StepKeepsCall(s: Group, a: Action, c: Tid)
    requires Enabled(s, a) && c in Apply(s, a).calls && (c in s.calls ==> CallOk(s, c))
    requires a.t in s.callers ==> CallerOk(s, a.t)
    ensures CallOk(Apply(s, a), c)
  {
  }

  lemma OwnStepKeepsCaller(s: Group, a: Action)
    requires Enabled(s, a) && (a.t in s.callers ==> CallerOk(s, a.t))
    requires a.Enter? && s.callers[a.t].key in s.m ==>
      var l := s.m[s.callers[a.t].key]; EntryOk(s, s.callers[a.t].key) && l in s.callers && CallerOk(s, l)
    ensures CallerOk(Apply(s, a), a.t)
  {
  }

  lemma OtherStepKeepsCaller(s: Group, a: Action, t: Tid)
    requires Enabled(s, a) && t in s.callers && t != a.t && CallerOk(s, t)
    requires a.t in s.callers ==> CallerOk(s, a.t)
    requires a.t in s.calls ==> CallOk(s, a.t)
    ensures CallerOk(Apply(s, a), t)
  {
  }

  lemma StepKeepsInv(s: Group, a: Action)
    requires Inv(s) && Enabled(s, a)
    ensures Inv(Apply(s, a))
  {
    forall t | t in Apply(s, a).callers ensures CallerOk(Apply(s, a), t) {
      if t == a.t { OwnStepKeepsCaller(s, a); } else { OtherStepKeepsCaller(s, a, t); }
    }
    forall c | c in Apply(s, a).calls ensures CallOk(Apply(s, a), c) { StepKeepsCall(s, a, c); }
    forall key | key in Apply(s, a).m ensures EntryOk(Apply(s, a), key) { StepKeepsEntry(s, a, key); }
  }

  lemma {:induction false} RunKeepsInv(s: Group, run: seq<Action>, s': Group)
    requires Inv(s) && Reaches(s, run, s')
    ensures Inv(s')
    decreases |run|
  {
    if run != [] {
      StepKeepsInv(s, run[0]);
      RunKeepsInv(Apply(s, run[0]), run[1..], s');
    }
  }

  // ---------------------------------------------------------------- history

  /** Caller `t` asked for the key it has in the state. */
  predicate Asked(past: seq<Action>, s: Group, t: Tid)
    requires t in s.callers
  {
    Start(t, s.callers[t].key) in past
  }

  /** A call's value is what the one execution of fn by its leader returned. */
  ghost predicate Told(past: seq<Action>, s: Group, c: Tid) {
    forall v :: FnReturns(c, v) in past <==> c in s.calls && s.calls[c].val == Some(v)
  }

  ghost predicate Recorded(past: seq<Action>, s: Group) {
    (forall t :: t in s.callers ==> Asked(past, s, t)) && (forall c :: Told(past, s, c))
  }

  lemma StepIsTold(past: seq<Action>, s: Group, a: Action, c: Tid)
    requires Enabled(s, a) && Told(past, s, c)
    requires a.t in s.callers ==> CallerOk(s, a.t)
    ensures Told(past + [a], Apply(s, a), c)
  {
    forall v ensures FnReturns(c, v) in past + [a] <==> FnReturns(c, v) in past || a == FnReturns(c, v) {}
  }

  lemma {:induction false} RunIsRecorded(past: seq<Action>, s: Group, run: seq<Action>, s': Group)
    requires Inv(s) && Recorded(past, s) && Reaches(s, run, s')
    ensures Recorded(past + run, s')
    decreases |run|
  {
    if run == [] {
      assert past + [] == past;
    } else {
      StepKeepsInv(s, run[0]);
      StepIsRecorded(past, s, run[0]);
      RunIsRecorded(past + [run[0]], Apply(s, run[0]), run[1..], s');
      Rejoined(past, run);
    }
  }

  lemma StepIsRecorded(past: seq<Action>, s: Group, a: Action)
    requires Inv(s) && Recorded(past, s) && Enabled(s, a)
    ensures Recorded(past + [a], Apply(s, a))
  {
    forall c ensures Told(past + [a], Apply(s, a), c) { StepIsTold(past, s, a, c); }
    forall t | t in Apply(s, a).callers ensures Asked(past + [a], Apply(s, a), t) {
      if t in s.callers { StillAsked(past, s, a, t); }
    }
  }

  lemma StillAsked(past: seq<Action>, s: Group, a: Action, t: Tid)
    requires Enabled(s, a) && t in s.callers && Asked(past, s, t)
    ensures t in Apply(s, a).callers && Asked(past + [a], Apply(s, a), t)
  {
  }

  /** The clock counts the steps, and a caller's times are the positions of its own steps. */
  ghost predicate Timed(past: seq<Action>, s: Group, t: Tid)
    requires t in s.callers
  {
    var c := s.callers[t];
    && (!c.stage.Entering? ==> c.entered < |past| && past[c.entered] == Enter(t))
    && (forall k :: 0 <= k < |past| && past[k] == Delete(t) ==> c.left == Some(k))
  }

  lemma StepIsTimed(past: seq<Action>, s: Group, a: Action, t: Tid)
    requires s.clock == |past| && Enabled(s, a) && t in Apply(s, a).callers
    requires t in s.callers ==> Timed(past, s, t) && (t == a.t ==> CallerOk(s, t))
    requires t !in s.callers ==> Delete(t) !in past
    ensures Timed(past + [a], Apply(s, a), t)
  {
  }

  /** No step of a caller comes before its start. */
  ghost predicate Clocked(past: seq<Action>, s: Group) {
    && s.clock == |past|
    && (forall t :: t in s.callers ==> Timed(past, s, t))
    && (forall t :: Delete(t) in past ==> t in s.callers)
  }

  lemma StepIsClocked(past: seq<Action>, s: Group, a: Action)
    requires Clocked(past, s) && Enabled(s, a) && (a.t in s.callers ==> CallerOk(s, a.t))
    ensures Clocked(past + [a], Apply(s, a))
  {
    forall t | t in Apply(s, a).callers ensures Timed(past + [a], Apply(s, a), t) { StepIsTimed(past, s, a, t); }
  }

  lemma {:induction false} RunIsClocked(past: seq<Action>, s: Group, run: seq<Action>, s': Group)
    requires Inv(s) && Clocked(past, s) && Reaches(s, run, s')
    ensures Clocked(past + run, s')
    decreases |run|
  {
    if run == [] {
      assert past + [] == past;
    } else {
      StepKeepsInv(s, run[0]);
      StepIsClocked(past, s, run[0]);
      RunIsClocked(past + [run[0]], Apply(s, run[0]), run[1..], s');
      Rejoined(past, run);
    }
  }

  lemma Rejoined(past: seq<Action>, run: seq<Action>)
    requires run != []
    ensures past + [run[0]] + run[1..] == past + run
  {
  }

  // ------------------------------------------------------------- main results

  /**
   The leader whose result a caller returns was inside its Do when the caller
   looked up the map: it had looked itself by then, and deleted its entry later.
   */
  lemma LeaderWasInside(run: seq<Action>, s: Group, t: Tid) returns (i: nat, j: nat)
    requires Reaches(Init, run, s) && t in s.callers && s.callers[t].stage.Returned?
    ensures
      var l := s.callers[t].stage.call;
      && i <= j < |run| && run[i] == Enter(l) && run[j] == Enter(t)
      && forall k :: 0 <= k < |run| && run[k] == Delete(l) ==> k > j
  {
    var l := s.callers[t].stage.call;
    CallerInRun(run, s, t);
    CallInRun(run, s, l);
    CallerInRun(run, s, l);
    TimesOverlap(run, s, t, l);
    i, j := s.callers[l].entered, s.callers[t].entered;
  }

  lemma CallerInRun(run: seq<Action>, s: Group, t: Tid)
    requires Reaches(Init, run, s) && t in s.callers
    ensures CallerOk(s, t) && Timed(run, s, t)
  {
    RunKeepsInv(Init, run, s);
    RunIsClocked([], Init, run, s);
    assert [] + run == run;
  }

  lemma CallInRun(run: seq<Action>, s: Group, c: Tid)
    requires Reaches(Init, run, s) && c in s.calls
    ensures CallOk(s, c)
  {
    RunKeepsInv(Init, run, s);
  }

  lemma TimesOverlap(run: seq<Action>, s: Group, t: Tid, l: Tid)
    requires t in s.callers && l in s.callers && l in s.calls && Timed(run, s, t) && Timed(run, s, l)
    requires CallerOk(s, t) && CallOk(s, l) && s.callers[t].stage.Returned? && s.callers[t].stage.call == l
    ensures
      var i, j := s.callers[l].entered, s.callers[t].entered;
      && i <= j < |run| && run[i] == Enter(l) && run[j] == Enter(t)
      && forall k :: 0 <= k < |run| && run[k] == Delete(l) ==> k > j
  {
  }

  /**
   In every run, whoever returns from Do for the key it asked for returns what
   the one execution of fn by its leader, which asked for that key too, returned.
   */
  lemma ResultIsWhatFnReturned(run: seq<Action>, s: Group, t: Tid)
    requires Reaches(Init, run, s) && t in s.callers && s.callers[t].stage.Returned?
    ensures
      var c := s.callers[t];
      && Start(t, c.key) in run && Start(c.stage.call, c.key) in run
      && forall v :: FnReturns(c.stage.call, v) in run <==> v == c.stage.result
  {
    CallerInRun(run, s, t);
    RunIsRecorded([], Init, run, s);
    assert [] + run == run;
    assert Told(run, s, s.callers[t].stage.call) && Asked(run, s, t) && Asked(run, s, s.callers[t].stage.call);
  }

  /** At most one execution of fn is in flight per key. */
  lemma OneExecutionPerKey(run: seq<Action>, s: Group, t: Tid, u: Tid)
    requires Reaches(Init, run, s)
    requires s.At(t, Running) && s.At(u, Running) && s.callers[t].key == s.callers[u].key
    ensures t == u
  {
    RunKeepsInv(Init, run, s);
    assert CallerOk(s, t) && CallerOk(s, u);
  }

  /** The entry that a leader deletes is the one it made, and the entries of other keys stay. */
  lemma LeaderDeletesItsOwnEntry(run: seq<Action>, s: Group, t: Tid)
    requires Reaches(Init, run, s) && Enabled(s, Delete(t))
    ensures
      var key := s.callers[t].key;
      key in s.m && s.m[key] == t && Apply(s, Delete(t)).m == map k | k in s.m && k != key :: s.m[k]
  {
    RunKeepsInv(Init, run, s);
    assert CallerOk(s, t);
  }

  /**
   Whoever returns from Do for a key has the result of one execution of fn,
   by a leader for that same key, and that leader was inside its own Do when
   this caller looked up the map.
   */
  lemma ResultIsFromOverlappingLeader(run: seq<Action>, s: Group, t: Tid)
    requires Reaches(Init, run, s) && t in s.callers && s.callers[t].stage.Returned?
    ensures
      var l := s.callers[t].stage.call;
      && l in s.callers && s.callers[l].key == s.callers[t].key && Overlaps(s.callers[l], s.callers[t])
      && l in s.calls && s.calls[l] == Call(Some(s.callers[t].stage.result), true)
  {
    RunKeepsInv(Init, run, s);
    assert CallerOk(s, t);
  }

  lemma DoneCallStays(s: Group, a: Action, c: Tid)
    requires Enabled(s, a) && c in s.calls && s.calls[c].done && CallOk(s, c) && CallerOk(s, c)
    ensures c in Apply(s, a).calls && Apply(s, a).calls[c] == s.calls[c]
  {
  }

  /** All that joined one call return what its leader returns, and no later step changes it. */
  lemma {:induction false} ResultIsFinal(s: Group, c: Tid, run: seq<Action>, s': Group)
    requires Inv(s) && c in s.calls && s.calls[c].done && Reaches(s, run, s')
    ensures c in s'.calls && s'.calls[c] == s.calls[c]
    decreases |run|
  {
    if run != [] {
      assert CallOk(s, c) && CallerOk(s, c);
      StepKeepsInv(s, run[0]);
      DoneCallStays(s, run[0], c);
      ResultIsFinal(Apply(s, run[0]), c, run[1..], s');
    }
  }

  /** Whoever has not returned can step itself, or waits for a leader that can, whatever fn returns. */
  lemma EveryCallerCanGoOn(run: seq<Action>, s: Group, t: Tid, fn: Result) returns (a: Action)
    requires Reaches(Init, run, s) && t in s.callers && !s.callers[t].stage.Returned?
    ensures Enabled(s, a) && (a.FnReturns? ==> a.result == fn)
    ensures a.t == t || (s.callers[t].stage.Waiting? && a.t == s.callers[t].stage.call)
    ensures a.t in s.callers && a.t in Apply(s, a).callers
    ensures Nearness(Apply(s, a).callers[a.t].stage) < Nearness(s.callers[a.t].stage)
  {
    CallerInRun(run, s, t);
    match s.callers[t].stage {
      case Entering => a := Enter(t);
      case Running => a := FnReturns(t, fn);
      case Publishing => a := Done(t);
      case Deleting => a := Delete(t);
      case Waiting(l) =>
        CallInRun(run, s, l);
        CallerInRun(run, s, l);
        a := if s.calls[l].done then Wake(t) else if s.callers[l].stage.Running? then FnReturns(l, fn) else Done(l);
    }
  }

  /** The steps that are left for a caller. */
  function Nearness(stage: Stage): nat {
    match stage
    case Entering => 4
    case Running => 3
    case Publishing => 2
    case Deleting => 1
    case Waiting(_) => 1
    case Returned(_, _) => 0
  }

  /** No joiner is forgotten: it can wake, or its leader has still to publish and can step. */
  lemma JoinerIsNeverStuck(run: seq<Action>, s: Group, t: Tid) returns (a: Action)
    requires Reaches(Init, run, s) && t in s.callers && s.callers[t].stage.Waiting?
    ensures Enabled(s, a)
    ensures a == Wake(t) || (a.t == s.callers[t].stage.call && (a.FnReturns? || a.Done?))
  {
    RunKeepsInv(Init, run, s);
    assert CallerOk(s, t);
    var l := s.callers[t].stage.call;
    assert CallOk(s, l) && CallerOk(s, l);
    a := if s.calls[l].done then Wake(t) else if s.callers[l].stage.Running? then FnReturns(l, "") else Done(l);
  }
}
