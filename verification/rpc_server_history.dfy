/** How a GeeRPC server's state follows from what has happened on its connection. */
module RpcServerHistory {
  import opened Wrappers
  import opened RpcTypes
  import opened RpcServer

  /** The requests of a run, in the order they arrived. */
  function Arrived(run: seq<Action>): seq<Request> {
    if run == [] then []
    else Arrived(run[..|run| - 1]) + if run[|run| - 1].Arrive? then [run[|run| - 1].m] else []
  }

  /** The last request that was read is for an unknown method. */
  predicate LastUnknown(cfg: Config, s: Server) {
    0 < |s.tasks| <= |s.inp| && s.inp[|s.tasks| - 1].h.target !in cfg.service.known
  }

  /** Why the reader is where it is. */
  predicate ReaderExplained(cfg: Config, past: seq<Action>, s: Server) {
    match s.reader
    case Reading => true
    case Refusing(_, lost) => lost <==> LastUnknown(cfg, s)
    case Draining => ReadFails in past || LastUnknown(cfg, s)
    case Closed => CloseConnection in past && (ReadFails in past || LastUnknown(cfg, s))
  }

  lemma StepIsExplained(cfg: Config, past: seq<Action>, s: Server, a: Action)
    requires |s.tasks| <= |s.inp| && ReaderExplained(cfg, past, s) && Enabled(cfg, s, a)
    ensures ReaderExplained(cfg, past + [a], Apply(cfg, s, a))
  {
  }

  lemma StepKeepsArrived(cfg: Config, past: seq<Action>, s: Server, a: Action)
    requires s.inp == Arrived(past) && Enabled(cfg, s, a)
    ensures Apply(cfg, s, a).inp == Arrived(past + [a])
  {
    assert (past + [a])[..|past|] == past;
  }

  lemma {:induction false} RunIsExplained(cfg: Config, past: seq<Action>, s: Server, run: seq<Action>, s': Server)
    requires Inv(cfg, s) && s.inp == Arrived(past) && ReaderExplained(cfg, past, s) && Reaches(cfg, s, run, s')
    ensures s'.inp == Arrived(past + run) && ReaderExplained(cfg, past + run, s')
    decreases |run|
  {
    if run == [] {
      assert past + [] == past;
    } else {
      StepIsExplained(cfg, past, s, run[0]);
      StepKeepsArrived(cfg, past, s, run[0]);
      StepKeepsInv(cfg, s, run[0]);
      RunIsExplained(cfg, past + [run[0]], Apply(cfg, s, run[0]), run[1..], s');
      assert past + [run[0]] + run[1..] == past + run;
    }
  }

  /** The k-th request that the server deals with is the k-th that arrived. */
  lemma RequestsAreThoseThatArrived(cfg: Config, run: seq<Action>, s: Server)
    requires Reaches(cfg, Init, run, s)
    ensures s.inp == Arrived(run) && |s.tasks| <= |Arrived(run)|
  {
    RunKeepsInv(cfg, Init, run, s);
    RunIsExplained(cfg, [], Init, run, s);
    assert [] + run == run;
  }

  /**
   The reader stops for a header that it cannot read or a method that it does
   not know, and for nothing else: a body that does not decode is answered, and
   the next request is read.
   */
  lemma ReaderStopsOnlyFor(cfg: Config, run: seq<Action>, s: Server)
    requires Reaches(cfg, Init, run, s) && (s.reader.Draining? || s.reader.Closed?)
    ensures ReadFails in run ||
      (0 < |s.tasks| <= |Arrived(run)| && Arrived(run)[|s.tasks| - 1].h.target !in cfg.service.known)
  {
    RunKeepsInv(cfg, Init, run, s);
    RunIsExplained(cfg, [], Init, run, s);
    assert [] + run == run;
  }

  // ---------------------------------------------------------------- what can happen

  lemma {:induction false} RunExtends(cfg: Config, s: Server, run: seq<Action>, s': Server, a: Action)
    requires Reaches(cfg, s, run, s') && Enabled(cfg, s', a)
    ensures Reaches(cfg, s, run + [a], Apply(cfg, s', a))
    decreases |run|
  {
    if run == [] {
      assert Reaches(cfg, Apply(cfg, s, a), [], Apply(cfg, s, a));
    } else {
      RunExtends(cfg, Apply(cfg, s, run[0]), run[1..], s', a);
      assert (run + [a])[1..] == run[1..] + [a];
    }
  }

  lemma Step(cfg: Config, run: seq<Action>, s: Server, a: Action) returns (longer: seq<Action>, s': Server)
    requires Reaches(cfg, Init, run, s) && Enabled(cfg, s, a)
    ensures longer == run + [a] && s' == Apply(cfg, s, a) && Reaches(cfg, Init, longer, s')
  {
    RunExtends(cfg, Init, run, s, a);
    longer, s' := run + [a], Apply(cfg, s, a);
  }

  /** With a timeout set, either side may win the race for a request that can be handled. */
  lemma EitherSideCanWin(cfg: Config, m: Request, late: bool) returns (run: seq<Action>, s: Server)
    requires m.h.target in cfg.service.known && m.body.Some? && (late ==> cfg.hasTimeout)
    ensures Reaches(cfg, Init, run, s) && |s.out| == 1 && s.out[0].h.seqno == m.h.seqno
    ensures
      var result := cfg.service.run(m.h.target, m.body.value);
      if late then s.out[0].h.error == HANDLE_TIMEOUT && s.out[0].body == INVALID_REQUEST
      else s.out[0].h.error == (if result.Err? then result.text else "") &&
           s.out[0].body == if result.Ok? then result.reply else INVALID_REQUEST
  {
    run, s := Step(cfg, [], Init, Arrive(m));
    run, s := Step(cfg, run, s, Read);
    if late {
      run, s := Step(cfg, run, s, TimerFires(0));
      run, s := Step(cfg, run, s, SendTimeout(0));
    } else {
      run, s := Step(cfg, run, s, MethodReturns(0));
      run, s := Step(cfg, run, s, Called(0));
      run, s := Step(cfg, run, s, SendResult(0));
    }
  }

  /** A request whose body does not decode is refused, and the one after it is read. */
  lemma ReadsOnAfterBadBody(cfg: Config, bad: Request, next: Request) returns (run: seq<Action>, s: Server)
    requires bad.h.target in cfg.service.known && bad.body.None?
    requires next.h.target in cfg.service.known && next.body.Some?
    ensures Reaches(cfg, Init, run, s)
    ensures |s.out| == 1 && s.out[0].h.seqno == bad.h.seqno && s.out[0].h.error == BAD_BODY
    ensures |s.tasks| == 2 && s.tasks[1] == Handled(Selecting, Calling)
  {
    run, s := Step(cfg, [], Init, Arrive(bad));
    run, s := Step(cfg, run, s, Arrive(next));
    run, s := Step(cfg, run, s, Read);
    run, s := Step(cfg, run, s, Refuse);
    run, s := Step(cfg, run, s, Read);
  }
}
