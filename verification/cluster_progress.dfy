/**
 How the Gets of a GeeCache cluster come to an end: where owners serve their
 own keys, no Gets wait in a circle and each takes few steps; where two nodes
 take each other for the owner, one Get is enough to lock up.
 */
module ClusterProgress {
  import opened Wrappers
  import opened Cluster

  lemma {:induction false} Fresh(used: set<Rid>) returns (r: Rid)
    ensures forall u :: u in used ==> u < r
    decreases used
  {
    r := 0;
    if used != {} {
      var u :| u in used;
      assert used == (used - {u}) + {u};
      r := Fresh(used - {u});
      if r <= u { r := u + 1; }
    }
  }

  /** A step that takes some Get further: a peer is given up only if it has answered with an error. */
  predicate Productive(cfg: Config, s: Cluster, a: Action) {
    Enabled(cfg, s, a) && !a.Arrive? &&
    (a.PeerFails? ==>
      var c := s.requests[a.r].stage.child;
      c in s.requests && s.requests[c].stage == Finished(None))
  }

  // ---------------------------------------------------------------- waiting

  /** Whom a request waits for itself: the leader it joined, or the request it forwarded. */
  function Next(s: Cluster, r: Rid): Option<Rid>
    requires r in s.requests
  {
    match s.requests[r].stage
    case Joined(l) => Some(l)
    case Asking(c) => Some(c)
    case _ => None
  }

  /** `t` is `r` or one that `r` waits for, at most n requests further on. */
  predicate Waits(s: Cluster, r: Rid, t: Rid, n: nat)
    decreases n
  {
    r == t || (n > 0 && r in s.requests && Next(s, r).Some? && Waits(s, Next(s, r).value, t, n - 1))
  }

  /** A joiner waits for a leader, which waits for the request it forwarded, which waits for a leader at the owner. */
  const DEPTH := 3

  /** A request at a node that serves the key itself can go on, or the leader it joined can. */
  lemma LocalCanStep(cfg: Config, s: Cluster, r: Rid) returns (a: Action)
    requires Inv(cfg, s) && r in s.requests && !s.requests[r].stage.Finished?
    requires cfg.pick(s.requests[r].node, s.requests[r].key) == None
    ensures Productive(cfg, s, a) && Waits(s, r, a.r, 1)
  {
    assert RequestOk(cfg, s, r);
    match s.requests[r].stage {
      case Arrived => a := LookUp(r);
      case Missed => a := Join(r);
      case Leading =>
        var child := Fresh(s.requests.Keys);
        a := Pick(r, child);
      case Loading => a := Load(r);
      case Asking(c) => assert false;
      case Joined(l) => a := LocalLeaderCanStep(cfg, s, r, l);
    }
  }

  lemma LocalLeaderCanStep(cfg: Config, s: Cluster, r: Rid, l: Rid) returns (a: Action)
    requires Inv(cfg, s) && s.At(r, Joined(l)) && l in s.requests
    requires cfg.pick(s.requests[r].node, s.requests[r].key) == None
    ensures Productive(cfg, s, a) && (a.r == r || a.r == l)
  {
    assert RequestOk(cfg, s, r) && RequestOk(cfg, s, l);
    if s.requests[l].stage.Finished? {
      a := Wake(r);
    } else if s.requests[l].stage.Leading? {
      var child := Fresh(s.requests.Keys);
      a := Pick(l, child);
    } else {
      a := Load(l);
    }
  }

  /** A leader can go on, or the request it forwarded can, or the leader that this one joined. */
  lemma LeaderCanStep(cfg: Config, s: Cluster, r: Rid) returns (a: Action)
    requires Inv(cfg, s) && OwnersServe(cfg) && r in s.requests && s.requests[r].stage.Leads()
    ensures Productive(cfg, s, a) && Waits(s, r, a.r, 2)
  {
    assert RequestOk(cfg, s, r);
    match s.requests[r].stage {
      case Leading =>
        var child := Fresh(s.requests.Keys);
        a := Pick(r, child);
      case Loading => a := Load(r);
      case Asking(c) =>
        assert RequestOk(cfg, s, c);
        if s.requests[c].stage.Finished? {
          a := if s.requests[c].stage.result.Some? then PeerAnswers(r) else PeerFails(r);
        } else {
          a := LocalCanStep(cfg, s, c);
        }
    }
  }

  /** No Gets wait for each other in a circle: while one is unfinished, it or one that it waits for can step. */
  lemma GetsNeverDeadlock(cfg: Config, run: seq<Action>, s: Cluster, r: Rid) returns (a: Action)
    requires OwnersServe(cfg) && Reaches(cfg, Init, run, s)
    requires r in s.requests && !s.requests[r].stage.Finished?
    ensures Productive(cfg, s, a) && Waits(s, r, a.r, DEPTH)
  {
    RunKeepsInv(cfg, Init, run, s);
    a := GetCanStep(cfg, s, r);
  }

  lemma GetCanStep(cfg: Config, s: Cluster, r: Rid) returns (a: Action)
    requires OwnersServe(cfg) && Inv(cfg, s)
    requires r in s.requests && !s.requests[r].stage.Finished?
    ensures Productive(cfg, s, a) && Waits(s, r, a.r, DEPTH)
  {
    assert RequestOk(cfg, s, r);
    if s.requests[r].stage.Leads() {
      a := LeaderCanStep(cfg, s, r);
      WaitsLonger(s, r, a.r, 2);
    } else {
      match s.requests[r].stage {
        case Arrived => a := LookUp(r);
        case Missed => a := Join(r);
        case Joined(l) =>
          if s.requests[l].stage.Finished? { a := Wake(r); } else { a := LeaderCanStep(cfg, s, l); }
      }
    }
  }

  lemma {:induction false} WaitsLonger(s: Cluster, r: Rid, t: Rid, n: nat)
    requires Waits(s, r, t, n)
    ensures Waits(s, r, t, n + 1)
    decreases n
  {
    if r != t { WaitsLonger(s, Next(s, r).value, t, n - 1); }
  }

  // ---------------------------------------------------------------- how long a Get takes

  /** The steps that a request may still have to take or wait for, not counting whom it waits for already. */
  function Own(stage: Stage, serves: bool): nat {
    match stage
    case Arrived => if serves then 6 else 13
    case Missed => if serves then 5 else 12
    case Leading => if serves then 3 else 10
    case Asking(_) => 3
    case Loading => 2
    case Joined(_) => 1
    case Finished(_) => 0
  }

  /** The same, with those it waits for, at most n requests further on. */
  function Left(cfg: Config, s: Cluster, r: Rid, n: nat): nat
    requires r in s.requests
    decreases n
  {
    var q := s.requests[r];
    Own(q.stage, cfg.pick(q.node, q.key) == None) +
    if n > 0 && Next(s, r).Some? && Next(s, r).value in s.requests then Left(cfg, s, Next(s, r).value, n - 1) else 0
  }

  /** No Get takes more steps than this, its own and those of the Gets it waits for. */
  const MAX_STEPS := 13

  lemma ServingLeft(cfg: Config, s: Cluster, r: Rid, n: nat)
    requires Inv(cfg, s) && r in s.requests && cfg.pick(s.requests[r].node, s.requests[r].key) == None
    ensures Left(cfg, s, r, n) <= 6
    ensures s.requests[r].stage.Leads() || s.requests[r].stage.Finished? ==> Left(cfg, s, r, n) <= 3
  {
    assert RequestOk(cfg, s, r);
    if s.requests[r].stage.Joined? && n > 0 {
      var l := s.requests[r].stage.leader;
      assert RequestOk(cfg, s, l);
      assert Left(cfg, s, l, n - 1) <= 3;
    }
  }

  lemma LeaderLeft(cfg: Config, s: Cluster, r: Rid, n: nat)
    requires Inv(cfg, s) && OwnersServe(cfg) && r in s.requests
    requires s.requests[r].stage.Leads() || s.requests[r].stage.Finished?
    ensures Left(cfg, s, r, n) <= 10
  {
    assert RequestOk(cfg, s, r);
    if s.requests[r].stage.Asking? && n > 0 {
      var c := s.requests[r].stage.child;
      assert RequestOk(cfg, s, c);
      ServingLeft(cfg, s, c, n - 1);
    }
  }

  lemma LeftIsBounded(cfg: Config, s: Cluster, r: Rid, n: nat)
    requires Inv(cfg, s) && OwnersServe(cfg) && r in s.requests
    ensures Left(cfg, s, r, n) <= MAX_STEPS
  {
    assert RequestOk(cfg, s, r);
    if s.requests[r].stage.Joined? && n > 0 {
      LeaderLeft(cfg, s, s.requests[r].stage.leader, n - 1);
    } else if s.requests[r].stage.Asking? {
      LeaderLeft(cfg, s, r, n);
    }
  }

  /** A request's own step takes it nearer to its end, whoever it waits for afterwards. */
  lemma OwnStepGetsNearer(cfg: Config, s: Cluster, a: Action, n: nat)
    requires Inv(cfg, s) && OwnersServe(cfg) && Enabled(cfg, s, a) && a.r in s.requests
    ensures a.r in Apply(cfg, s, a).requests && Left(cfg, Apply(cfg, s, a), a.r, n) < Left(cfg, s, a.r, n)
  {
    if a.Join? {
      JoinGetsNearer(cfg, s, a, n);
    } else if a.Pick? {
      PickGetsNearer(cfg, s, a, n);
    }
  }

  lemma JoinGetsNearer(cfg: Config, s: Cluster, a: Action, n: nat)
    requires Inv(cfg, s) && OwnersServe(cfg) && a.Join? && Enabled(cfg, s, a)
    ensures Left(cfg, Apply(cfg, s, a), a.r, n) < Left(cfg, s, a.r, n)
  {
    var s', q := Apply(cfg, s, a), s.requests[a.r];
    if (q.node, q.key) in s.flights && n > 0 {
      var l := s.flights[(q.node, q.key)];
      assert FlightOk(s, (q.node, q.key));
      StepKeepsInv(cfg, s, a);
      LeaderLeft(cfg, s', l, n - 1);
      if cfg.pick(q.node, q.key) == None { ServingLeft(cfg, s', l, n - 1); }
    }
  }

  lemma PickGetsNearer(cfg: Config, s: Cluster, a: Action, n: nat)
    requires Inv(cfg, s) && OwnersServe(cfg) && a.Pick? && Enabled(cfg, s, a)
    ensures Left(cfg, Apply(cfg, s, a), a.r, n) < Left(cfg, s, a.r, n)
  {
    var q := s.requests[a.r];
    if cfg.pick(q.node, q.key).Some? && n > 0 {
      StepKeepsInv(cfg, s, a);
      ServingLeft(cfg, Apply(cfg, s, a), a.child, n - 1);
    }
  }

  /**
   Every step of a request or of one that it waits for takes it nearer to its
   end; the steps of all others, arrivals included, take it no further away.
   */
  lemma {:induction false} StepGetsNearer(cfg: Config, s: Cluster, a: Action, r: Rid, n: nat)
    requires Inv(cfg, s) && OwnersServe(cfg) && Enabled(cfg, s, a) && r in s.requests
    ensures r in Apply(cfg, s, a).requests
    ensures Waits(s, r, a.r, n) ==> Left(cfg, Apply(cfg, s, a), r, n) < Left(cfg, s, r, n)
    ensures !Waits(s, r, a.r, n) ==> Left(cfg, Apply(cfg, s, a), r, n) == Left(cfg, s, r, n)
    decreases n
  {
    assert RequestOk(cfg, s, r);
    if r == a.r {
      OwnStepGetsNearer(cfg, s, a, n);
    } else {
      OthersStay(cfg, s, a, r);
      if n > 0 && Next(s, r).Some? { StepGetsNearer(cfg, s, a, Next(s, r).value, n - 1); }
    }
  }

  lemma OthersStay(cfg: Config, s: Cluster, a: Action, r: Rid)
    requires Enabled(cfg, s, a) && r in s.requests && r != a.r
    ensures r in Apply(cfg, s, a).requests && Apply(cfg, s, a).requests[r] == s.requests[r]
  {
  }

  /** The steps in a run that `r` makes, or one that it waits for at the time. */
  function StepsFor(cfg: Config, s: Cluster, run: seq<Action>, r: Rid): nat
    decreases |run|
  {
    if run == [] || !Enabled(cfg, s, run[0]) then 0
    else (if Waits(s, r, run[0].r, DEPTH) then 1 else 0) + StepsFor(cfg, Apply(cfg, s, run[0]), run[1..], r)
  }

  lemma {:induction false} StepsUseUpLeft(cfg: Config, s: Cluster, run: seq<Action>, s': Cluster, r: Rid)
    requires Inv(cfg, s) && OwnersServe(cfg) && Reaches(cfg, s, run, s') && r in s.requests
    ensures r in s'.requests && StepsFor(cfg, s, run, r) + Left(cfg, s', r, DEPTH) <= Left(cfg, s, r, DEPTH)
    decreases |run|
  {
    if run != [] {
      StepKeepsInv(cfg, s, run[0]);
      StepGetsNearer(cfg, s, run[0], r, DEPTH);
      StepsUseUpLeft(cfg, Apply(cfg, s, run[0]), run[1..], s', r);
    }
  }

  /**
   From any moment on, however the rest of the cluster carries on, a Get has
   ended once it and those it waits for have made MAX_STEPS steps.
   */
  lemma GetTakesFewSteps(cfg: Config, before: seq<Action>, s: Cluster, run: seq<Action>, s': Cluster, r: Rid)
    requires OwnersServe(cfg) && Reaches(cfg, Init, before, s) && r in s.requests && Reaches(cfg, s, run, s')
    ensures StepsFor(cfg, s, run, r) <= MAX_STEPS && r in s'.requests
    ensures StepsFor(cfg, s, run, r) == MAX_STEPS ==> s'.requests[r].stage.Finished?
  {
    RunKeepsInv(cfg, Init, before, s);
    LeftIsBounded(cfg, s, r, DEPTH);
    StepsUseUpLeft(cfg, s, run, s', r);
  }

  /** And it can always be brought to its end by such steps alone, none of them a failure of the connection. */
  lemma GetCanFinish(cfg: Config, before: seq<Action>, s: Cluster, r: Rid) returns (run: seq<Action>, s': Cluster)
    requires OwnersServe(cfg) && Reaches(cfg, Init, before, s) && r in s.requests
    ensures Reaches(cfg, s, run, s') && |run| <= MAX_STEPS && AllProductive(cfg, s, run)
    ensures r in s'.requests && s'.requests[r].stage.Finished?
  {
    RunKeepsInv(cfg, Init, before, s);
    LeftIsBounded(cfg, s, r, DEPTH);
    run, s' := FinishWithin(cfg, s, r);
  }

  predicate AllProductive(cfg: Config, s: Cluster, run: seq<Action>)
    decreases |run|
  {
    run == [] || (Productive(cfg, s, run[0]) && AllProductive(cfg, Apply(cfg, s, run[0]), run[1..]))
  }

  lemma {:induction false} FinishWithin(cfg: Config, s: Cluster, r: Rid) returns (run: seq<Action>, s': Cluster)
    requires OwnersServe(cfg) && Inv(cfg, s) && r in s.requests
    ensures Reaches(cfg, s, run, s') && |run| <= Left(cfg, s, r, DEPTH) && AllProductive(cfg, s, run)
    ensures r in s'.requests && s'.requests[r].stage.Finished?
    decreases Left(cfg, s, r, DEPTH)
  {
    run, s' := [], s;
    if !s.requests[r].stage.Finished? {
      var a := GetCanStep(cfg, s, r);
      var mid := Apply(cfg, s, a);
      StepGetsNearer(cfg, s, a, r, DEPTH);
      StepKeepsInv(cfg, s, a);
      run, s' := FinishWithin(cfg, mid, r);
      run := [a] + run;
    }
  }

  lemma {:induction false} RunExtends(cfg: Config, s: Cluster, run: seq<Action>, s': Cluster, a: Action)
    requires Reaches(cfg, s, run, s') && Enabled(cfg, s', a)
    ensures Reaches(cfg, s, run + [a], Apply(cfg, s', a))
    decreases |run|
  {
    if run == [] {
      assert Reaches(cfg, Apply(cfg, s, a), [], Apply(cfg, s, a));
    } else {
      RunExtends(cfg, Apply(cfg, s, run[0]), run[1..], s', a);
      assert (run + [a])[1..] == run[1..] + [a];
    }
  }

  /** One more request that misses at its node and gets as far as singleflight lets it. */
  lemma MissAndJoin(cfg: Config, run: seq<Action>, s: Cluster, r: Rid) returns (longer: seq<Action>, s': Cluster)
    requires Reaches(cfg, Init, run, s) && s.At(r, Arrived) && s.requests[r].key != "" && s.caches == map[]
    ensures Reaches(cfg, Init, longer, s')
    ensures
      var f := (s.requests[r].node, s.requests[r].key);
      s' == if f in s.flights then s.To(r, Joined(s.flights[f]))
            else s.To(r, Leading).(flights := s.flights[f := r])
  {
    var mid := Apply(cfg, s, LookUp(r));
    RunExtends(cfg, Init, run, s, LookUp(r));
    RunExtends(cfg, Init, run + [LookUp(r)], mid, Join(r));
    longer, s' := run + [LookUp(r)] + [Join(r)], Apply(cfg, mid, Join(r));
  }

  /** And the leader forwards its key to the peer. */
  lemma AskPeer(cfg: Config, run: seq<Action>, s: Cluster, r: Rid, child: Rid, peer: Node)
    returns (longer: seq<Action>, s': Cluster)
    requires Reaches(cfg, Init, run, s) && s.At(r, Leading) && child !in s.requests
    requires cfg.pick(s.requests[r].node, s.requests[r].key) == Some(peer)
    ensures Reaches(cfg, Init, longer, s')
    ensures s' == s.(requests := s.requests[r := s.requests[r].(stage := Asking(child))]
                                           [child := Request(peer, s.requests[r].key, Some(r), Arrived)])
  {
    RunExtends(cfg, Init, run, s, Pick(r, child));
    longer, s' := run + [Pick(r, child)], Apply(cfg, s, Pick(r, child));
  }

  /** Three requests that wait for each other in a circle. */
  predicate Circle(s: Cluster) {
    s.requests.Keys == {0, 1, 2} && s.At(0, Asking(1)) && s.At(1, Asking(2)) && s.At(2, Joined(0))
  }

  lemma CircleIsStuck(cfg: Config, s: Cluster, c: Action)
    requires Circle(s) && Enabled(cfg, s, c)
    ensures c.Arrive? || c.PeerFails?
  {
  }

  /**
   Two nodes that take each other for the owner of a key, as HttpPool.PeersBounce
   shows they may, lock up on the first Get for it: the forwarded request comes
   back and joins the very flight that waits for it. Only a failure of the
   connection between them gets anything going again.
   */
  lemma BouncingPeersDeadlock(cfg: Config, a: Node, b: Node, key: string)
    returns (run: seq<Action>, s: Cluster)
    requires key != "" && a != b && cfg.pick(a, key) == Some(b) && cfg.pick(b, key) == Some(a)
    ensures Reaches(cfg, Init, run, s) && Circle(s)
    ensures forall c :: Enabled(cfg, s, c) ==> c.Arrive? || c.PeerFails?
  {
    run, s := FirstGetForwarded(cfg, a, b, key);
    run, s := MissAndJoin(cfg, run, s, 1);
    run, s := AskPeer(cfg, run, s, 1, 2, a);
    run, s := MissAndJoin(cfg, run, s, 2);
    forall c | Enabled(cfg, s, c) ensures c.Arrive? || c.PeerFails? { CircleIsStuck(cfg, s, c); }
  }

  /** A first Get at `a`, up to where its key has arrived at `b`. */
  lemma FirstGetForwarded(cfg: Config, a: Node, b: Node, key: string) returns (run: seq<Action>, s: Cluster)
    requires key != "" && cfg.pick(a, key) == Some(b)
    ensures Reaches(cfg, Init, run, s)
    ensures s == Init.(
      flights := map[(a, key) := 0],
      requests := map[0 := Request(a, key, None, Asking(1)), 1 := Request(b, key, Some(0), Arrived)])
  {
    run, s := [Arrive(0, a, key)], Apply(cfg, Init, Arrive(0, a, key));
    RunExtends(cfg, Init, [], Init, Arrive(0, a, key));
    run, s := MissAndJoin(cfg, run, s, 0);
    run, s := AskPeer(cfg, run, s, 0, 1, b);
  }
}
