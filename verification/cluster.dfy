/**
 A cluster of GeeCache nodes that share one constant source: requests arrive
 at any node, go through that node's cache and singleflight, and may be
 forwarded to a peer, where they are requests in their turn. Everything
 interleaves, peers fail at any time, and caches evict.

 Creating, publishing and deleting a flight are cut more finely in
 Singleflight; here a leader publishes its result and deletes its entry at once.
 */
module Cluster {
  import opened Wrappers
  import opened Recency
  import opened LruStack

  type Node = string
  type Rid = nat

  /** Byte limits, the source, and the ring's decision as a node takes it: the peer to ask, if any. */
  datatype Config = Config(limit: Node -> nat, source: Source, pick: (Node, string) -> Option<Node>)

  datatype Stage =
    | Arrived
    | Missed
    | Leading
    | Asking(child: Rid)
    | Loading
    | Joined(leader: Rid)
    | Finished(result: Option<string>)
  {
    predicate Leads() { Leading? || Asking? || Loading? }
  }

  /** One Get at one node; `parent` is the request that was forwarded, if it was. */
  datatype Request = Request(node: Node, key: string, parent: Option<Rid>, stage: Stage)

  /** `failed` is history: the nodes and keys for which asking the peer failed. */
  datatype Cluster = Cluster(
    caches: map<Node, Entries>,
    flights: map<(Node, string), Rid>,
    requests: map<Rid, Request>,
    failed: set<(Node, string)>)
  {
    function Cache(n: Node): Entries { if n in caches then caches[n] else [] }

    /** Request `r` goes to another stage. */
    function To(r: Rid, stage: Stage): Cluster
      requires r in requests
    {
      this.(requests := requests[r := requests[r].(stage := stage)])
    }

    /** The leader `r` returns from fn. */
    function Land(r: Rid, result: Option<string>): Cluster
      requires r in requests
    {
      To(r, Finished(result)).(flights := flights - {(requests[r].node, requests[r].key)})
    }

    predicate At(r: Rid, stage: Stage) { r in requests && requests[r].stage == stage }
  }

  datatype Action =
    | Arrive(r: Rid, node: Node, key: string)
    | LookUp(r: Rid)
    | Join(r: Rid)
    | Pick(r: Rid, child: Rid)
    | PeerAnswers(r: Rid)
    | PeerFails(r: Rid)
    | Load(r: Rid)
    | Wake(r: Rid)

  const Init := Cluster(map[], map[], map[], {})

  predicate Enabled(cfg: Config, s: Cluster, a: Action) {
    match a
    case Arrive(r, _, _) => r !in s.requests
    case LookUp(r) => s.At(r, Arrived)
    case Join(r) => s.At(r, Missed)
    case Pick(r, child) => s.At(r, Leading) && child !in s.requests
    case PeerAnswers(r) =>
      r in s.requests && s.requests[r].stage.Asking? &&
      var c := s.requests[r].stage.child;
      c in s.requests && s.requests[c].stage.Finished? && s.requests[c].stage.result.Some?
    case PeerFails(r) => r in s.requests && s.requests[r].stage.Asking?
    case Load(r) => s.At(r, Loading)
    case Wake(r) =>
      r in s.requests && s.requests[r].stage.Joined? &&
      var l := s.requests[r].stage.leader; l in s.requests && s.requests[l].stage.Finished?
  }

  function LookedUp(s: Cluster, r: Rid): Cluster
    requires r in s.requests
  {
    var n, key := s.requests[r].node, s.requests[r].key;
    if key == "" then s.To(r, Finished(Some("")))
    else
      match Lookup(s.Cache(n), key)
      case None => s.To(r, Missed)
      case Some(v) => s.To(r, Finished(Some(v))).(caches := s.caches[n := Touch(s.Cache(n), key)])
  }

  /** getLocally */
  function Loaded(cfg: Config, s: Cluster, r: Rid): Cluster
    requires r in s.requests
  {
    var n, key := s.requests[r].node, s.requests[r].key;
    if key !in cfg.source then s.Land(r, None)
    else
      s.Land(r, Some(cfg.source[key]))
       .(caches := s.caches[n := Fit(cfg.limit(n), Put(s.Cache(n), key, cfg.source[key]))])
  }

  function Apply(cfg: Config, s: Cluster, a: Action): Cluster
    requires Enabled(cfg, s, a)
  {
    match a
    case Arrive(r, node, key) => s.(requests := s.requests[r := Request(node, key, None, Arrived)])
    case LookUp(r) => LookedUp(s, r)
    case Join(r) =>
      var q := s.requests[r];
      if (q.node, q.key) in s.flights then s.To(r, Joined(s.flights[(q.node, q.key)]))
      else s.To(r, Leading).(flights := s.flights[(q.node, q.key) := r])
    case Pick(r, child) =>
      var q := s.requests[r];
      (match cfg.pick(q.node, q.key)
       case None => s.To(r, Loading)
       case Some(peer) =>
         var s' := s.To(r, Asking(child));
         s'.(requests := s'.requests[child := Request(peer, q.key, Some(r), Arrived)]))
    case PeerAnswers(r) => s.Land(r, s.requests[s.requests[r].stage.child].stage.result)
    case PeerFails(r) => s.To(r, Loading).(failed := s.failed + {(s.requests[r].node, s.requests[r].key)})
    case Load(r) => Loaded(cfg, s, r)
    case Wake(r) => s.To(r, s.requests[s.requests[r].stage.leader].stage)
  }

  predicate Reaches(cfg: Config, s: Cluster, run: seq<Action>, s': Cluster)
    decreases |run|
  {
    if run == [] then s == s'
    else Enabled(cfg, s, run[0]) && Reaches(cfg, Apply(cfg, s, run[0]), run[1..], s')
  }

  // ---------------------------------------------------------------- invariant

  /** What a Get for `key` may return: the source's value, or an error if it has none. */
  predicate RightAnswer(source: Source, key: string, result: Option<string>) {
    result == if key == "" then Some("") else if key in source then Some(source[key]) else None
  }

  /** A node may cache the keys it serves itself, and those for which its peer has failed it. */
  predicate MayCache(cfg: Config, s: Cluster, n: Node, key: string) {
    cfg.pick(n, key) == None || (n, key) in s.failed
  }

  predicate RequestOk(cfg: Config, s: Cluster, r: Rid)
    requires r in s.requests
  {
    var q := s.requests[r];
    && (!q.stage.Arrived? && !q.stage.Finished? ==> q.key != "")
    && (q.stage.Leads() ==> (q.node, q.key) in s.flights && s.flights[(q.node, q.key)] == r)
    && (q.stage.Loading? ==> MayCache(cfg, s, q.node, q.key))
    && (q.stage.Finished? ==> RightAnswer(cfg.source, q.key, q.stage.result))
    && (q.stage.Asking? ==>
          cfg.pick(q.node, q.key).Some? && q.stage.child in s.requests && s.requests[q.stage.child].key == q.key &&
          s.requests[q.stage.child].parent == Some(r))
    && (q.stage.Joined? ==>
          q.stage.leader in s.requests && s.requests[q.stage.leader].key == q.key &&
          s.requests[q.stage.leader].node == q.node &&
          (s.requests[q.stage.leader].stage.Leads() || s.requests[q.stage.leader].stage.Finished?))
    && (q.parent.Some? ==>
          q.parent.value in s.requests && cfg.pick(s.requests[q.parent.value].node, q.key) == Some(q.node))
  }

  predicate FlightOk(s: Cluster, f: (Node, string))
    requires f in s.flights
  {
    s.flights[f] in s.requests &&
    var q := s.requests[s.flights[f]]; q.node == f.0 && q.key == f.1 && q.stage.Leads()
  }

  ghost predicate CacheOk(cfg: Config, s: Cluster, n: Node) {
    Mirrors(cfg.source, s.Cache(n)) &&
    forall i :: 0 <= i < |s.Cache(n)| ==> s.Cache(n)[i].key != "" && MayCache(cfg, s, n, s.Cache(n)[i].key)
  }

  ghost predicate Inv(cfg: Config, s: Cluster) {
    && (forall r :: r in s.requests ==> RequestOk(cfg, s, r))
    && (forall f :: f in s.flights ==> FlightOk(s, f))
    && (forall n: Node :: CacheOk(cfg, s, n))
  }

  lemma StepKeepsFlight(cfg: Config, s: Cluster, a: Action, f: (Node, string))
    requires Enabled(cfg, s, a) && f in Apply(cfg, s, a).flights
    requires f in s.flights ==> FlightOk(s, f)
    requires a.r in s.requests ==> RequestOk(cfg, s, a.r)
    ensures FlightOk(Apply(cfg, s, a), f)
  {
  }

  /** What a cache keeps when a right entry is put in front and the list is cut to size. */
  lemma PutKeepsCache(cfg: Config, s: Cluster, n: Node, limit: nat, key: string, s': Cluster)
    requires CacheOk(cfg, s, n) && key in cfg.source && key != "" && MayCache(cfg, s, n, key)
    requires s'.Cache(n) == Fit(limit, Put(s.Cache(n), key, cfg.source[key])) && s.failed <= s'.failed
    ensures CacheOk(cfg, s', n)
  {
    var t := s.Cache(n);
    PutMirrors(cfg.source, t, key);
    FitIsLongest(limit, Put(t, key, cfg.source[key]), 0);
    var i := LookupPosition(t, key);
    if Lookup(t, key).Some? { WithoutAt(t, i); } else { WithoutAbsent(t, key); }
  }

  lemma StepKeepsCache(cfg: Config, s: Cluster, a: Action, n: Node)
    requires Enabled(cfg, s, a) && CacheOk(cfg, s, n)
    requires a.r in s.requests ==> RequestOk(cfg, s, a.r)
    ensures CacheOk(cfg, Apply(cfg, s, a), n)
  {
    var s' := Apply(cfg, s, a);
    if (a.LookUp? || a.Load?) && s.requests[a.r].node == n {
      var key := s.requests[a.r].key;
      var i := LookupPosition(s.Cache(n), key);
      if a.Load? && key in cfg.source {
        PutKeepsCache(cfg, s, n, cfg.limit(n), key, s');
      } else if a.LookUp? && key != "" && Lookup(s.Cache(n), key).Some? {
        PutKeepsCache(cfg, s, n, 0, key, s');
      }
    }
  }

  /** The requests whose stage a step of `a.r` depends upon. */
  ghost predicate PartnersOk(cfg: Config, s: Cluster, a: Action) {
    && (a.r in s.requests ==> RequestOk(cfg, s, a.r))
    && (a.Join? && a.r in s.requests && (s.requests[a.r].node, s.requests[a.r].key) in s.flights ==>
          FlightOk(s, (s.requests[a.r].node, s.requests[a.r].key)))
    && (a.PeerAnswers? && a.r in s.requests && s.requests[a.r].stage.Asking? &&
        s.requests[a.r].stage.child in s.requests ==>
          RequestOk(cfg, s, s.requests[a.r].stage.child))
    && (a.Wake? && a.r in s.requests && s.requests[a.r].stage.Joined? && s.requests[a.r].stage.leader in s.requests ==>
          RequestOk(cfg, s, s.requests[a.r].stage.leader))
    && (a.LookUp? && a.r in s.requests ==> CacheOk(cfg, s, s.requests[a.r].node))
  }

  lemma OwnStepKeepsRequest(cfg: Config, s: Cluster, a: Action)
    requires Enabled(cfg, s, a) && PartnersOk(cfg, s, a)
    ensures RequestOk(cfg, Apply(cfg, s, a), a.r)
  {
    if a.LookUp? {
      LookUpKeepsRequest(cfg, s, a.r);
    } else if a.Join? {
      JoinKeepsRequest(cfg, s, a);
    }
  }

  lemma LookUpKeepsRequest(cfg: Config, s: Cluster, r: Rid)
    requires Enabled(cfg, s, LookUp(r)) && RequestOk(cfg, s, r) && CacheOk(cfg, s, s.requests[r].node)
    ensures RequestOk(cfg, Apply(cfg, s, LookUp(r)), r)
  {
    var q := s.requests[r];
    var i := LookupPosition(s.Cache(q.node), q.key);
  }

  lemma JoinKeepsRequest(cfg: Config, s: Cluster, a: Action)
    requires a.Join? && Enabled(cfg, s, a) && PartnersOk(cfg, s, a)
    ensures RequestOk(cfg, Apply(cfg, s, a), a.r)
  {
  }

  lemma PickKeepsOtherRequest(cfg: Config, s: Cluster, a: Action, r: Rid)
    requires a.Pick? && Enabled(cfg, s, a) && RequestOk(cfg, s, a.r)
    requires r in Apply(cfg, s, a).requests && r != a.r
    requires r in s.requests ==> RequestOk(cfg, s, r)
    ensures RequestOk(cfg, Apply(cfg, s, a), r)
  {
  }

  /** Steps that bring a leader's flight to its end. */
  predicate Lands(a: Action) { a.PeerAnswers? || a.Load? }

  lemma LandingKeepsOtherRequest(cfg: Config, s: Cluster, a: Action, r: Rid)
    requires Lands(a) && Enabled(cfg, s, a) && a.r in s.requests && RequestOk(cfg, s, a.r)
    requires r in s.requests && r != a.r && RequestOk(cfg, s, r)
    ensures RequestOk(cfg, Apply(cfg, s, a), r)
  {
  }

  lemma OtherStepKeepsRequest(cfg: Config, s: Cluster, a: Action, r: Rid)
    requires !a.Pick? && !Lands(a) && Enabled(cfg, s, a) && (a.r in s.requests ==> RequestOk(cfg, s, a.r))
    requires r in s.requests && r != a.r && RequestOk(cfg, s, r)
    ensures RequestOk(cfg, Apply(cfg, s, a), r)
  {
  }

  lemma StepKeepsInv(cfg: Config, s: Cluster, a: Action)
    requires Inv(cfg, s) && Enabled(cfg, s, a)
    ensures Inv(cfg, Apply(cfg, s, a))
  {
    var s' := Apply(cfg, s, a);
    forall r | r in s'.requests ensures RequestOk(cfg, s', r) {
      if r == a.r {
        OwnStepKeepsRequest(cfg, s, a);
      } else if a.Pick? {
        PickKeepsOtherRequest(cfg, s, a, r);
      } else if Lands(a) {
        LandingKeepsOtherRequest(cfg, s, a, r);
      } else {
        OtherStepKeepsRequest(cfg, s, a, r);
      }
    }
    forall f | f in s'.flights ensures FlightOk(s', f) { StepKeepsFlight(cfg, s, a, f); }
    forall n: Node ensures CacheOk(cfg, s', n) { StepKeepsCache(cfg, s, a, n); }
  }

  lemma {:induction false} RunKeepsInv(cfg: Config, s: Cluster, run: seq<Action>, s': Cluster)
    requires Inv(cfg, s) && Reaches(cfg, s, run, s')
    ensures Inv(cfg, s')
    decreases |run|
  {
    if run != [] {
      StepKeepsInv(cfg, s, run[0]);
      RunKeepsInv(cfg, Apply(cfg, s, run[0]), run[1..], s');
    }
  }

  // ------------------------------------------------------------- main results

  /** Every Get that returns has the source's answer, wherever it was served: errors too are the source's own. */
  lemma EveryAnswerIsRight(cfg: Config, run: seq<Action>, s: Cluster, r: Rid)
    requires Reaches(cfg, Init, run, s) && r in s.requests && s.requests[r].stage.Finished?
    ensures RightAnswer(cfg.source, s.requests[r].key, s.requests[r].stage.result)
  {
    RunKeepsInv(cfg, Init, run, s);
    assert RequestOk(cfg, s, r);
  }

  /** Every cached entry equals the source, and a node that is not the owner caches a key only after its peer failed. */
  lemma EveryCachedEntryIsRight(cfg: Config, run: seq<Action>, s: Cluster, n: Node, i: nat)
    requires Reaches(cfg, Init, run, s) && i < |s.Cache(n)|
    ensures
      var e := s.Cache(n)[i];
      && e.key in cfg.source && cfg.source[e.key] == e.value
      && (cfg.pick(n, e.key) == None || (n, e.key) in s.failed)
  {
    RunKeepsInv(cfg, Init, run, s);
    assert CacheOk(cfg, s, n);
  }

  /** What HttpPool proves of rings without shared points: the peer that is asked does not ask further. */
  ghost predicate OwnersServe(cfg: Config) {
    forall n, key :: cfg.pick(n, key).Some? ==> cfg.pick(cfg.pick(n, key).value, key) == None
  }

  /** Then no forwarded request is ever forwarded again. */
  lemma ChainsHaveOneHop(cfg: Config, run: seq<Action>, s: Cluster, r: Rid)
    requires OwnersServe(cfg) && Reaches(cfg, Init, run, s)
    requires r in s.requests && s.requests[r].parent.Some?
    ensures !s.requests[r].stage.Asking?
  {
    RunKeepsInv(cfg, Init, run, s);
    assert RequestOk(cfg, s, r);
  }
}
