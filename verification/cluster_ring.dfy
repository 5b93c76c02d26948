/** The cluster with the forwarding decision that its nodes' rings make. */
module ClusterRing {
  import opened Wrappers
  import opened HttpPool
  import C = Cluster
  import P = ClusterProgress
  import ConsistentHash

  /** Every node forwards by a ring of its own, made from its list of the same peers. */
  ghost predicate Configured(
    cfg: C.Config, hash: ConsistentHash.Hash, peers: seq<string>, list: C.Node -> seq<string>)
  {
    && (forall n :: SameNodes(list(n), peers))
    && (forall n, key :: cfg.pick(n, key) == Forward(hash, list(n), n, key))
  }

  /** Without shared ring points, no forwarded request is forwarded again, whatever the order of the lists. */
  lemma ForwardedOnce(
    cfg: C.Config, hash: ConsistentHash.Hash, peers: seq<string>, list: C.Node -> seq<string>,
    run: seq<C.Action>, s: C.Cluster, r: C.Rid)
    requires Configured(cfg, hash, peers, list) && forall a, b :: !NamedShare(hash, peers, a, b)
    requires C.Reaches(cfg, C.Init, run, s) && r in s.requests && s.requests[r].parent.Some?
    ensures !s.requests[r].stage.Asking?
  {
    OwnersServeThen(cfg, hash, peers, list);
    C.ChainsHaveOneHop(cfg, run, s, r);
  }

  lemma OwnersServeThen(cfg: C.Config, hash: ConsistentHash.Hash, peers: seq<string>, list: C.Node -> seq<string>)
    requires Configured(cfg, hash, peers, list) && forall a, b :: !NamedShare(hash, peers, a, b)
    ensures C.OwnersServe(cfg)
  {
    forall n, key | cfg.pick(n, key).Some? ensures cfg.pick(cfg.pick(n, key).value, key) == None {
      var owner := cfg.pick(n, key).value;
      assert SameNodes(list(n), peers) && cfg.pick(n, key) == Forward(hash, list(n), n, key);
      assert SameNodes(list(owner), peers) && cfg.pick(owner, key) == Forward(hash, list(owner), owner, key);
      ForwardedIsServedLocally(hash, peers, list(n), list(owner), n, key);
    }
  }

  /** The lists differ in nothing but their order. */
  ghost predicate AllReordered(list: C.Node -> seq<string>, peers: seq<string>) {
    forall n :: Reordered(list(n), peers)
  }

  /** With two peers that share a ring point, there are orders of the lists for which one Get locks the cluster up. */
  lemma SharedPointCanDeadlock(
    hash: ConsistentHash.Hash, peers: seq<string>, limit: C.Node -> nat, source: map<string, string>,
    a: string, b: string)
    returns (cfg: C.Config, list: C.Node -> seq<string>, run: seq<C.Action>, s: C.Cluster)
    requires NamedShare(hash, peers, a, b)
    ensures cfg == C.Config(limit, source, cfg.pick) && Configured(cfg, hash, peers, list) && AllReordered(list, peers)
    ensures C.Reaches(cfg, C.Init, run, s) && P.Circle(s)
    ensures forall c :: C.Enabled(cfg, s, c) ==> c.Arrive? || c.PeerFails?
  {
    var key := PeersBounce(hash, peers, a, b);
    ReorderedAreSame(MovedLast(peers, a), peers);
    ReorderedAreSame(MovedLast(peers, b), peers);
    list := n => MovedLast(peers, if n == a then b else a);
    var lists := list;
    cfg := C.Config(limit, source, (n, k) => Forward(hash, lists(n), n, k));
    run, s := P.BouncingPeersDeadlock(cfg, a, b, key);
  }

  /** In every reachable state each Get that has not ended can get nearer to its end. */
  ghost predicate NeverStuck(cfg: C.Config) {
    forall run, s, r: C.Rid :: C.Reaches(cfg, C.Init, run, s) && r in s.requests && !s.requests[r].stage.Finished? ==>
      exists a :: P.Productive(cfg, s, a) && P.Waits(s, r, a.r, P.DEPTH)
  }

  /**
   A cluster with these limits and this source is never stuck, however each
   node's list of the peers is ordered, exactly when no two named peers share
   a ring point.
   */
  lemma NeverStuckIff(
    hash: ConsistentHash.Hash, peers: seq<string>, limit: C.Node -> nat, source: map<string, string>)
    ensures (forall a, b :: !NamedShare(hash, peers, a, b)) <==>
      forall pick, list: C.Node -> seq<string> ::
        Configured(C.Config(limit, source, pick), hash, peers, list) && AllReordered(list, peers) ==>
          NeverStuck(C.Config(limit, source, pick))
  {
    if a, b :| NamedShare(hash, peers, a, b) {
      var cfg, list, run, s := SharedPointCanDeadlock(hash, peers, limit, source, a, b);
      CircleHasNoProductiveStep(cfg, s);
      assert !NeverStuck(cfg);
    } else {
      forall pick, list: C.Node -> seq<string> |
        Configured(C.Config(limit, source, pick), hash, peers, list) && AllReordered(list, peers)
        ensures NeverStuck(C.Config(limit, source, pick))
      {
        SeparatePointsNeverStuck(C.Config(limit, source, pick), hash, peers, list);
      }
    }
  }

  lemma CircleHasNoProductiveStep(cfg: C.Config, s: C.Cluster)
    requires P.Circle(s)
    ensures forall a :: !P.Productive(cfg, s, a)
  {
    forall a ensures !P.Productive(cfg, s, a) {
      if C.Enabled(cfg, s, a) { P.CircleIsStuck(cfg, s, a); }
    }
  }

  lemma SeparatePointsNeverStuck(
    cfg: C.Config, hash: ConsistentHash.Hash, peers: seq<string>, list: C.Node -> seq<string>)
    requires Configured(cfg, hash, peers, list) && forall a, b :: !NamedShare(hash, peers, a, b)
    ensures NeverStuck(cfg)
  {
    OwnersServeThen(cfg, hash, peers, list);
    forall run, s, r: C.Rid | C.Reaches(cfg, C.Init, run, s) && r in s.requests && !s.requests[r].stage.Finished?
      ensures exists a :: P.Productive(cfg, s, a) && P.Waits(s, r, a.r, P.DEPTH)
    {
      var a := P.GetsNeverDeadlock(cfg, run, s, r);
    }
  }
}
