/** What the caches of a GeeCache cluster do, and how its requests and failures follow from what has happened. */
module ClusterHistory {
  import opened Wrappers
  import opened Recency
  import opened LruStack
  import opened Cluster

  // ---------------------------------------------------------------- what the caches do

  /** A load puts the source's entry in front of the node's cache if it fits there on its own, and empties it if not. */
  lemma LoadCaches(cfg: Config, run: seq<Action>, s: Cluster, r: Rid)
    requires Reaches(cfg, Init, run, s) && Enabled(cfg, s, Load(r)) && s.requests[r].key in cfg.source
    ensures
      var n, key, limit := s.requests[r].node, s.requests[r].key, cfg.limit(s.requests[r].node);
      var after := Apply(cfg, s, Load(r)).Cache(n);
      if limit == 0 || |key| + |cfg.source[key]| <= limit
      then after != [] && after[0] == Entry(key, cfg.source[key]) else after == []
  {
    var n, key := s.requests[r].node, s.requests[r].key;
    var e := Entry(key, cfg.source[key]);
    var whole := Put(s.Cache(n), key, cfg.source[key]);
    StaysIff(cfg.limit(n), whole, 1);
    FitIsLongest(cfg.limit(n), whole, 0);
    SizeCountsKeysAndValues([], key, cfg.source[key]);
    assert whole[..1] == [e] == [] + [e];
  }

  /** A Get for a cached key ends at once with the cached value, and makes the key the most recent one of its node. */
  lemma CachedKeyIsServed(cfg: Config, run: seq<Action>, s: Cluster, r: Rid, i: nat)
    requires Reaches(cfg, Init, run, s) && Enabled(cfg, s, LookUp(r)) && i < |s.Cache(s.requests[r].node)|
    requires s.Cache(s.requests[r].node)[i].key == s.requests[r].key
    ensures
      var n, was := s.requests[r].node, s.Cache(s.requests[r].node);
      var s' := Apply(cfg, s, LookUp(r));
      && s'.requests[r].stage == Finished(Some(was[i].value))
      && s'.Cache(n) == [was[i]] + was[..i] + was[i + 1..]
  {
    RunKeepsInv(cfg, Init, run, s);
    var was := s.Cache(s.requests[r].node);
    assert CacheOk(cfg, s, s.requests[r].node);
    LookupAt(was, i);
    WithoutAt(was, i);
  }

  /** A node's cache changes only by a load or a hit of its own. */
  lemma OthersLeaveCache(cfg: Config, s: Cluster, a: Action, n: Node)
    requires Enabled(cfg, s, a)
    requires !((a.Load? || a.LookUp?) && s.requests[a.r].node == n)
    ensures Apply(cfg, s, a).Cache(n) == s.Cache(n)
  {
  }

  predicate WithinLimit(cfg: Config, s: Cluster, n: Node) { cfg.limit(n) == 0 || Size(s.Cache(n)) <= cfg.limit(n) }

  lemma StepKeepsLimit(cfg: Config, s: Cluster, a: Action, n: Node)
    requires Enabled(cfg, s, a) && CacheOk(cfg, s, n) && WithinLimit(cfg, s, n)
    ensures WithinLimit(cfg, Apply(cfg, s, a), n)
  {
    if a.Load? && s.requests[a.r].node == n {
      var key := s.requests[a.r].key;
      if key in cfg.source { FitIsLongest(cfg.limit(n), Put(s.Cache(n), key, cfg.source[key]), 0); }
    } else if a.LookUp? && s.requests[a.r].node == n {
      HitKeepsSize(s.Cache(n), s.requests[a.r].key);
    } else {
      OthersLeaveCache(cfg, s, a, n);
    }
  }

  lemma HitKeepsSize(s: Entries, key: string)
    requires Distinct(s)
    ensures Size(Touch(s, key)) == Size(s)
  {
    var i := LookupPosition(s, key);
    if Lookup(s, key).Some? { TouchKeepsSize(s, i); }
  }

  lemma {:induction false} RunKeepsLimit(cfg: Config, s: Cluster, run: seq<Action>, s': Cluster, n: Node)
    requires Inv(cfg, s) && WithinLimit(cfg, s, n) && Reaches(cfg, s, run, s')
    ensures WithinLimit(cfg, s', n)
    decreases |run|
  {
    if run != [] {
      assert CacheOk(cfg, s, n);
      StepKeepsLimit(cfg, s, run[0], n);
      StepKeepsInv(cfg, s, run[0]);
      RunKeepsLimit(cfg, Apply(cfg, s, run[0]), run[1..], s', n);
    }
  }

  /** In every run each node's cache stays within its own limit. */
  lemma CachesStayWithinTheirLimits(cfg: Config, run: seq<Action>, s: Cluster, n: Node)
    requires Reaches(cfg, Init, run, s)
    ensures cfg.limit(n) == 0 || Size(s.Cache(n)) <= cfg.limit(n)
  {
    RunKeepsLimit(cfg, Init, run, s, n);
  }

  // ---------------------------------------------------------------- where requests come from

  /** A request is one that arrived, or one that its parent forwarded, for the parent's key and to the peer picked. */
  ghost predicate Traced(cfg: Config, past: seq<Action>, s: Cluster, r: Rid)
    requires r in s.requests
  {
    var q := s.requests[r];
    match q.parent
    case None => Arrive(r, q.node, q.key) in past
    case Some(p) =>
      p in s.requests && Pick(p, r) in past && s.requests[p].key == q.key &&
      cfg.pick(s.requests[p].node, q.key) == Some(q.node)
  }

  lemma StepIsTraced(cfg: Config, past: seq<Action>, s: Cluster, a: Action, r: Rid)
    requires Enabled(cfg, s, a) && r in Apply(cfg, s, a).requests && (r in s.requests ==> Traced(cfg, past, s, r))
    ensures Traced(cfg, past + [a], Apply(cfg, s, a), r)
  {
    if r in s.requests {
      StaysTraced(cfg, past, s, a, r);
    } else if a.Pick? {
      assert Traced(cfg, past + [a], Apply(cfg, s, a), r);
    }
  }

  lemma StaysTraced(cfg: Config, past: seq<Action>, s: Cluster, a: Action, r: Rid)
    requires Enabled(cfg, s, a) && r in s.requests && Traced(cfg, past, s, r)
    ensures r in Apply(cfg, s, a).requests && Traced(cfg, past + [a], Apply(cfg, s, a), r)
  {
    KeepsNodeAndKey(cfg, s, a, r);
    if s.requests[r].parent.Some? { KeepsNodeAndKey(cfg, s, a, s.requests[r].parent.value); }
  }

  lemma {:induction false} RunIsTraced(cfg: Config, past: seq<Action>, s: Cluster, run: seq<Action>, s': Cluster)
    requires (forall r :: r in s.requests ==> Traced(cfg, past, s, r)) && Reaches(cfg, s, run, s')
    ensures forall r :: r in s'.requests ==> Traced(cfg, past + run, s', r)
    decreases |run|
  {
    if run == [] {
      assert past + [] == past;
    } else {
      var mid := Apply(cfg, s, run[0]);
      forall r | r in mid.requests ensures Traced(cfg, past + [run[0]], mid, r) {
        StepIsTraced(cfg, past, s, run[0], r);
      }
      RunIsTraced(cfg, past + [run[0]], mid, run[1..], s');
      assert past + [run[0]] + run[1..] == past + run;
    }
  }

  /** For each node and key in `failed` a request there for that key has lost its peer. */
  ghost predicate LostPeer(past: seq<Action>, s: Cluster, n: Node, key: string) {
    exists r :: PeerFails(r) in past && r in s.requests && s.requests[r].node == n && s.requests[r].key == key
  }

  lemma StepKeepsLost(cfg: Config, past: seq<Action>, s: Cluster, a: Action, f: (Node, string))
    requires Enabled(cfg, s, a) && f in Apply(cfg, s, a).failed && (f in s.failed ==> LostPeer(past, s, f.0, f.1))
    ensures LostPeer(past + [a], Apply(cfg, s, a), f.0, f.1)
  {
    if f in s.failed {
      var r :| PeerFails(r) in past && r in s.requests && s.requests[r].node == f.0 && s.requests[r].key == f.1;
      KeepsNodeAndKey(cfg, s, a, r);
      assert PeerFails(r) in past + [a];
    } else {
      assert PeerFails(a.r) in past + [a];
    }
  }

  lemma KeepsNodeAndKey(cfg: Config, s: Cluster, a: Action, r: Rid)
    requires Enabled(cfg, s, a) && r in s.requests
    ensures
      var after := Apply(cfg, s, a).requests;
      && r in after && after[r].node == s.requests[r].node && after[r].key == s.requests[r].key
      && after[r].parent == s.requests[r].parent
  {
  }

  lemma {:induction false} RunKeepsLost(cfg: Config, past: seq<Action>, s: Cluster, run: seq<Action>, s': Cluster)
    requires (forall f :: f in s.failed ==> LostPeer(past, s, f.0, f.1)) && Reaches(cfg, s, run, s')
    ensures forall f :: f in s'.failed ==> LostPeer(past + run, s', f.0, f.1)
    decreases |run|
  {
    if run == [] {
      assert past + [] == past;
    } else {
      var mid := Apply(cfg, s, run[0]);
      forall f | f in mid.failed ensures LostPeer(past + [run[0]], mid, f.0, f.1) {
        StepKeepsLost(cfg, past, s, run[0], f);
      }
      RunKeepsLost(cfg, past + [run[0]], mid, run[1..], s');
      assert past + [run[0]] + run[1..] == past + run;
    }
  }

  /** A node has cached a key that it would forward only if a peer it had asked for that key failed in this run. */
  lemma OthersKeysOnlyAfterPeerFailed(cfg: Config, run: seq<Action>, s: Cluster, n: Node, i: nat)
    requires Reaches(cfg, Init, run, s) && i < |s.Cache(n)| && cfg.pick(n, s.Cache(n)[i].key).Some?
    ensures LostPeer(run, s, n, s.Cache(n)[i].key)
  {
    EveryCachedEntryIsRight(cfg, run, s, n, i);
    RunKeepsLost(cfg, [], Init, run, s);
    assert [] + run == run;
    assert (n, s.Cache(n)[i].key) in s.failed;
  }

  /** Every request is for the key it arrived with, or its parent has, at the node it came to or was forwarded to. */
  lemma RequestsAreAsTheyCame(cfg: Config, run: seq<Action>, s: Cluster, r: Rid)
    requires Reaches(cfg, Init, run, s) && r in s.requests
    ensures Traced(cfg, run, s, r)
  {
    RunIsTraced(cfg, [], Init, run, s);
    assert [] + run == run;
  }
}
