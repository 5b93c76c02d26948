/** How the nodes of a GeeCache cluster decide which of them serves a key. */
module HttpPool {
  import opened Wrappers
  import opened ConsistentHash

  const REPLICAS := 50
  const BASE_PATH := "/_geecache/"

  class HTTPPool {
    const self: string
    const hash: Hash
    var peers: Ring?
    /** The base URL of each peer's httpGetter. */
    var httpGetters: map<string, string>

    /** What `Set` establishes: every owner on the ring is a peer with a getter. */
    ghost predicate Valid(names: seq<string>)
      reads this, peers
    {
      && peers != null && peers.Valid() && peers.hash == hash
      && peers.hashmap == Added(hash, REPLICAS, map[], names)
      && forall name :: name in names ==> name in httpGetters && httpGetters[name] == name + BASE_PATH
    }

    constructor (self: string, hash: Hash)
      ensures this.self == self && this.hash == hash && peers == null
    {
      this.self, this.hash, peers, httpGetters := self, hash, null, map[];
    }

    method Set(names: seq<string>)
      modifies this
      ensures Valid(names)
    {
      var ring := new Ring(REPLICAS, hash);
      ring.Add(names);
      peers := ring;
      httpGetters := map[];
      var k := 0;
      while k < |names|
        invariant 0 <= k <= |names|
        invariant peers == ring && ring.Valid() && ring.hash == hash
        invariant ring.hashmap == Added(hash, REPLICAS, map[], names)
        invariant forall name :: name in names[..k] ==> name in httpGetters && httpGetters[name] == name + BASE_PATH
      {
        httpGetters := httpGetters[names[k] := names[k] + BASE_PATH];
        assert names[..k + 1] == names[..k] + [names[k]];
        k := k + 1;
      }
      assert names[..k] == names;
    }

    /** The URL to ask for `key`, unless this node serves it itself. */
    method PickPeer(key: string, ghost names: seq<string>) returns (url: Option<string>)
      requires Valid(names)
      ensures url ==
        match Forward(hash, names, self, key)
        case None => None
        case Some(peer) => Some(peer + BASE_PATH)
    {
      var peer := peers.Get(key);
      OwnerIsUnique(peers.hashmap, hash(key), peer, Owner(peers.hashmap, hash(key)));
      if peer != "" && peer != self {
        OwnerIsAPeer(hash, names, hash(key));
        return Some(httpGetters[peer]);
      }
      return None;
    }
  }

  /** The ring of a node that called Set with these peers. */
  function RingOf(hash: Hash, names: seq<string>): Owners { Added(hash, REPLICAS, map[], names) }

  /** The peer that node `self` forwards `key` to, if any. */
  ghost function Forward(hash: Hash, names: seq<string>, self: string, key: string): Option<string> {
    var peer := Owner(RingOf(hash, names), hash(key));
    if peer != "" && peer != self then Some(peer) else None
  }

  ghost predicate SameNodes(a: seq<string>, b: seq<string>) { forall x :: x in a <==> x in b }

  /** The same list in another order, as iterating a map may give it. */
  ghost predicate Reordered(a: seq<string>, b: seq<string>) { multiset(a) == multiset(b) }

  lemma ReorderedAreSame(a: seq<string>, b: seq<string>)
    requires Reordered(a, b)
    ensures SameNodes(a, b)
  {
    forall x ensures x in a <==> x in b {
      assert x in multiset(a) <==> x in multiset(b);
    }
  }

  function Removed(list: seq<string>, x: string): seq<string> {
    if list == [] then [] else if list[0] == x then list[1..] else [list[0]] + Removed(list[1..], x)
  }

  /** The order with `x` at the end. */
  function MovedLast(list: seq<string>, x: string): seq<string> { Removed(list, x) + [x] }

  lemma {:induction false} MovedLastIsReordered(list: seq<string>, x: string)
    requires x in list
    ensures Reordered(MovedLast(list, x), list)
  {
    assert list == [list[0]] + list[1..];
    if list[0] != x {
      MovedLastIsReordered(list[1..], x);
      assert MovedLast(list, x) == [list[0]] + MovedLast(list[1..], x);
    }
  }

  /** Two nodes have a ring point in common. */
  ghost predicate Share(hash: Hash, a: string, b: string) {
    exists p: Digest :: IsPoint(hash, a, REPLICAS, p) && IsPoint(hash, b, REPLICAS, p)
  }

  /** The points of the ring are the points of its nodes, each owned by one of the nodes that have it. */
  lemma RingPoint(hash: Hash, names: seq<string>, p: Digest)
    ensures p in RingOf(hash, names) <==> exists name :: name in names && IsPoint(hash, name, REPLICAS, p)
    ensures p in RingOf(hash, names) ==>
      RingOf(hash, names)[p] in names && IsPoint(hash, RingOf(hash, names)[p], REPLICAS, p)
  {
    AddedAt(hash, REPLICAS, map[], names, p);
    if name :| name in names && IsPoint(hash, name, REPLICAS, p) {
      var k := LastWriterExists(hash, names, p, |names|);
      assert LastWriter(hash, REPLICAS, names, p, k);
    }
  }

  lemma {:induction false} LastWriterExists(hash: Hash, names: seq<string>, p: Digest, n: nat) returns (k: nat)
    requires n <= |names| && exists j :: 0 <= j < n && IsPoint(hash, names[j], REPLICAS, p)
    requires forall j :: n <= j < |names| ==> !IsPoint(hash, names[j], REPLICAS, p)
    ensures LastWriter(hash, REPLICAS, names, p, k)
  {
    if IsPoint(hash, names[n - 1], REPLICAS, p) {
      k := n - 1;
    } else {
      k := LastWriterExists(hash, names, p, n - 1);
    }
  }

  lemma OwnerIsAPeer(hash: Hash, names: seq<string>, h: Digest)
    ensures Owner(RingOf(hash, names), h) == "" || Owner(RingOf(hash, names), h) in names
  {
    var ring := RingOf(hash, names);
    if ring.Keys != {} {
      var p := OwnerPoint(ring, h);
      RingPoint(hash, names, p);
    }
  }

  lemma SamePoints(hash: Hash, a: seq<string>, b: seq<string>)
    requires SameNodes(a, b)
    ensures RingOf(hash, a).Keys == RingOf(hash, b).Keys
  {
    forall p: Digest ensures p in RingOf(hash, a).Keys <==> p in RingOf(hash, b).Keys {
      RingPoint(hash, a, p);
      RingPoint(hash, b, p);
    }
  }

  /** However the same peers are ordered, a key goes to one and the same ring point. */
  lemma SamePointForAll(hash: Hash, a: seq<string>, b: seq<string>, h: Digest) returns (p: Digest)
    requires SameNodes(a, b) && RingOf(hash, a).Keys != {}
    ensures p in RingOf(hash, a) && Owner(RingOf(hash, a), h) == RingOf(hash, a)[p]
    ensures p in RingOf(hash, b) && Owner(RingOf(hash, b), h) == RingOf(hash, b)[p]
  {
    SamePoints(hash, a, b);
    p := OwnerPoint(RingOf(hash, a), h);
    OwnerIsUnique(RingOf(hash, b), h, RingOf(hash, b)[p], Owner(RingOf(hash, b), h));
  }

  ghost predicate NoneShare(hash: Hash, peers: seq<string>) {
    forall a, b :: a in peers && b in peers && Share(hash, a, b) ==> a == b
  }

  /** Nodes configured with the same peers agree on the owner of every key, if no two peers share a point. */
  lemma NodesAgree(hash: Hash, peers: seq<string>, a: seq<string>, b: seq<string>, key: string)
    requires NoneShare(hash, peers) && SameNodes(a, peers) && SameNodes(b, peers)
    ensures Owner(RingOf(hash, a), hash(key)) == Owner(RingOf(hash, b), hash(key))
  {
    SamePoints(hash, a, b);
    if RingOf(hash, a).Keys != {} {
      var p := SamePointForAll(hash, a, b, hash(key));
      RingPoint(hash, a, p);
      RingPoint(hash, b, p);
    }
  }

  /** Of two peers that share a point, the later one in the list takes the key that hashes to it. */
  lemma SharedPointGoesToLast(hash: Hash, names: seq<string>, last: string, i: nat, other: string)
    requires i < REPLICAS && IsPoint(hash, last, REPLICAS, Point(hash, other, i))
    ensures Owner(RingOf(hash, names + [last]), hash(Itoa(i) + other)) == last
  {
    var p := Point(hash, other, i);
    var all := names + [last];
    assert LastWriter(hash, REPLICAS, all, p, |names|);
    AddedAt(hash, REPLICAS, map[], all, p);
    assert Clockwise(RingOf(hash, all).Keys, p, p);
    OwnerIsUnique(RingOf(hash, all), p, last, Owner(RingOf(hash, all), p));
  }

  /** A key that goes to either of two peers that share a point, depending on which is listed last. */
  lemma KeyOfSharedPoint(hash: Hash, peers: seq<string>, a: string, b: string) returns (key: string)
    requires a in peers && b in peers && Share(hash, a, b)
    ensures Reordered(MovedLast(peers, a), peers) && Reordered(MovedLast(peers, b), peers) && key != ""
    ensures Owner(RingOf(hash, MovedLast(peers, a)), hash(key)) == a
    ensures Owner(RingOf(hash, MovedLast(peers, b)), hash(key)) == b
  {
    var p: Digest :| IsPoint(hash, a, REPLICAS, p) && IsPoint(hash, b, REPLICAS, p);
    var i :| 0 <= i < REPLICAS && Point(hash, a, i) == p;
    key := Itoa(i) + a;
    MovedLastIsReordered(peers, a);
    MovedLastIsReordered(peers, b);
    SharedPointGoesToLast(hash, Removed(peers, a), a, i, a);
    SharedPointGoesToLast(hash, Removed(peers, b), b, i, a);
  }

  /**
   Every two nodes that were given the same peers, in whatever order, agree on
   the owner of every key exactly when no two different peers share a ring point.
   */
  lemma NodesAgreeIff(hash: Hash, peers: seq<string>)
    ensures NoneShare(hash, peers) <==>
      forall a, b, key :: Reordered(a, peers) && Reordered(b, peers) ==>
        Owner(RingOf(hash, a), hash(key)) == Owner(RingOf(hash, b), hash(key))
  {
    if NoneShare(hash, peers) {
      forall a, b, key | Reordered(a, peers) && Reordered(b, peers)
        ensures Owner(RingOf(hash, a), hash(key)) == Owner(RingOf(hash, b), hash(key))
      {
        ReorderedAreSame(a, peers);
        ReorderedAreSame(b, peers);
        NodesAgree(hash, peers, a, b, key);
      }
    } else {
      var a, b :| a in peers && b in peers && Share(hash, a, b) && a != b;
      var key := KeyOfSharedPoint(hash, peers, a, b);
    }
  }

  /** No key is forwarded by the node it was forwarded to. */
  ghost predicate OneHop(hash: Hash, a: seq<string>, b: seq<string>, self: string, key: string) {
    match Forward(hash, a, self, key)
    case None => true
    case Some(peer) => Forward(hash, b, peer, key) == None
  }

  /** A name that could be forwarded to; the source treats "" as no owner. */
  ghost predicate NamedShare(hash: Hash, peers: seq<string>, a: string, b: string) {
    a in peers && b in peers && a != "" && b != "" && a != b && Share(hash, a, b)
  }

  /** Two peers that share a point may forward a key to each other for ever, if their lists differ in order. */
  lemma PeersBounce(hash: Hash, peers: seq<string>, a: string, b: string) returns (key: string)
    requires NamedShare(hash, peers, a, b)
    ensures Reordered(MovedLast(peers, a), peers) && Reordered(MovedLast(peers, b), peers) && key != ""
    ensures Forward(hash, MovedLast(peers, b), a, key) == Some(b)
    ensures Forward(hash, MovedLast(peers, a), b, key) == Some(a)
  {
    key := KeyOfSharedPoint(hash, peers, a, b);
  }

  lemma ForwardedIsServedLocally(
    hash: Hash, peers: seq<string>, a: seq<string>, b: seq<string>, self: string, key: string)
    requires forall x, y :: !NamedShare(hash, peers, x, y)
    requires SameNodes(a, peers) && SameNodes(b, peers)
    ensures OneHop(hash, a, b, self, key)
  {
    SamePoints(hash, a, b);
    if Forward(hash, a, self, key).Some? {
      var p := SamePointForAll(hash, a, b, hash(key));
      RingPoint(hash, a, p);
      RingPoint(hash, b, p);
      var x, y := RingOf(hash, a)[p], RingOf(hash, b)[p];
      assert Share(hash, x, y);
      assert !NamedShare(hash, peers, x, y);
    }
  }

  /** Forwarding ends after one hop, for all orders of the peers, exactly when no two named peers share a point. */
  lemma OneHopIff(hash: Hash, peers: seq<string>)
    ensures (forall a, b :: !NamedShare(hash, peers, a, b)) <==>
      forall a, b, self, key :: Reordered(a, peers) && Reordered(b, peers) ==> OneHop(hash, a, b, self, key)
  {
    if a, b :| NamedShare(hash, peers, a, b) {
      var key := PeersBounce(hash, peers, a, b);
      assert !OneHop(hash, MovedLast(peers, b), MovedLast(peers, a), a, key);
    } else {
      forall a, b, self, key | Reordered(a, peers) && Reordered(b, peers) ensures OneHop(hash, a, b, self, key) {
        ReorderedAreSame(a, peers);
        ReorderedAreSame(b, peers);
        ForwardedIsServedLocally(hash, peers, a, b, self, key);
      }
    }
  }
}
