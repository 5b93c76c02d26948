/** The consistent-hash ring of GeeCache: sorted virtual nodes, and which node put each of them there. */
module ConsistentHash {
  import opened Sorting

  /** What a hash function returns: a uint32. */
  type Digest = x: int | 0 <= x < 0x1_0000_0000

  type Hash = string -> Digest

  function Digit(d: nat): char
    requires d < 10
  {
    "0123456789"[d]
  }

  /** strconv.Itoa */
  function Itoa(n: nat): string {
    if n < 10 then [Digit(n)] else Itoa(n / 10) + [Digit(n % 10)]
  }

  function DigitValue(c: char): nat {
    if '0' <= c <= '9' then c as int - '0' as int else 0
  }

  /** What a string of decimal digits says. */
  function Decimal(s: string): nat {
    if s == "" then 0 else 10 * Decimal(s[..|s| - 1]) + DigitValue(s[|s| - 1])
  }

  lemma DigitOf(d: nat)
    requires d < 10
    ensures '0' <= Digit(d) <= '9' && DigitValue(Digit(d)) == d
  {
  }

  /** The decimal digits of the number, without a leading zero. */
  lemma {:induction false} ItoaIsDecimal(n: nat)
    ensures Decimal(Itoa(n)) == n
    ensures forall i :: 0 <= i < |Itoa(n)| ==> '0' <= Itoa(n)[i] <= '9'
    ensures Itoa(n) != "" && (n != 0 ==> Itoa(n)[0] != '0')
  {
    DigitOf(n % 10);
    if n < 10 {
      assert Itoa(n)[..0] == "";
    } else {
      ItoaIsDecimal(n / 10);
      assert Itoa(n)[..|Itoa(n)| - 1] == Itoa(n / 10);
    }
  }

  /** So the replicas of one node differ in what is hashed. */
  lemma ReplicasDiffer(name: string, i: nat, j: nat)
    requires Itoa(i) + name == Itoa(j) + name
    ensures i == j
  {
    assert |Itoa(i)| == |Itoa(j)|;
    assert Itoa(i) == (Itoa(i) + name)[..|Itoa(i)|] == Itoa(j);
    ItoaIsDecimal(i);
    ItoaIsDecimal(j);
  }

  /** The i-th ring point of a node. */
  function Point(hash: Hash, name: string, i: nat): Digest { hash(Itoa(i) + name) }

  /** Which node owns which ring point. */
  type Owners = map<Digest, string>

  /** The ring after a node took its first n points over. */
  function Placed(hash: Hash, owners: Owners, name: string, n: nat): Owners {
    if n == 0 then owners else Placed(hash, owners, name, n - 1)[Point(hash, name, n - 1) := name]
  }

  /** The ring after `Add` of these nodes, in this order. */
  function Added(hash: Hash, replicas: nat, owners: Owners, names: seq<string>): Owners {
    if names == [] then owners
    else Placed(hash, Added(hash, replicas, owners, names[..|names| - 1]), names[|names| - 1], replicas)
  }

  /** `p` is the first ring point at or after `h`, going round to the smallest. */
  ghost predicate Clockwise(points: set<Digest>, h: Digest, p: Digest) {
    p in points &&
    if exists q :: q in points && q >= h
    then p >= h && forall q :: q in points && q >= h ==> p <= q
    else forall q :: q in points ==> p <= q
  }

  /** `name` is the owner that the ring gives to a hash; an empty ring gives "". */
  ghost predicate OwnerOf(owners: Owners, h: Digest, name: string) {
    if owners.Keys == {} then name == ""
    else exists p: Digest :: Clockwise(owners.Keys, h, p) && name == owners[p]
  }

  predicate Leq(x: Digest, y: Digest) { x <= y }

  class Ring {
    const hash: Hash
    const replicas: nat
    var keys: seq<Digest>
    var hashmap: Owners

    ghost predicate Valid()
      reads this
    {
      Sorted(Leq, keys) && forall p :: p in hashmap <==> p in keys
    }

    constructor (replicas: nat, hash: Hash)
      ensures Valid() && hashmap == map[] && this.hash == hash && this.replicas == replicas
    {
      this.replicas, this.hash, keys, hashmap := replicas, hash, [], map[];
    }

    /** `Map.Add` */
    method Add(names: seq<string>)
      requires Valid()
      modifies this
      ensures Valid() && hashmap == Added(hash, replicas, old(hashmap), names)
      ensures forall p: Digest :: p in hashmap <==> p in old(hashmap) || HashOfReplica(hash, replicas, names, p)
    {
      AddPoints(names);
      forall p: Digest ensures p in hashmap <==> p in old(hashmap) || HashOfReplica(hash, replicas, names, p) {
        PointAdded(hash, replicas, old(hashmap), names, p);
      }
      SortKeys();
    }

    /** The loops of `Add`. */
    method AddPoints(names: seq<string>)
      requires Valid()
      modifies this
      ensures hashmap == Added(hash, replicas, old(hashmap), names)
      ensures forall p :: p in hashmap <==> p in keys
    {
      var k := 0;
      while k < |names|
        invariant 0 <= k <= |names|
        invariant forall p :: p in hashmap <==> p in keys
        invariant hashmap == Added(hash, replicas, old(hashmap), names[..k])
      {
        ghost var before := hashmap;
        var i := 0;
        while i < replicas
          invariant 0 <= i <= replicas
          invariant forall p :: p in hashmap <==> p in keys
          invariant hashmap == Placed(hash, before, names[k], i)
        {
          var h := hash(Itoa(i) + names[k]);
          keys := keys + [h];
          hashmap := hashmap[h := names[k]];
          i := i + 1;
        }
        assert names[..k + 1][..k] == names[..k];
        k := k + 1;
      }
      assert names[..k] == names;
    }

    method SortKeys()
      requires forall p :: p in hashmap <==> p in keys
      modifies this`keys
      ensures Valid()
    {
      SortSorts(Leq, keys);
      ghost var unsorted := keys;
      keys := Sort(Leq, keys);
      forall p: Digest ensures p in keys <==> p in unsorted {
        assert p in multiset(keys) <==> p in multiset(unsorted);
      }
    }

    /** `Map.Get`, with the search of sort.Search. */
    method Get(key: string) returns (name: string)
      requires Valid()
      ensures OwnerOf(hashmap, hash(key), name)
    {
      if |keys| == 0 {
        assert forall p :: p !in hashmap;
        return "";
      }
      var h := hash(key);
      var lo, hi := 0, |keys|;
      while lo < hi
        invariant 0 <= lo <= hi <= |keys|
        invariant forall k :: 0 <= k < lo ==> keys[k] < h
        invariant forall k :: hi <= k < |keys| ==> keys[k] >= h
      {
        var mid := (lo + hi) / 2;
        if keys[mid] >= h {
          hi := mid;
        } else {
          lo := mid + 1;
        }
      }
      SearchFinds(keys, hashmap.Keys, h, lo);
      name := hashmap[keys[lo % |keys|]];
    }
  }

  /** Where the search stops is the clockwise successor; the remainder wraps round. */
  lemma SearchFinds(keys: seq<Digest>, points: set<Digest>, h: Digest, lo: nat)
    requires Sorted(Leq, keys) && keys != [] && lo <= |keys|
    requires forall p :: p in points <==> p in keys
    requires forall k :: 0 <= k < lo ==> keys[k] < h
    requires forall k :: lo <= k < |keys| ==> keys[k] >= h
    ensures Clockwise(points, h, keys[lo % |keys|])
  {
    if lo == |keys| {
      assert lo % |keys| == 0;
      SearchWraps(keys, points, h);
    } else {
      assert lo % |keys| == lo;
      SearchStops(keys, points, h, lo);
    }
  }

  lemma SearchWraps(keys: seq<Digest>, points: set<Digest>, h: Digest)
    requires Sorted(Leq, keys) && keys != []
    requires forall p :: p in points <==> p in keys
    requires forall k :: 0 <= k < |keys| ==> keys[k] < h
    ensures Clockwise(points, h, keys[0])
  {
    assert keys[0] in points;
    forall q | q in points ensures q < h && keys[0] <= q {
      var k :| 0 <= k < |keys| && keys[k] == q;
      assert k > 0 ==> Leq(keys[0], keys[k]);
    }
  }

  lemma SearchStops(keys: seq<Digest>, points: set<Digest>, h: Digest, lo: nat)
    requires Sorted(Leq, keys) && lo < |keys|
    requires forall p :: p in points <==> p in keys
    requires forall k :: 0 <= k < lo ==> keys[k] < h
    requires keys[lo] >= h
    ensures Clockwise(points, h, keys[lo])
  {
    assert keys[lo] in points;
    forall q | q in points && q >= h ensures keys[lo] <= q {
      var k :| 0 <= k < |keys| && keys[k] == q;
      assert k > lo ==> Leq(keys[lo], keys[k]);
    }
  }

  /** The ring gives one owner to a hash. */
  lemma OwnerIsUnique(owners: Owners, h: Digest, a: string, b: string)
    requires OwnerOf(owners, h, a) && OwnerOf(owners, h, b)
    ensures a == b
  {
  }

  /** And always one. */
  lemma {:induction false} ClockwiseExists(points: set<Digest>, h: Digest)
    requires points != {}
    ensures exists p: Digest :: Clockwise(points, h, p)
    decreases points
  {
    var q: Digest :| q in points;
    var rest := points - {q};
    assert points == rest + {q};
    if rest == {} {
      assert Clockwise(points, h, q);
    } else {
      ClockwiseExists(rest, h);
      var p: Digest :| Clockwise(rest, h, p);
      var first: Digest := if (if p >= h then h <= q < p else q >= h || q < p) then q else p;
      assert Clockwise(points, h, first);
    }
  }

  /** The owner that the ring gives to a hash. */
  ghost function Owner(owners: Owners, h: Digest): (name: string)
    ensures OwnerOf(owners, h, name)
  {
    if owners.Keys == {} then ""
    else
      ClockwiseExists(owners.Keys, h);
      var p: Digest :| Clockwise(owners.Keys, h, p);
      owners[p]
  }

  lemma OwnerPoint(owners: Owners, h: Digest) returns (p: Digest)
    requires owners.Keys != {}
    ensures Clockwise(owners.Keys, h, p) && Owner(owners, h) == owners[p]
  {
    var name := Owner(owners, h);
    p :| Clockwise(owners.Keys, h, p) && name == owners[p];
  }

  ghost predicate IsPoint(hash: Hash, name: string, n: nat, p: Digest) {
    exists i :: 0 <= i < n && Point(hash, name, i) == p
  }

  lemma {:induction false} PlacedAt(hash: Hash, owners: Owners, name: string, n: nat, p: Digest)
    ensures p in Placed(hash, owners, name, n) <==> p in owners || IsPoint(hash, name, n, p)
    ensures IsPoint(hash, name, n, p) ==> Placed(hash, owners, name, n)[p] == name
    ensures p in owners && !IsPoint(hash, name, n, p) ==> Placed(hash, owners, name, n)[p] == owners[p]
  {
    if n > 0 {
      PlacedAt(hash, owners, name, n - 1, p);
      assert IsPoint(hash, name, n, p) <==> IsPoint(hash, name, n - 1, p) || Point(hash, name, n - 1) == p;
    }
  }

  /** The last of `names` to have the ring point `p`. */
  ghost predicate LastWriter(hash: Hash, replicas: nat, names: seq<string>, p: Digest, k: nat) {
    k < |names| && IsPoint(hash, names[k], replicas, p) &&
    forall j :: k < j < |names| ==> !IsPoint(hash, names[j], replicas, p)
  }

  /** A ring point belongs to the last node added that has it, or else to whoever had it before. */
  lemma {:induction false} AddedAt(hash: Hash, replicas: nat, owners: Owners, names: seq<string>, p: Digest)
    ensures p in Added(hash, replicas, owners, names) <==>
      p in owners || exists k: nat :: LastWriter(hash, replicas, names, p, k)
    ensures forall k: nat :: LastWriter(hash, replicas, names, p, k) ==>
      p in Added(hash, replicas, owners, names) && Added(hash, replicas, owners, names)[p] == names[k]
    ensures p in owners && (forall k: nat :: !LastWriter(hash, replicas, names, p, k)) ==>
      Added(hash, replicas, owners, names)[p] == owners[p]
  {
    if names != [] {
      var n := |names| - 1;
      var before := names[..n];
      AddedAt(hash, replicas, owners, before, p);
      PlacedAt(hash, Added(hash, replicas, owners, before), names[n], replicas, p);
      if IsPoint(hash, names[n], replicas, p) {
        assert LastWriter(hash, replicas, names, p, n);
      } else {
        forall k: nat ensures LastWriter(hash, replicas, names, p, k) <==> LastWriter(hash, replicas, before, p, k) {
          SameWriter(hash, replicas, names, p, k);
        }
      }
    }
  }

  /** A node without the point leaves its last writer as it was. */
  lemma SameWriter(hash: Hash, replicas: nat, names: seq<string>, p: Digest, k: nat)
    requires names != [] && !IsPoint(hash, names[|names| - 1], replicas, p)
    ensures LastWriter(hash, replicas, names, p, k) <==> LastWriter(hash, replicas, names[..|names| - 1], p, k)
  {
  }

  /** `p` is the hash of some replica's decimal number followed by the name of one of these nodes. */
  ghost predicate HashOfReplica(hash: Hash, replicas: nat, names: seq<string>, p: Digest) {
    exists name, i: nat :: name in names && i < replicas && p == hash(Itoa(i) + name)
  }

  lemma {:induction false} PointAdded(hash: Hash, replicas: nat, owners: Owners, names: seq<string>, p: Digest)
    ensures p in Added(hash, replicas, owners, names) <==> p in owners || HashOfReplica(hash, replicas, names, p)
  {
    if names != [] {
      var n := |names| - 1;
      var before := names[..n];
      PointAdded(hash, replicas, owners, before, p);
      PlacedAt(hash, Added(hash, replicas, owners, before), names[n], replicas, p);
      HashesOfOneMore(hash, replicas, before, names[n], p);
      assert names == before + [names[n]];
    }
  }

  lemma HashesOfOneMore(hash: Hash, replicas: nat, before: seq<string>, last: string, p: Digest)
    ensures HashOfReplica(hash, replicas, before + [last], p) <==>
      HashOfReplica(hash, replicas, before, p) || IsPoint(hash, last, replicas, p)
  {
    if HashOfReplica(hash, replicas, before, p) {
      var name, i: nat :| name in before && i < replicas && p == hash(Itoa(i) + name);
      assert name in before + [last];
    }
    if IsPoint(hash, last, replicas, p) {
      var i: nat :| i < replicas && Point(hash, last, i) == p;
      assert last in before + [last] && p == hash(Itoa(i) + last);
    }
    if HashOfReplica(hash, replicas, before + [last], p) {
      var name, i: nat :| name in before + [last] && i < replicas && p == hash(Itoa(i) + name);
      assert Point(hash, name, i) == p && (name in before || name == last);
    }
  }

  /**
   The repository's own example, where every string of digits hashes to its
   number and each of "6", "4" and "2" has three points.
   */
  lemma HashingExample(owners: Owners)
    requires owners ==
      map[2 := "2", 4 := "4", 6 := "6", 12 := "2", 14 := "4", 16 := "6", 22 := "2", 24 := "4", 26 := "6"]
    ensures OwnerOf(owners, 2, "2") && OwnerOf(owners, 11, "2") && OwnerOf(owners, 23, "4") && OwnerOf(owners, 27, "2")
  {
    ExampleEntries(owners);
    ExampleOwned(owners);
  }

  lemma ExampleEntries(owners: Owners)
    requires owners ==
      map[2 := "2", 4 := "4", 6 := "6", 12 := "2", 14 := "4", 16 := "6", 22 := "2", 24 := "4", 26 := "6"]
    ensures owners.Keys == {2, 4, 6, 12, 14, 16, 22, 24, 26}
    ensures owners[2] == "2" && owners[12] == "2" && owners[24] == "4"
  {
  }

  lemma ExampleOwned(owners: Owners)
    requires owners.Keys == {2, 4, 6, 12, 14, 16, 22, 24, 26}
    requires owners[2] == "2" && owners[12] == "2" && owners[24] == "4"
    ensures OwnerOf(owners, 2, "2") && OwnerOf(owners, 11, "2") && OwnerOf(owners, 23, "4") && OwnerOf(owners, 27, "2")
  {
    ExamplePoints(owners.Keys);
    OwnerAt(owners, 2, 2);
    OwnerAt(owners, 11, 12);
    OwnerAt(owners, 23, 24);
    OwnerAt(owners, 27, 2);
  }

  lemma OwnerAt(owners: Owners, h: Digest, p: Digest)
    requires Clockwise(owners.Keys, h, p)
    ensures OwnerOf(owners, h, owners[p])
  {
  }

  lemma ExamplePoints(points: set<Digest>)
    requires points == {2, 4, 6, 12, 14, 16, 22, 24, 26}
    ensures Clockwise(points, 2, 2) && Clockwise(points, 11, 12)
    ensures Clockwise(points, 23, 24) && Clockwise(points, 27, 2)
  {
  }

  /**
   Adding nodes to a ring that is not empty moves no key between old nodes:
   each key stays with its owner or goes to one of the nodes just added, also
   where points coincide.
   */
  lemma AddMovesKeysOnlyToNewNodes(
    hash: Hash, replicas: nat, owners: Owners, names: seq<string>, h: Digest, a: string, b: string)
    requires owners.Keys != {} && OwnerOf(owners, h, a)
    requires OwnerOf(Added(hash, replicas, owners, names), h, b)
    ensures b == a || b in names
  {
    var after := Added(hash, replicas, owners, names);
    var p: Digest :| Clockwise(owners.Keys, h, p) && a == owners[p];
    AddedAt(hash, replicas, owners, names, p);
    assert p in after;
    var q: Digest :| Clockwise(after.Keys, h, q) && b == after[q];
    AddedAt(hash, replicas, owners, names, q);
    if !exists k: nat :: LastWriter(hash, replicas, names, q, k) {
      forall r | r in owners.Keys ensures r in after.Keys {
        AddedAt(hash, replicas, owners, names, r);
      }
      assert q == p;
    }
  }
}
