/** How a GeeRPC client chooses from its list of servers. */
module Discovery {
  import opened Wrappers

  datatype SelectMode = RandomSelect | RoundRobinSelect | Unsupported

  class MultiServersDiscovery {
    var servers: seq<string>
    var index: nat

    constructor (servers: seq<string>, index: nat)
      ensures this.servers == servers && this.index == index
    {
      this.servers, this.index := servers, index;
    }

    method Update(servers: seq<string>)
      modifies this
      ensures this.servers == servers && index == old(index)
    {
      this.servers := servers;
    }

    /** None is an error: no servers, or a mode that is not supported. A random choice is what `random` says. */
    method Get(mode: SelectMode, random: nat) returns (server: Option<string>)
      requires servers != [] ==> random < |servers|
      modifies this`index
      ensures servers == [] ==> server == None && index == old(index)
      ensures server.Some? ==> server.value in servers
      ensures servers != [] ==>
        var n, use := |servers|, Use(mode, random);
        && index == NextIndex(n, old(index), use)
        && server == match mode
                     case RandomSelect => Some(servers[random])
                     case RoundRobinSelect => Some(servers[old(index) % n])
                     case Unsupported => None
      ensures server.Some? && mode.RoundRobinSelect? ==> index == (old(index) + 1) % |servers|
      ensures !mode.RoundRobinSelect? ==> index == old(index)
    {
      var n := |servers|;
      if n == 0 { return None; }
      match mode {
        case RandomSelect => server := Some(servers[random]);
        case RoundRobinSelect =>
          server := Some(servers[index % n]);
          index := (index + 1) % n;
        case Unsupported => server := None;
      }
    }

    method GetAll() returns (all: seq<string>)
      ensures all == servers
    {
      all := servers;
    }
  }

  // ---------------------------------------------------------------- fairness

  /** One use of a discovery; only round robin moves the index. */
  datatype Use = Use(mode: SelectMode, random: nat) | All

  predicate IsRoundRobin(use: Use) { use.Use? && use.mode.RoundRobinSelect? }

  function NextIndex(n: nat, index: nat, use: Use): nat
    requires n > 0
  {
    if IsRoundRobin(use) then (index + 1) % n else index
  }

  /** The positions that the round-robin choices among `uses` take in a list of n servers. */
  function Picks(n: nat, index: nat, uses: seq<Use>): seq<nat>
    requires n > 0
    decreases |uses|
  {
    if uses == [] then []
    else
      (if IsRoundRobin(uses[0]) then [index % n] else []) + Picks(n, NextIndex(n, index, uses[0]), uses[1..])
  }

  function Hits(picks: seq<nat>, p: nat): nat {
    if picks == [] then 0 else Hits(picks[..|picks| - 1], p) + if picks[|picks| - 1] == p then 1 else 0
  }

  lemma SmallMultiple(n: nat, k: int)
    requires 0 < n * k + n && n * k < n
    ensures k == 0
  {
  }

  lemma MulMod(q: nat, n: nat, r: nat)
    requires r < n
    ensures (n * q + r) % n == r && (n * q + r) / n == q
  {
    var x := n * q + r;
    var k := q - x / n;
    assert x == n * (x / n) + x % n;
    assert n * k == n * q - n * (x / n);
    SmallMultiple(n, k);
  }

  lemma DivMod(x: nat, n: nat)
    requires n > 0
    ensures x == n * (x / n) + x % n
  {
  }

  lemma OneMore(n: nat, q: nat)
    ensures n * (q + 1) == n * q + n
  {
  }

  lemma ModStep(a: nat, n: nat)
    requires n > 0
    ensures (a % n + 1) % n == (a + 1) % n
  {
    var q, r := a / n, a % n;
    DivMod(a, n);
    if r + 1 == n {
      OneMore(n, q);
      MulMod(q + 1, n, 0);
      MulMod(1, n, 0);
    } else {
      MulMod(q, n, r + 1);
      MulMod(0, n, r + 1);
    }
  }

  /** The j-th round-robin choice takes position (index + j) mod n, whatever uses come between. */
  lemma {:induction false} PickPosition(n: nat, index: nat, uses: seq<Use>, j: nat)
    requires n > 0 && j < |Picks(n, index, uses)|
    ensures Picks(n, index, uses)[j] == (index + j) % n
    decreases |uses|
  {
    if !IsRoundRobin(uses[0]) {
      PickPosition(n, index, uses[1..], j);
    } else if j > 0 {
      PickPosition(n, (index + 1) % n, uses[1..], j - 1);
      ModAdd(index + 1, j - 1, n);
    }
  }

  lemma {:induction false} ModAdd(a: nat, k: nat, n: nat)
    requires n > 0
    ensures (a % n + k) % n == (a + k) % n
  {
    if k == 0 {
      MulMod(0, n, a % n);
    } else {
      ModAdd(a, k - 1, n);
      ModStep(a % n + k - 1, n);
      ModStep(a + k - 1, n);
    }
  }

  /** How many of the numbers below x leave remainder p. */
  function Below(x: nat, n: nat, p: nat): nat
    requires p < n
  {
    (x + (n - 1 - p)) / n
  }

  lemma BelowStep(x: nat, n: nat, p: nat)
    requires p < n
    ensures Below(x + 1, n, p) == Below(x, n, p) + if x % n == p then 1 else 0
  {
    DivMod(x, n);
    BelowNext(x / n, x % n, n, p);
  }

  lemma BelowNext(q: nat, r: nat, n: nat, p: nat)
    requires p < n && r < n
    ensures Below(n * q + r + 1, n, p) == Below(n * q + r, n, p) + if r == p then 1 else 0
  {
    BelowIs(q, r, n, p);
    OneMore(n, q);
    var x := n * q + r + 1;
    if r + 1 < n {
      assert x == n * q + (r + 1);
      BelowIs(q, r + 1, n, p);
    } else {
      assert x == n * (q + 1) + 0;
      BelowIs(q + 1, 0, n, p);
    }
  }

  lemma BelowIs(q: nat, r: nat, n: nat, p: nat)
    requires p < n && r < n
    ensures Below(n * q + r, n, p) == q + if r <= p then 0 else 1
  {
    var c := n - 1 - p;
    if r <= p {
      MulMod(q, n, r + c);
    } else {
      OneMore(n, q);
      MulMod(q + 1, n, r + c - n);
    }
  }

  lemma {:induction false} HitsAreBelow(n: nat, index: nat, picks: seq<nat>, p: nat)
    requires p < n && forall j :: 0 <= j < |picks| ==> picks[j] == (index + j) % n
    ensures Hits(picks, p) == Below(index + |picks|, n, p) - Below(index, n, p)
  {
    if picks != [] {
      var m := |picks| - 1;
      HitsAreBelow(n, index, picks[..m], p);
      BelowStep(index + m, n, p);
    }
  }

  lemma QuotientOfSum(q: nat, r: nat, k: nat, s: nat, n: nat)
    requires r < n && s < n
    ensures (n * q + r + (n * k + s)) / n == q + k + if r + s < n then 0 else 1
  {
    assert n * (q + k) == n * q + n * k;
    OneMore(n, q + k);
    if r + s < n {
      MulMod(q + k, n, r + s);
    } else {
      MulMod(q + k + 1, n, r + s - n);
    }
  }

  lemma CeilingOf(k: nat, s: nat, n: nat)
    requires s < n
    ensures (n * k + s + n - 1) / n == k + if s == 0 then 0 else 1
  {
    OneMore(n, k);
    if s == 0 {
      MulMod(k, n, n - 1);
    } else {
      MulMod(k + 1, n, s - 1);
    }
  }

  lemma DivDifference(a: nat, m: nat, n: nat)
    requires n > 0
    ensures m / n <= (a + m) / n - a / n <= (m + n - 1) / n
  {
    DivMod(a, n);
    DivMod(m, n);
    DivDifferenceOf(a, m, n, a / n, a % n, m / n, m % n);
  }

  lemma DivDifferenceOf(a: nat, m: nat, n: nat, q: nat, r: nat, k: nat, s: nat)
    requires r < n && s < n && a == n * q + r && m == n * k + s
    ensures k <= (a + m) / n - q <= (m + n - 1) / n
  {
    QuotientOfSum(q, r, k, s, n);
    CeilingOf(k, s, n);
  }

  /**
   Fairness: over any series of uses of a stable list of n servers, from any
   index, with m round-robin choices among them, each position is picked m/n
   times, rounded down or up.
   */
  lemma RoundRobinIsFair(n: nat, index: nat, uses: seq<Use>, p: nat)
    requires p < n
    ensures
      var m := |Picks(n, index, uses)|;
      m / n <= Hits(Picks(n, index, uses), p) <= (m + n - 1) / n
  {
    var picks := Picks(n, index, uses);
    forall j | 0 <= j < |picks| ensures picks[j] == (index + j) % n { PickPosition(n, index, uses, j); }
    HitsAreBelow(n, index, picks, p);
    DivDifference(index + (n - 1 - p), |picks|, n);
  }

  /** Any n round-robin choices in a row take every position exactly once. */
  lemma FullRoundVisitsEachOnce(n: nat, index: nat, uses: seq<Use>, k: nat, p: nat)
    requires p < n && k + n <= |Picks(n, index, uses)|
    ensures Hits(Picks(n, index, uses)[k..k + n], p) == 1
  {
    var picks := Picks(n, index, uses);
    var row := picks[k..k + n];
    forall j | 0 <= j < |row| ensures row[j] == (index + k + j) % n { PickPosition(n, index, uses, k + j); }
    HitsAreBelow(n, index + k, row, p);
    DivDifference(index + k + (n - 1 - p), n, n);
    MulMod(1, n, 0);
    if n > 1 { MulMod(1, n, n - 1); }
  }
}
