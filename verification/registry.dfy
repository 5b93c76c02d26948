/** The GeeRPC registry: servers that sent a heartbeat, pruned lazily when someone asks for the list. */
module Registry {
  import opened Wrappers
  import opened Sorting

  /** Clock readings and durations, in one unit. */
  type Time = int

  datatype Beat = Beat(addr: string, at: Time)

  /** The time of the last heartbeat of `addr` in a history. */
  function LastBeat(history: seq<Beat>, addr: string): Option<Time> {
    if history == [] then None
    else if history[|history| - 1].addr == addr then Some(history[|history| - 1].at)
    else LastBeat(history[..|history| - 1], addr)
  }

  /** What the registry promises about a server at time `now`; a timeout of 0 is none. */
  predicate AliveAt(timeout: nat, history: seq<Beat>, addr: string, now: Time) {
    match LastBeat(history, addr)
    case None => false
    case Some(last) => timeout == 0 || last + timeout > now
  }

  // ---------------------------------------------------------------- sort.Strings

  predicate LexLeq(a: string, b: string) {
    a == "" || (b != "" && (a[0] < b[0] || (a[0] == b[0] && LexLeq(a[1..], b[1..]))))
  }

  /** A string comes before those it begins, and otherwise the first difference decides. */
  lemma {:induction false} LexIsFirstDifference(a: string, b: string)
    ensures LexLeq(a, b) <==> a <= b || exists i :: 0 <= i < |a| && i < |b| && a[..i] == b[..i] && a[i] < b[i]
  {
    if a != "" && b != "" && a[0] == b[0] {
      var a', b' := a[1..], b[1..];
      LexIsFirstDifference(a', b');
      assert a == [a[0]] + a' && b == [b[0]] + b';
      if i :| 0 <= i < |a'| && i < |b'| && a'[..i] == b'[..i] && a'[i] < b'[i] {
        assert a[..i + 1] == [a[0]] + a'[..i] && b[..i + 1] == [b[0]] + b'[..i];
        assert a[i + 1] < b[i + 1];
      }
      if i :| 0 <= i < |a| && i < |b| && a[..i] == b[..i] && a[i] < b[i] {
        assert a'[..i - 1] == a[..i][1..] && b'[..i - 1] == b[..i][1..];
        assert a'[i - 1] < b'[i - 1];
      }
    } else if a != "" && b != "" && a[0] < b[0] {
      assert a[..0] == b[..0];
    }
  }

  lemma {:induction false} LexTotal(a: string, b: string)
    ensures LexLeq(a, b) || LexLeq(b, a)
  {
    if a != "" && b != "" && a[0] == b[0] { LexTotal(a[1..], b[1..]); }
  }

  lemma {:induction false} LexAntisymmetric(a: string, b: string)
    requires LexLeq(a, b) && LexLeq(b, a)
    ensures a == b
  {
    if a != "" {
      LexAntisymmetric(a[1..], b[1..]);
      assert a == [a[0]] + a[1..] && b == [b[0]] + b[1..];
    }
  }

  lemma {:induction false} LexTransitive(a: string, b: string, c: string)
    requires LexLeq(a, b) && LexLeq(b, c)
    ensures LexLeq(a, c)
  {
    if a != "" && a[0] == b[0] && b[0] == c[0] { LexTransitive(a[1..], b[1..], c[1..]); }
  }

  lemma LexIsTotalOrder()
    ensures TotalOrder(LexLeq)
  {
    forall a, b ensures LexLeq(a, b) || LexLeq(b, a) { LexTotal(a, b); }
    forall a, b | LexLeq(a, b) && LexLeq(b, a) ensures a == b { LexAntisymmetric(a, b); }
    forall a, b, c | LexLeq(a, b) && LexLeq(b, c) ensures LexLeq(a, c) { LexTransitive(a, b, c); }
  }

  // ---------------------------------------------------------------- the registry

  /** A list as aliveServers returns it: sorted, each address once. */
  ghost predicate SortedOnce(list: seq<string>) {
    Sorted(LexLeq, list) && forall i, j :: 0 <= i < j < |list| ==> list[i] != list[j]
  }

  class GeeRegistry {
    const timeout: nat
    /** The start time of each ServerItem. */
    var servers: map<string, Time>
    /** Every heartbeat so far, and the latest clock reading. */
    ghost var history: seq<Beat>
    ghost var clock: Time

    /** The map is the heartbeat history, less servers that have expired already. */
    ghost predicate Valid()
      reads this
    {
      && (forall addr :: addr in servers ==> LastBeat(history, addr) == Some(servers[addr]))
      && (forall addr :: LastBeat(history, addr).Some? && addr !in servers ==>
            timeout != 0 && LastBeat(history, addr).value + timeout <= clock)
      && (forall i :: 0 <= i < |history| ==> history[i].at <= clock)
      && Ordered(history)
    }

    constructor (timeout: nat, now: Time)
      ensures Valid() && history == [] && this.timeout == timeout && clock == now
    {
      this.timeout, servers, history, clock := timeout, map[], [], now;
    }

    method PutServer(addr: string, now: Time)
      requires Valid() && clock <= now
      modifies this
      ensures Valid() && clock == now && history == old(history) + [Beat(addr, now)]
    {
      servers := servers[addr := now];
      history, clock := history + [Beat(addr, now)], now;
      forall a ensures LastBeat(history, a) == if a == addr then Some(now) else LastBeat(old(history), a) {
        assert history[..|history| - 1] == old(history);
      }
    }

    /**
     `aliveServers`. Each server is held against a clock reading of its own,
     all of them taken from `lo` to `hi`: a server alive at `hi` is listed,
     one listed was alive at `lo`, and with one reading the answer is exact.
     The map is left with the servers listed.
     Pruning on the way loses nothing that the full history would still list.
     */
    method AliveServers(lo: Time, hi: Time) returns (alive: seq<string>)
      requires Valid() && clock <= lo <= hi
      modifies this`servers, this`clock
      ensures Valid() && clock == hi
      ensures SortedOnce(alive)
      ensures forall addr :: addr in alive ==> AliveAt(timeout, history, addr, lo)
      ensures forall addr :: AliveAt(timeout, history, addr, hi) ==> addr in alive
      ensures forall addr :: addr in servers <==> addr in alive
    {
      var todo := servers.Keys;
      var reading := lo;
      alive := [];
      ghost var start := servers;
      while todo != {}
        invariant lo <= reading <= hi && todo <= start.Keys
        invariant servers.Keys <= start.Keys && forall a :: a in servers ==> servers[a] == start[a]
        invariant forall a :: a in todo ==> a in servers && a !in alive
        invariant forall a :: a in alive <==> a in servers && a !in todo
        invariant forall a :: a in alive ==> timeout == 0 || start[a] + timeout > lo
        invariant forall a :: a in start && a !in servers ==> timeout != 0 && start[a] + timeout <= reading
        invariant forall i, j :: 0 <= i < j < |alive| ==> alive[i] != alive[j]
      {
        var addr: string :| addr in todo;
        todo := todo - {addr};
        var now: Time :| reading <= now <= hi;
        reading := now;
        if timeout == 0 || servers[addr] + timeout > now {
          alive := alive + [addr];
        } else {
          servers := servers - {addr};
        }
      }
      clock := hi;
      ghost var unsorted := alive;
      LexIsTotalOrder();
      SortSorts(LexLeq, alive);
      alive := Sort(LexLeq, alive);
      SortKeepsOnce(unsorted);
    }
  }

  lemma SortKeepsOnce(list: seq<string>)
    requires forall i, j :: 0 <= i < j < |list| ==> list[i] != list[j]
    ensures SortedOnce(Sort(LexLeq, list)) && forall x :: x in Sort(LexLeq, list) <==> x in list
  {
    LexIsTotalOrder();
    SortSorts(LexLeq, list);
    var sorted := Sort(LexLeq, list);
    forall x ensures x in sorted <==> x in list {
      assert x in multiset(sorted) <==> x in multiset(list);
    }
    OnceInMultiset(list);
    forall i, j | 0 <= i < j < |sorted| ensures sorted[i] != sorted[j] {
      if sorted[i] == sorted[j] { TwiceInMultiset(sorted, i, j); }
    }
  }

  lemma {:induction false} OnceInMultiset(list: seq<string>)
    requires forall i, j :: 0 <= i < j < |list| ==> list[i] != list[j]
    ensures forall x :: multiset(list)[x] <= 1
  {
    if list != [] {
      OnceInMultiset(list[1..]);
      assert list == [list[0]] + list[1..];
      assert list[0] !in list[1..];
    }
  }

  lemma TwiceInMultiset(list: seq<string>, i: nat, j: nat)
    requires i < j < |list| && list[i] == list[j]
    ensures multiset(list)[list[i]] >= 2
  {
    assert list == list[..j] + ([list[j]] + list[j + 1..]);
    assert list[..j][i] == list[i];
  }

  /** With one clock reading, the answer is the one sorted list of the servers alive by the full history. */
  lemma AnswerIsDetermined(timeout: nat, history: seq<Beat>, now: Time, a: seq<string>, b: seq<string>)
    requires SortedOnce(a) && forall addr :: addr in a <==> AliveAt(timeout, history, addr, now)
    requires SortedOnce(b) && forall addr :: addr in b <==> AliveAt(timeout, history, addr, now)
    ensures a == b
  {
    LexIsTotalOrder();
    assert forall addr :: addr in a <==> AliveAt(timeout, history, addr, now);
    SortedListUnique(LexLeq, a, b);
  }

  /** The heartbeats up to and including time `t`. */
  function Until(history: seq<Beat>, t: Time): seq<Beat> {
    if history == [] || history[|history| - 1].at <= t then history else Until(history[..|history| - 1], t)
  }

  ghost predicate Ordered(history: seq<Beat>) {
    forall i, j :: 0 <= i <= j < |history| ==> history[i].at <= history[j].at
  }

  lemma {:induction false} UntilOk(history: seq<Beat>, t: Time)
    requires Ordered(history)
    ensures Until(history, t) <= history
    ensures forall i :: 0 <= i < |history| ==> (i < |Until(history, t)| <==> history[i].at <= t)
  {
    if history != [] && history[|history| - 1].at > t {
      UntilOk(history[..|history| - 1], t);
    }
  }

  lemma {:induction false} LastBeatAtLeast(history: seq<Beat>, addr: string, i: nat)
    requires Ordered(history) && i < |history| && history[i].addr == addr
    ensures LastBeat(history, addr).Some? && LastBeat(history, addr).value >= history[i].at
  {
    var n := |history| - 1;
    if history[n].addr != addr { LastBeatAtLeast(history[..n], addr, i); }
  }

  /**
   A server whose heartbeats keep coming within less than the timeout of each
   other is listed continuously: at every time `t` not before some beat and
   less than the timeout after it, by the history up to `t`.
   */
  lemma SteadyServerStaysListed(timeout: nat, history: seq<Beat>, addr: string, i: nat, t: Time)
    requires Ordered(history) && i < |history| && history[i].addr == addr
    requires history[i].at <= t && (timeout == 0 || t < history[i].at + timeout)
    ensures AliveAt(timeout, Until(history, t), addr, t)
  {
    UntilOk(history, t);
    var past := Until(history, t);
    assert past[i] == history[i];
    LastBeatAtLeast(past, addr, i);
  }

  const MINUTE: nat := 60
  const DEFAULT_TIMEOUT: nat := 5 * MINUTE
  /** The period of Heartbeat when none is given. */
  const DEFAULT_PERIOD: nat := DEFAULT_TIMEOUT - MINUTE

  /**
   Beats of `addr` at the positions in `beats`, the first not after `from`,
   each next one within a period, the last not before `to` less a period.
   */
  ghost predicate Steady(history: seq<Beat>, addr: string, beats: seq<nat>, period: nat, from: Time, to: Time) {
    && beats != []
    && (forall k :: 0 <= k < |beats| ==> beats[k] < |history| && history[beats[k]].addr == addr)
    && (forall k :: 0 <= k < |beats| - 1 ==> history[beats[k + 1]].at <= history[beats[k]].at + period)
    && history[beats[0]].at <= from && to <= history[beats[|beats| - 1]].at + period
  }

  lemma {:induction false} BeatBefore(
    history: seq<Beat>, addr: string, beats: seq<nat>, period: nat, from: Time, to: Time, t: Time)
    returns (i: nat)
    requires Steady(history, addr, beats, period, from, to) && from <= t <= to
    ensures i < |history| && history[i].addr == addr && history[i].at <= t <= history[i].at + period
    decreases |beats|
  {
    var n := |beats| - 1;
    if history[beats[n]].at <= t {
      i := beats[n];
    } else {
      i := BeatBefore(history, addr, beats[..n], period, from, t, t);
    }
  }

  /** A server that keeps its heartbeat up with a period below the timeout is never missing from the list. */
  lemma HeartbeatKeepsListed(
    timeout: nat, period: nat, history: seq<Beat>, addr: string, beats: seq<nat>, from: Time, to: Time, t: Time)
    requires timeout == 0 || period < timeout
    requires Ordered(history) && Steady(history, addr, beats, period, from, to) && from <= t <= to
    ensures AliveAt(timeout, Until(history, t), addr, t)
  {
    var i := BeatBefore(history, addr, beats, period, from, to, t);
    SteadyServerStaysListed(timeout, history, addr, i, t);
  }

  /** In particular with the default period and timeout. */
  lemma DefaultHeartbeatKeepsListed(history: seq<Beat>, addr: string, beats: seq<nat>, from: Time, to: Time, t: Time)
    requires Ordered(history) && Steady(history, addr, beats, DEFAULT_PERIOD, from, to) && from <= t <= to
    ensures AliveAt(DEFAULT_TIMEOUT, Until(history, t), addr, t)
  {
    HeartbeatKeepsListed(DEFAULT_TIMEOUT, DEFAULT_PERIOD, history, addr, beats, from, to, t);
  }

  /** A period of the timeout or more is too long: the server is missing just before its next beat. */
  lemma SlowHeartbeatDropsOut(timeout: nat, period: nat, addr: string)
    returns (history: seq<Beat>, beats: seq<nat>, t: Time)
    requires timeout != 0 && period >= timeout
    ensures Ordered(history) && Steady(history, addr, beats, period, 0, t) && 0 <= t
    ensures !AliveAt(timeout, Until(history, t), addr, t)
  {
    history, beats, t := [Beat(addr, 0)], [0], period;
    assert history[..0] == [];
  }
}
