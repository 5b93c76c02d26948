/** The client's timed cache of the registry's list, and how old the servers in it can be. */
module GeeDiscovery {
  import opened Wrappers
  import opened Strings
  import opened Registry
  import opened Discovery

  /** The value that NewGeeRegistryDiscovery puts for a timeout of 0, in seconds. */
  const DEFAULT_UPDATE_TIMEOUT: nat := 10

  /** `addr` has sent a heartbeat after this time. */
  ghost predicate Recent(history: seq<Beat>, addr: string, after: Time) {
    exists i :: 0 <= i < |history| && history[i].addr == addr && history[i].at > after
  }

  lemma RecentStays(history: seq<Beat>, more: seq<Beat>, addr: string, after: Time, earlier: Time)
    requires Recent(history, addr, after) && earlier <= after
    ensures Recent(history + more, addr, earlier)
  {
    var i :| 0 <= i < |history| && history[i].addr == addr && history[i].at > after;
    assert (history + more)[i] == history[i];
  }

  lemma {:induction false} AliveIsRecent(timeout: nat, history: seq<Beat>, addr: string, now: Time)
    requires timeout != 0 && AliveAt(timeout, history, addr, now)
    ensures Recent(history, addr, now - timeout)
  {
    var n := |history| - 1;
    if history[n].addr != addr {
      AliveIsRecent(timeout, history[..n], addr, now);
      RecentStays(history[..n], [history[n]], addr, now - timeout, now - timeout);
      assert history[..n] + [history[n]] == history;
    }
  }

  ghost predicate AllSendable(history: seq<Beat>) {
    forall i :: 0 <= i < |history| ==> Sendable(history[i].addr)
  }

  lemma {:induction false} AliveIsSendable(timeout: nat, history: seq<Beat>, addr: string, now: Time)
    requires AllSendable(history) && AliveAt(timeout, history, addr, now)
    ensures Sendable(addr)
  {
    if history[|history| - 1].addr != addr {
      AliveIsSendable(timeout, history[..|history| - 1], addr, now);
    }
  }

  class GeeRegistryDiscovery {
    const multi: MultiServersDiscovery
    const timeout: nat
    /** None is the zero time, which every timeout has passed. */
    var lastUpdate: Option<Time>

    constructor (timeout: nat, index: nat)
      ensures fresh(multi) && multi.servers == [] && multi.index == index && lastUpdate == None
      ensures this.timeout == if timeout == 0 then DEFAULT_UPDATE_TIMEOUT else timeout
    {
      this.timeout := if timeout == 0 then DEFAULT_UPDATE_TIMEOUT else timeout;
      multi := new MultiServersDiscovery([], index);
      lastUpdate := None;
    }

    /** By hand. */
    method Update(servers: seq<string>, now: Time)
      modifies this, multi
      ensures multi.servers == servers && multi.index == old(multi.index) && lastUpdate == Some(now)
    {
      multi.Update(servers);
      lastUpdate := Some(now);
    }

    /** `Refresh`, when the registry answers with `header`, or not at all; `false` is its error. */
    method Refresh(check: Time, header: Option<string>, done: Time) returns (ok: bool)
      modifies this, multi
      ensures multi.index == old(multi.index)
      ensures
        var current := old(lastUpdate).Some? && check < old(lastUpdate).value + timeout;
        && ok == (current || header.Some?)
        && (current || header.None? ==> multi.servers == old(multi.servers) && lastUpdate == old(lastUpdate))
        && (!current && header.Some? ==> multi.servers == Parse(header.value) && lastUpdate == Some(done))
    {
      if lastUpdate.Some? && lastUpdate.value + timeout > check { return true; }
      if header.None? { return false; }
      var parts := Split(header.value);
      var servers: seq<string> := [];
      var k := 0;
      while k < |parts|
        invariant 0 <= k <= |parts| && servers + NotBlank(parts[k..]) == NotBlank(parts)
      {
        assert parts[k..][0] == parts[k] && parts[k..][1..] == parts[k + 1..];
        if TrimSpace(parts[k]) != "" { servers := servers + [TrimSpace(parts[k])]; }
        k := k + 1;
      }
      multi.Update(servers);
      lastUpdate := Some(done);
      return true;
    }

    /**
     How old the list may be: each server in it sent a heartbeat less than the
     registry's timeout before the registry was asked, which was no more than
     the latency before the last update.
     */
    ghost predicate Backed(history: seq<Beat>, registryTimeout: nat, latency: nat)
      reads this, multi
    {
      && (lastUpdate.None? ==> multi.servers == [])
      && forall addr :: addr in multi.servers ==> Recent(history, addr, lastUpdate.value - latency - registryTimeout)
    }

    /**
     `Refresh` against a registry. If it succeeds, every server in the list
     had a heartbeat within the two timeouts and the latency of the check.
     */
    method RefreshFrom(
      registry: GeeRegistry, check: Time, reachable: bool, lo: Time, hi: Time, done: Time, ghost latency: nat)
      returns (ok: bool)
      requires registry.Valid() && registry.timeout != 0 && AllSendable(registry.history)
      requires registry.clock <= lo && check <= lo <= hi <= done <= lo + latency
      requires Backed(registry.history, registry.timeout, latency)
      modifies this, multi, registry`servers, registry`clock
      ensures registry.Valid() && registry.history == old(registry.history)
      ensures multi.index == old(multi.index)
      ensures Backed(registry.history, registry.timeout, latency)
      ensures
        var current := old(lastUpdate).Some? && check < old(lastUpdate).value + timeout;
        && ok == (current || reachable)
        && (current || !reachable ==> multi.servers == old(multi.servers) && lastUpdate == old(lastUpdate))
        && (!current && reachable ==>
              && lastUpdate == Some(done) && SortedOnce(multi.servers)
              && (forall addr :: addr in multi.servers ==> AliveAt(registry.timeout, registry.history, addr, lo))
              && (forall addr :: AliveAt(registry.timeout, registry.history, addr, hi) ==> addr in multi.servers))
      ensures ok ==> forall addr :: addr in multi.servers ==>
        Recent(registry.history, addr, check - registry.timeout - timeout - latency)
    {
      if lastUpdate.Some? && lastUpdate.value + timeout > check {
        ok := Refresh(check, None, done);
      } else if reachable {
        var alive := registry.AliveServers(lo, hi);
        ok := Refresh(check, Some(Join(alive, [COMMA])), done);
        ListArrives(registry.timeout, registry.history, alive, lo);
      } else {
        ok := Refresh(check, None, done);
        return;
      }
    }

    /**
     `Get`: an error exactly if the refresh failed, no server is listed or the
     mode is not supported; otherwise the listed server that the mode asks for.
     Without updates by hand, it had a heartbeat that recently.
     */
    method Get(
      mode: SelectMode, registry: GeeRegistry, check: Time, reachable: bool, lo: Time, hi: Time, done: Time,
      ghost latency: nat)
      returns (server: Option<string>)
      requires registry.Valid() && registry.timeout != 0 && AllSendable(registry.history)
      requires registry.clock <= lo && check <= lo <= hi <= done <= lo + latency
      requires Backed(registry.history, registry.timeout, latency)
      modifies this, multi, registry`servers, registry`clock
      ensures registry.Valid() && registry.history == old(registry.history)
      ensures Backed(registry.history, registry.timeout, latency)
      ensures
        var current := old(lastUpdate).Some? && check < old(lastUpdate).value + timeout;
        && (server.None? <==> !(current || reachable) || multi.servers == [] || mode.Unsupported?)
        && (current || !reachable ==> multi.servers == old(multi.servers))
        && (!current && reachable ==>
              && SortedOnce(multi.servers)
              && (forall addr :: addr in multi.servers ==> AliveAt(registry.timeout, registry.history, addr, lo))
              && (forall addr :: AliveAt(registry.timeout, registry.history, addr, hi) ==> addr in multi.servers))
      ensures server.None? || mode.RandomSelect? ==> multi.index == old(multi.index)
      ensures server.Some? ==> server.value in multi.servers
      ensures server.Some? && mode.RoundRobinSelect? ==>
        var n := |multi.servers|;
        server == Some(multi.servers[old(multi.index) % n]) && multi.index == (old(multi.index) + 1) % n
      ensures server.Some? ==>
        Recent(registry.history, server.value, check - registry.timeout - timeout - latency)
    {
      var ok := RefreshFrom(registry, check, reachable, lo, hi, done, latency);
      if !ok { return None; }
      var random: nat :| multi.servers != [] ==> random < |multi.servers|;
      server := multi.Get(mode, random);
    }

    /** Heartbeats that arrive later only make the list younger. */
    lemma BackedSurvivesBeats(history: seq<Beat>, more: seq<Beat>, registryTimeout: nat, latency: nat)
      requires Backed(history, registryTimeout, latency)
      ensures Backed(history + more, registryTimeout, latency)
    {
      forall addr | addr in multi.servers
        ensures Recent(history + more, addr, lastUpdate.value - latency - registryTimeout)
      {
        var after := lastUpdate.value - latency - registryTimeout;
        RecentStays(history, more, addr, after, after);
      }
    }
  }

  /** The list arrives whole, and every server in it is recent. */
  lemma ListArrives(timeout: nat, history: seq<Beat>, alive: seq<string>, lo: Time)
    requires timeout != 0 && AllSendable(history)
    requires forall addr :: addr in alive ==> AliveAt(timeout, history, addr, lo)
    ensures Parse(Join(alive, [COMMA])) == alive
    ensures forall addr :: addr in alive ==> Recent(history, addr, lo - timeout)
  {
    forall i | 0 <= i < |alive| ensures Sendable(alive[i]) {
      assert alive[i] in alive;
      AliveIsSendable(timeout, history, alive[i], lo);
    }
    TransportIff(alive);
    forall addr | addr in alive ensures Recent(history, addr, lo - timeout) {
      AliveIsRecent(timeout, history, addr, lo);
    }
  }
}
