/**
 LRU as a stack algorithm: what `Group.Get` leaves in a cache of a given size
 when it reads through a constant source, and how caches of different sizes
 compare on the same sequence of reads.
 */
module LruStack {
  import opened Wrappers
  import opened Recency

  /** A getter that always answers the same: the keys outside the map are errors. */
  type Source = map<string, string>

  /** `Group.Get` without peers: an empty key and a failing getter leave the cache alone. */
  function Access(limit: nat, source: Source, s: Entries, key: string): Entries {
    if key == "" then s
    else if Lookup(s, key).Some? then Touch(s, key)
    else if key in source then Fit(limit, Put(s, key, source[key]))
    else s
  }

  /** The cache after a sequence of reads. */
  function Contents(limit: nat, source: Source, trace: seq<string>): Entries {
    if trace == [] then []
    else Access(limit, source, Contents(limit, source, trace[..|trace| - 1]), trace[|trace| - 1])
  }

  /** Entries are distinct and agree with the source. */
  ghost predicate Mirrors(source: Source, s: Entries) {
    Distinct(s) && forall i :: 0 <= i < |s| ==> s[i].key in source && source[s[i].key] == s[i].value
  }

  lemma {:induction false} LookupPosition(s: Entries, key: string) returns (i: nat)
    ensures Lookup(s, key).Some? ==> i < |s| && s[i] == Entry(key, Lookup(s, key).value)
    ensures Lookup(s, key).None? ==> forall j :: 0 <= j < |s| ==> s[j].key != key
  {
    if s == [] || s[0].key == key {
      i := 0;
    } else {
      i := LookupPosition(s[1..], key);
      if Lookup(s, key).None? {
        forall j | 0 <= j < |s| ensures s[j].key != key {
          if j > 0 { assert s[1..][j - 1].key != key; }
        }
      }
      i := i + 1;
    }
  }

  lemma PutMirrors(source: Source, s: Entries, key: string)
    requires Mirrors(source, s) && key in source
    ensures Mirrors(source, Put(s, key, source[key]))
  {
    var i := LookupPosition(s, key);
    if Lookup(s, key).Some? {
      WithoutAt(s, i);
    } else {
      WithoutAbsent(s, key);
    }
  }

  lemma AccessMirrors(limit: nat, source: Source, s: Entries, key: string)
    requires Mirrors(source, s)
    ensures Mirrors(source, Access(limit, source, s, key))
  {
    var i := LookupPosition(s, key);
    if key in source {
      PutMirrors(source, s, key);
      FitIsLongest(limit, Put(s, key, source[key]), 0);
    }
  }

  /** A hit within the part that fits reorders that part and leaves what fits as it was. */
  lemma HitCommutesWithFit(limit: nat, s: Entries, n: nat, i: nat)
    requires Distinct(s) && i < n <= |s| && Fit(limit, s) == s[..n]
    ensures Touch(s[..n], s[i].key) == Fit(limit, Touch(s, s[i].key))
  {
    var key, part := s[i].key, s[..n];
    var front := Touch(part, key);
    TouchStaysInFront(s, n, i);
    TouchKeepsSize(part, i);
    FitIsLongest(limit, s, n);
    if n < |s| { FitIsLongest(limit, s, n + 1); }
    assert s == part + s[n..];
    SameSizeSameFit(limit, part, front, s[n..]);
  }

  /** How much fits of a list that begins with what fits depends only on the size of that beginning. */
  lemma SameSizeSameFit(limit: nat, part: Entries, front: Entries, rest: Entries)
    requires |part| == |front| && Size(part) == Size(front) && Fits(limit, part)
    requires rest != [] ==> !Fits(limit, (part + rest)[..|part| + 1])
    ensures Fit(limit, front + rest) == front
  {
    var whole, n := front + rest, |front|;
    assert whole[..n] == front;
    if rest != [] {
      assert whole[..n + 1] == front + [rest[0]] && (part + rest)[..n + 1] == part + [rest[0]];
      SizeOfConcat(front, [rest[0]]);
      SizeOfConcat(part, [rest[0]]);
    }
    FitIsUnique(limit, whole, n);
  }

  lemma TouchStaysInFront(s: Entries, n: nat, i: nat)
    requires Distinct(s) && i < n <= |s|
    ensures Touch(s, s[i].key) == Touch(s[..n], s[i].key) + s[n..] && |Touch(s[..n], s[i].key)| == n
  {
    var part, rest := s[..n], s[n..];
    LookupAt(s, i);
    LookupAt(part, i);
    WithoutAt(s, i);
    WithoutAt(part, i);
    assert part[i] == s[i] && part[..i] == s[..i] && s[i + 1..] == part[i + 1..] + rest;
    Regrouped(s[i], part[..i], part[i + 1..], rest);
  }

  lemma Regrouped(e: Entry, a: Entries, b: Entries, c: Entries)
    ensures [e] + (a + (b + c)) == ([e] + (a + b)) + c
  {
  }

  lemma TouchKeepsSize(s: Entries, i: nat)
    requires Distinct(s) && i < |s|
    ensures Size(Touch(s, s[i].key)) == Size(s)
  {
    LookupAt(s, i);
    SizeWithoutAt(s, i);
    assert Touch(s, s[i].key)[1..] == Without(s, s[i].key);
  }

  /** Entries too far back to fit play no part in what fits. */
  lemma FitOfPrefix(limit: nat, s: Entries, n: nat)
    requires n <= |s| && (n < |s| ==> !Fits(limit, s[..n + 1]))
    ensures Fit(limit, s) == Fit(limit, s[..n])
  {
    var part := s[..n];
    var f := |Fit(limit, s)|;
    FitIsLongest(limit, s, n);
    if n < |s| { FitIsLongest(limit, s, n + 1); }
    FitIsLongest(limit, s, f);
    assert part[..f] == s[..f];
    if f < n {
      FitIsLongest(limit, s, f + 1);
      assert part[..f + 1] == s[..f + 1];
    }
    FitIsUnique(limit, part, f);
  }

  /** A miss brings the same entry to the front of both, and pushes out the same ones. */
  lemma MissCommutesWithFit(limit: nat, source: Source, s: Entries, n: nat, key: string)
    requires Mirrors(source, s) && key in source && n <= |s| && Fit(limit, s) == s[..n]
    requires forall j :: 0 <= j < n ==> s[j].key != key
    ensures Fit(limit, Put(s[..n], key, source[key])) == Fit(limit, Put(s, key, source[key]))
  {
    var part, e := s[..n], Entry(key, source[key]);
    var whole := Put(s, key, source[key]);
    WithoutAbsent(part, key);
    MissedEntries(source, s, n, key);
    if n + 1 < |whole| {
      FitIsLongest(limit, s, n + 1);
      assert s[..n + 1] == part + [s[n]];
      if s[n] == e { NoRoomAfter(limit, e, part, whole[n + 1]); } else { NoRoomBefore(limit, e, part, s[n]); }
      assert whole[..n + 2] == [e] + part + [whole[n + 1]];
    }
    FitOfPrefix(limit, whole, n + 1);
  }

  /** After a miss among the first n entries these follow the new one, and then comes the next, if it is another. */
  lemma MissedEntries(source: Source, s: Entries, n: nat, key: string)
    requires Mirrors(source, s) && key in source && n <= |s|
    requires forall j :: 0 <= j < n ==> s[j].key != key
    ensures
      var e, whole := Entry(key, source[key]), Put(s, key, source[key]);
      n < |whole| <= |s| + 1 && whole[..n + 1] == [e] + s[..n] &&
      (n + 1 < |whole| ==> n < |s| && (s[n] == e || whole[n + 1] == s[n]))
  {
    var i := LookupPosition(s, key);
    if Lookup(s, key).Some? { WithoutAt(s, i); } else { WithoutAbsent(s, key); }
  }

  /** One entry too many is too many with another in front. */
  lemma NoRoomBefore(limit: nat, e: Entry, part: Entries, last: Entry)
    requires !Fits(limit, part + [last])
    ensures !Fits(limit, [e] + part + [last])
  {
    assert [e] + part + [last] == [e] + (part + [last]);
    SizeOfConcat([e], part + [last]);
  }

  /** Wherever that entry is, and whatever comes after. */
  lemma NoRoomAfter(limit: nat, e: Entry, part: Entries, last: Entry)
    requires !Fits(limit, part + [e])
    ensures !Fits(limit, [e] + part + [last])
  {
    SizeOfConcat(part, [e]);
    SizeOfConcat([e], part);
    SizeOfConcat([e] + part, [last]);
  }

  lemma AccessCommutesWithFit(limit: nat, source: Source, s: Entries, key: string)
    requires Mirrors(source, s)
    ensures Access(limit, source, Fit(limit, s), key) == Fit(limit, Access(0, source, s, key))
  {
    FitIsLongest(limit, s, 0);
    var n := |Fit(limit, s)|;
    var part := s[..n];
    assert part == Fit(limit, s);
    var i := LookupPosition(s, key);
    var j := LookupPosition(part, key);
    if key == "" {
    } else if Lookup(part, key).Some? {
      assert part[j] == s[j];
      LookupAt(s, j);
      HitCommutesWithFit(limit, s, n, j);
    } else if key in source {
      MissCommutesWithFit(limit, source, s, n, key);
      assert Access(0, source, s, key) == Put(s, key, source[key]);
    } else {
      assert Lookup(s, key).None?;
    }
  }

  /**
   After any sequence of reads, a cache of any size holds exactly the longest
   part of the unlimited cache's recency list that fits into it.
   */
  lemma {:induction false} ContentsIsFitOfUnlimited(limit: nat, source: Source, trace: seq<string>)
    ensures Mirrors(source, Contents(0, source, trace))
    ensures Contents(limit, source, trace) == Fit(limit, Contents(0, source, trace))
  {
    if trace != [] {
      var before, key := trace[..|trace| - 1], trace[|trace| - 1];
      ContentsIsFitOfUnlimited(limit, source, before);
      AccessCommutesWithFit(limit, source, Contents(0, source, before), key);
      AccessMirrors(0, source, Contents(0, source, before), key);
    }
  }

  /** The last read of `key` is at this position of the trace. */
  ghost predicate LastReadAt(trace: seq<string>, key: string, p: nat) {
    p < |trace| && trace[p] == key && forall k :: p < k < |trace| ==> trace[k] != key
  }

  /** `s` has an entry with the source's value for each key last read at one of the positions `at`, later ones first. */
  ghost predicate OrderedByLastRead(source: Source, trace: seq<string>, s: Entries, at: seq<nat>) {
    && |at| == |s|
    && (forall i :: 0 <= i < |s| ==> LastReadAt(trace, s[i].key, at[i]))
    && (forall i, j :: 0 <= i < j < |s| ==> at[i] > at[j])
    && (forall i :: 0 <= i < |s| ==> s[i].key != "" && s[i].key in source && s[i].value == source[s[i].key])
  }

  lemma OneMoreRead(source: Source, trace: seq<string>, s: Entries, at: seq<nat>, key: string)
    requires OrderedByLastRead(source, trace, s, at)
    requires forall i :: 0 <= i < |s| ==> s[i].key != key
    ensures OrderedByLastRead(source, trace + [key], s, at)
    ensures key != "" && key in source ==>
      OrderedByLastRead(source, trace + [key], [Entry(key, source[key])] + s, [|trace|] + at)
  {
    forall i | 0 <= i < |s| ensures LastReadAt(trace + [key], s[i].key, at[i]) {
      assert LastReadAt(trace, s[i].key, at[i]);
    }
  }

  lemma OneEntryLess(source: Source, trace: seq<string>, s: Entries, at: seq<nat>, i: nat)
    requires OrderedByLastRead(source, trace, s, at) && i < |s|
    ensures OrderedByLastRead(source, trace, s[..i] + s[i + 1..], at[..i] + at[i + 1..])
  {
  }

  /**
   Without a limit, what is cached after any sequence of reads is exactly the
   keys of the source that were read, with their values, by their last read.
   */
  lemma {:induction false} ContentsAreTheKeysRead(source: Source, trace: seq<string>) returns (at: seq<nat>)
    ensures OrderedByLastRead(source, trace, Contents(0, source, trace), at)
    ensures forall key :: key in trace && key != "" && key in source ==>
      exists e :: e in Contents(0, source, trace) && e.key == key
  {
    at := [];
    if trace != [] {
      var before, key := trace[..|trace| - 1], trace[|trace| - 1];
      at := ContentsAreTheKeysRead(source, before);
      ContentsIsFitOfUnlimited(0, source, before);
      at := AccessKeepsOrder(source, before, Contents(0, source, before), at, key);
      StillCached(source, Contents(0, source, before), key, before);
      assert trace == before + [key];
    }
  }

  lemma AccessKeepsOrder(source: Source, before: seq<string>, u: Entries, at: seq<nat>, key: string)
    returns (at': seq<nat>)
    requires Mirrors(source, u) && OrderedByLastRead(source, before, u, at)
    ensures OrderedByLastRead(source, before + [key], Access(0, source, u, key), at')
  {
    var i := LookupPosition(u, key);
    if key == "" || key !in source {
      OneMoreRead(source, before, u, at, key);
      at' := at;
    } else if Lookup(u, key).Some? {
      WithoutAt(u, i);
      OneEntryLess(source, before, u, at, i);
      at' := at[..i] + at[i + 1..];
      OneMoreRead(source, before, Without(u, key), at', key);
      at' := [|before|] + at';
    } else {
      WithoutAbsent(u, key);
      OneMoreRead(source, before, u, at, key);
      at' := [|before|] + at;
    }
  }

  lemma StillCached(source: Source, u: Entries, key: string, before: seq<string>)
    requires Mirrors(source, u)
    requires forall k :: k in before && k != "" && k in source ==> exists e :: e in u && e.key == k
    ensures forall k :: k in before + [key] && k != "" && k in source ==>
      exists e :: e in Access(0, source, u, key) && e.key == k
  {
    var u' := Access(0, source, u, key);
    var i := LookupPosition(u, key);
    if Lookup(u, key).Some? { WithoutAt(u, i); } else { WithoutAbsent(u, key); }
    forall k | k in before + [key] && k != "" && k in source ensures exists e :: e in u' && e.key == k {
      if k == key {
        assert u'[0].key == key;
      } else {
        var e :| e in u && e.key == k;
        assert e in u';
      }
    }
  }

  /** `small` is at most `large` when 0 stands for no limit. */
  predicate NoLarger(small: nat, large: nat) { large == 0 || (small != 0 && small <= large) }

  /** Stack inclusion: the smaller cache always holds a prefix of the larger one's recency list. */
  lemma StackInclusion(small: nat, large: nat, source: Source, trace: seq<string>)
    requires NoLarger(small, large)
    ensures Contents(small, source, trace) <= Contents(large, source, trace)
  {
    var s := Contents(0, source, trace);
    ContentsIsFitOfUnlimited(small, source, trace);
    ContentsIsFitOfUnlimited(large, source, trace);
    FitIsLongest(small, s, 0);
    var n := |Fit(small, s)|;
    FitIsLongest(small, s, n);
    FitIsLongest(large, s, n);
  }

  /** So a read that hits in the smaller cache hits in the larger one. */
  lemma LargerCacheHitsMore(small: nat, large: nat, source: Source, trace: seq<string>, key: string)
    requires NoLarger(small, large)
    requires Lookup(Contents(small, source, trace), key).Some?
    ensures Lookup(Contents(large, source, trace), key) == Lookup(Contents(small, source, trace), key)
  {
    StackInclusion(small, large, source, trace);
    var s, t := Contents(small, source, trace), Contents(large, source, trace);
    ContentsIsFitOfUnlimited(large, source, trace);
    var u := Contents(0, source, trace);
    FitIsLongest(large, u, 0);
    var i := LookupPosition(s, key);
    assert t[i] == s[i];
    LookupAt(t, i);
  }
}
