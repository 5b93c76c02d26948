/** A GeeCache group on one node, without peers: the cache it creates lazily, and the getter behind it. */
module Group {
  import opened Wrappers
  import opened Recency
  import Lru
  import opened LruStack

  /** What a read answers, None for the getter's error. */
  function Answer(source: Source, s: Entries, key: string): Option<string> {
    if key == "" then Some("")
    else if Lookup(s, key).Some? then Lookup(s, key)
    else if key in source then Some(source[key])
    else None
  }

  /** A cache that mirrors the source answers what the source does. */
  lemma MirrorAnswers(source: Source, s: Entries, key: string)
    requires Mirrors(source, s)
    ensures Answer(source, s, key) == if key == "" then Some("") else if key in source then Some(source[key]) else None
  {
    var i := LookupPosition(s, key);
  }

  /** After any sequence of reads, with a limit of any size, a Get answers what the source does. */
  lemma AnswerIsTheSources(limit: nat, source: Source, trace: seq<string>, key: string)
    ensures Answer(source, Contents(limit, source, trace), key) ==
      if key == "" then Some("") else if key in source then Some(source[key]) else None
  {
    var all := Contents(0, source, trace);
    ContentsIsFitOfUnlimited(limit, source, trace);
    FitIsLongest(limit, all, 0);
    MirrorAnswers(source, Fit(limit, all), key);
  }

  predicate Hit(s: Entries, key: string) { exists e :: e in s && e.key == key }

  /** Whether an entry alone is within the limit. */
  predicate FitsAlone(limit: nat, key: string, value: string) { limit == 0 || |key| + |value| <= limit }

  /** What a read of `key` leaves in the cache `s'` if it found `s`. */
  ghost predicate ReadLeaves(limit: nat, source: Source, s: Entries, key: string, s': Entries) {
    && (key == "" || (!Hit(s, key) && key !in source) ==> s' == s)
    && (key != "" && Hit(s, key) ==>
          exists i :: 0 <= i < |s| && s[i].key == key && s' == [s[i]] + s[..i] + s[i + 1..])
    && (key != "" && !Hit(s, key) && key in source ==>
          if FitsAlone(limit, key, source[key])
          then s' != [] && s'[0] == Entry(key, source[key]) && s'[1..] <= s
          else s' == [])
  }

  lemma ReadCaches(limit: nat, source: Source, s: Entries, key: string)
    requires Distinct(s)
    ensures ReadLeaves(limit, source, s, key, Access(limit, source, s, key))
  {
    var i := LookupPosition(s, key);
    if key == "" {
    } else if Lookup(s, key).Some? {
      WithoutAt(s, i);
      LookupAt(s, i);
    } else if key in source {
      assert !Hit(s, key);
      MissCaches(limit, Entry(key, source[key]), s);
      WithoutAbsent(s, key);
    }
  }

  lemma MissCaches(limit: nat, e: Entry, s: Entries)
    ensures
      var s' := Fit(limit, [e] + s);
      if FitsAlone(limit, e.key, e.value) then s' != [] && s'[0] == e && s'[1..] <= s else s' == []
  {
    var whole := [e] + s;
    StaysIff(limit, whole, 1);
    FitIsLongest(limit, whole, 0);
    assert whole[..1] == [e] && Size([e]) == |e.key| + |e.value|;
  }

  class LocalGroup {
    const cacheBytes: nat
    const source: Source
    var lru: Lru.Cache?

    /** The recency list; a cache that was not created yet is empty. */
    ghost function View(): Entries
      reads this, lru, if lru == null then [] else lru.ll
    {
      if lru == null then [] else lru.View()
    }

    ghost predicate Valid()
      reads this, lru, if lru == null then [] else lru.ll
    {
      lru != null ==> lru.Valid() && lru.maxBytes == cacheBytes
    }

    /** NewGroup */
    constructor (cacheBytes: nat, source: Source)
      ensures Valid() && View() == [] && lru == null
      ensures this.cacheBytes == cacheBytes && this.source == source
    {
      this.cacheBytes, this.source, lru := cacheBytes, source, null;
    }

    /** `cache.get` */
    method Cached(key: string) returns (value: Option<string>)
      requires Valid()
      modifies lru
      ensures Valid() && value == Lookup(old(View()), key) && View() == Touch(old(View()), key)
      ensures lru != null && value.None? ==> lru.ll == old(lru.ll)
    {
      if lru == null { return None; }
      value := lru.Get(key);
    }

    /** `populateCache`, which is `cache.add` */
    method Populate(key: string, value: string)
      requires Valid()
      modifies this, lru, if lru == null then [] else lru.ll
      ensures Valid() && View() == Fit(cacheBytes, Put(old(View()), key, value))
    {
      if lru == null {
        lru := new Lru.Cache(cacheBytes);
      }
      lru.Add(key, value);
    }

    /** `getLocally`, by the source; None is its error. */
    method GetLocally(key: string) returns (value: Option<string>)
      requires Valid()
      modifies this, lru, if lru == null then [] else lru.ll
      ensures Valid() && value == if key in source then Some(source[key]) else None
      ensures View() == if key in source then Fit(cacheBytes, Put(old(View()), key, source[key])) else old(View())
    {
      if key !in source { return None; }
      Populate(key, source[key]);
      value := Some(source[key]);
    }

    /** `Group.Get` */
    method Get(key: string) returns (value: Option<string>)
      requires Valid()
      modifies this, lru, if lru == null then [] else lru.ll
      ensures Valid() && View() == Access(cacheBytes, source, old(View()), key)
      ensures value == Answer(source, old(View()), key)
      ensures ReadLeaves(cacheBytes, source, old(View()), key, View())
    {
      ghost var s := View();
      if lru != null { Lru.LinkedOncePerKey(lru.ll, lru.cache); }
      ReadCaches(cacheBytes, source, s, key);
      if key == "" { return Some(""); }
      value := Cached(key);
      if value.Some? { return; }
      value := GetLocally(key);
    }
  }
}
