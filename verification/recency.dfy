/** Recency lists: the cached entries, most recently used first, with no key twice. */
module Recency {
  import opened Wrappers

  datatype Entry = Entry(key: string, value: string)

  type Entries = seq<Entry>

  function Cost(e: Entry): nat { |e.key| + |e.value| }

  /** The bytes an LRU cache accounts for. */
  function Size(s: Entries): nat {
    if s == [] then 0 else Cost(s[0]) + Size(s[1..])
  }

  ghost predicate Distinct(s: Entries) {
    forall i, j :: 0 <= i < j < |s| ==> s[i].key != s[j].key
  }

  function Without(s: Entries, key: string): Entries {
    if s == [] then []
    else (if s[0].key == key then [] else [s[0]]) + Without(s[1..], key)
  }

  function Lookup(s: Entries, key: string): Option<string> {
    if s == [] then None
    else if s[0].key == key then Some(s[0].value)
    else Lookup(s[1..], key)
  }

  /** `key` becomes the most recent entry, with this value. */
  function Put(s: Entries, key: string, value: string): Entries { [Entry(key, value)] + Without(s, key) }

  /** A hit on `key`. */
  function Touch(s: Entries, key: string): Entries {
    match Lookup(s, key)
    case None => s
    case Some(value) => Put(s, key, value)
  }

  predicate Fits(limit: nat, s: Entries) { limit == 0 || Size(s) <= limit }

  /** What is left after dropping entries from the back until the rest fits; a limit of 0 is none. */
  function Fit(limit: nat, s: Entries): Entries
    decreases |s|
  {
    if Fits(limit, s) then s else Fit(limit, s[..|s| - 1])
  }

  /** The entries that Fit drops, in the order it drops them. */
  function Dropped(limit: nat, s: Entries): Entries
    decreases |s|
  {
    if Fits(limit, s) then [] else [s[|s| - 1]] + Dropped(limit, s[..|s| - 1])
  }

  /** One turn of the eviction loop. */
  lemma DropOne(limit: nat, s: Entries, log: Entries)
    requires !Fits(limit, s)
    ensures s != []
    ensures Fit(limit, s) == Fit(limit, s[..|s| - 1])
    ensures (log + [s[|s| - 1]]) + Dropped(limit, s[..|s| - 1]) == log + Dropped(limit, s)
  {
  }

  /** A new value for the first entry. */
  lemma PutSwapsValue(s: Entries, key: string, value: string, value': string)
    ensures Put(s, key, value') == [Entry(key, value')] + Put(s, key, value)[1..]
    ensures Size(Put(s, key, value')) == Size(Put(s, key, value)) - |value| + |value'|
  {
    assert Put(s, key, value)[1..] == Put(s, key, value')[1..] == Without(s, key);
  }

  function Reverse<T>(s: seq<T>): seq<T> {
    if s == [] then [] else Reverse(s[1..]) + [s[0]]
  }

  lemma {:induction false} SizeOfConcat(s: Entries, t: Entries)
    ensures Size(s + t) == Size(s) + Size(t)
  {
    if s == [] {
      assert s + t == t;
    } else {
      SizeOfConcat(s[1..], t);
      assert (s + t)[1..] == s[1..] + t;
    }
  }

  lemma {:induction false} WithoutAbsent(s: Entries, key: string)
    requires forall i :: 0 <= i < |s| ==> s[i].key != key
    ensures Without(s, key) == s && Lookup(s, key) == None
  {
    if s != [] {
      WithoutAbsent(s[1..], key);
    }
  }

  lemma {:induction false} LookupAt(s: Entries, i: nat)
    requires Distinct(s) && i < |s|
    ensures Lookup(s, s[i].key) == Some(s[i].value)
  {
    if i > 0 {
      assert s[0].key != s[i].key;
      LookupAt(s[1..], i - 1);
    }
  }

  lemma {:induction false} WithoutAt(s: Entries, i: nat)
    requires Distinct(s) && i < |s|
    ensures Without(s, s[i].key) == s[..i] + s[i + 1..]
  {
    if i == 0 {
      WithoutAbsent(s[1..], s[0].key);
    } else {
      var t := s[1..];
      WithoutAt(t, i - 1);
      assert s[..i] == [s[0]] + t[..i - 1];
    }
  }

  /** Removing an entry takes its cost away, and nothing else. */
  lemma {:induction false} SizeWithoutAt(s: Entries, i: nat)
    requires Distinct(s) && i < |s|
    ensures Size(s) == Cost(s[i]) + Size(Without(s, s[i].key))
  {
    if i == 0 {
      WithoutAbsent(s[1..], s[0].key);
      assert Without(s, s[0].key) == s[1..];
    } else {
      SizeWithoutAt(s[1..], i - 1);
      var rest := Without(s[1..], s[i].key);
      assert ([s[0]] + rest)[1..] == rest;
    }
  }

  /** A list that fits within `limit` does so with any of its prefixes. */
  lemma SizeOfPrefix(s: Entries, n: nat)
    requires n <= |s|
    ensures Size(s[..n]) <= Size(s)
  {
    assert s == s[..n] + s[n..];
    SizeOfConcat(s[..n], s[n..]);
  }

  /** Fit keeps the longest prefix that fits: it fits, and no longer prefix does. */
  lemma {:induction false} FitIsLongest(limit: nat, s: Entries, n: nat)
    requires n <= |s|
    ensures Fit(limit, s) <= s && Fits(limit, Fit(limit, s))
    ensures Fits(limit, s[..n]) <==> n <= |Fit(limit, s)|
    decreases |s|
  {
    if Fits(limit, s) {
      SizeOfPrefix(s, n);
    } else {
      var shorter := s[..|s| - 1];
      if n < |s| {
        FitIsLongest(limit, shorter, n);
        assert shorter[..n] == s[..n];
      } else {
        FitIsLongest(limit, shorter, 0);
        assert s[..n] == s;
      }
    }
  }

  /** With a limit as many of the most recent entries stay as have no more bytes than that together; without, all do. */
  lemma StaysIff(limit: nat, s: Entries, n: nat)
    requires n <= |s|
    ensures limit != 0 ==> (n <= |Fit(limit, s)| <==> Size(s[..n]) <= limit)
    ensures limit == 0 ==> Fit(limit, s) == s
  {
    FitIsLongest(limit, s, n);
  }

  /** The bytes of a list are those of its keys and values. */
  lemma SizeCountsKeysAndValues(s: Entries, key: string, value: string)
    ensures Size([]) == 0 && Size(s + [Entry(key, value)]) == Size(s) + |key| + |value|
  {
    SizeOfConcat(s, [Entry(key, value)]);
  }

  /** Which is to say that Fit is the only such prefix. */
  lemma FitIsUnique(limit: nat, s: Entries, n: nat)
    requires n <= |s| && Fits(limit, s[..n]) && (n < |s| ==> !Fits(limit, s[..n + 1]))
    ensures Fit(limit, s) == s[..n]
  {
    FitIsLongest(limit, s, n);
    if n < |s| { FitIsLongest(limit, s, n + 1); }
  }

  /** Nothing is lost: what Fit keeps, then what it dropped in reverse, is the list it was given. */
  lemma {:induction false} KeptAndDropped(limit: nat, s: Entries)
    ensures Fit(limit, s) + Reverse(Dropped(limit, s)) == s
    decreases |s|
  {
    if !Fits(limit, s) {
      var n := |s| - 1;
      KeptAndDropped(limit, s[..n]);
      assert Dropped(limit, s)[1..] == Dropped(limit, s[..n]);
      assert s == s[..n] + [s[n]];
    }
  }
}
