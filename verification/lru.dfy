/**
 The LRU cache of GeeCache: a list of elements, a map from keys to those same
 elements, and a byte counter, updated in place.
 */
module Lru {
  import opened Wrappers
  import opened Recency

  /** A node of the list; the map points at it too. */
  class Element {
    const key: string
    var value: string

    constructor (key: string, value: string)
      ensures this.key == key && this.value == value
    {
      this.key, this.value := key, value;
    }
  }

  /** What the elements of a list hold. */
  ghost function EntriesOf(ll: seq<Element>): (s: Entries)
    reads ll
    ensures |s| == |ll|
    ensures forall i :: 0 <= i < |ll| ==> s[i] == Entry(ll[i].key, ll[i].value)
  {
    seq(|ll|, i requires 0 <= i < |ll| reads ll => Entry(ll[i].key, ll[i].value))
  }

  ghost predicate OncePerKey(ll: seq<Element>) {
    forall i, j :: 0 <= i < j < |ll| ==> ll[i].key != ll[j].key
  }

  /** The map points at the elements of the list, and there are as many of those as keys. */
  ghost predicate Linked(ll: seq<Element>, cache: map<string, Element>) {
    && |ll| == |cache|
    && (forall e :: e in ll ==> e.key in cache && cache[e.key] == e)
    && (forall key :: key in cache ==> cache[key] in ll && cache[key].key == key)
  }

  ghost predicate AllIn(keys: set<string>, ll: seq<Element>) {
    forall key :: key in keys ==> exists i :: 0 <= i < |ll| && ll[i].key == key
  }

  lemma {:induction false} NoMoreKeys(keys: set<string>, ll: seq<Element>)
    requires AllIn(keys, ll)
    ensures |keys| <= |ll|
  {
    if ll == [] {
      if key :| key in keys { assert false; }
    } else {
      var rest := keys - {ll[0].key};
      forall key | key in rest ensures exists i :: 0 <= i < |ll[1..]| && ll[1..][i].key == key {
        var i :| 0 <= i < |ll| && ll[i].key == key;
        assert ll[1..][i - 1].key == key;
      }
      NoMoreKeys(rest, ll[1..]);
      assert keys <= rest + {ll[0].key};
    }
  }

  /** So no key is in the list twice. */
  lemma LinkedOncePerKey(ll: seq<Element>, cache: map<string, Element>)
    requires Linked(ll, cache)
    ensures OncePerKey(ll)
  {
    assert |cache.Keys| == |cache|;
    forall i, j | 0 <= i < j < |ll| ensures ll[i].key != ll[j].key {
      var others := ll[..i] + ll[i + 1..];
      if ll[i].key == ll[j].key {
        forall key | key in cache.Keys ensures exists k :: 0 <= k < |others| && others[k].key == key {
          var k :| 0 <= k < |ll| && ll[k] == cache[key];
          var k' := if k == i then j - 1 else if k < i then k else k - 1;
          assert others[k'].key == key;
        }
        NoMoreKeys(cache.Keys, others);
      }
    }
  }

  /** list.MoveToFront */
  method MoveToFront(ll: seq<Element>, ele: Element) returns (moved: seq<Element>, ghost i: nat)
    requires ele in ll
    ensures i < |ll| && ll[i] == ele && moved == [ele] + ll[..i] + ll[i + 1..]
    ensures forall e :: e in moved ==> e in ll
  {
    var n: nat := 0;
    while ll[n] != ele
      invariant n < |ll| && ele !in ll[..n]
      decreases |ll| - n
    {
      n := n + 1;
    }
    i, moved := n, [ele] + ll[..n] + ll[n + 1..];
  }

  lemma MovedStaysLinked(ll: seq<Element>, cache: map<string, Element>, i: nat)
    requires Linked(ll, cache) && i < |ll|
    ensures Linked([ll[i]] + ll[..i] + ll[i + 1..], cache)
  {
    MovedHoldsTheSame(ll, i);
  }

  lemma MovedHoldsTheSame(ll: seq<Element>, i: nat)
    requires i < |ll|
    ensures forall e :: e in [ll[i]] + ll[..i] + ll[i + 1..] <==> e in ll
  {
    assert ll == ll[..i] + [ll[i]] + ll[i + 1..];
  }

  lemma MovedEntries(ll: seq<Element>, cache: map<string, Element>, i: nat)
    requires Linked(ll, cache) && i < |ll|
    ensures EntriesOf([ll[i]] + ll[..i] + ll[i + 1..]) == Put(EntriesOf(ll), ll[i].key, ll[i].value)
    ensures Size(EntriesOf([ll[i]] + ll[..i] + ll[i + 1..])) == Size(EntriesOf(ll))
  {
    var s := EntriesOf(ll);
    LinkedOncePerKey(ll, cache);
    WithoutAt(s, i);
    SizeWithoutAt(s, i);
    EntriesMoved(ll, i);
    PutCosts(s[i], Without(s, s[i].key));
  }

  lemma PutCosts(e: Entry, s: Entries)
    ensures Size([e] + s) == Cost(e) + Size(s)
  {
    assert ([e] + s)[1..] == s;
  }

  lemma EntriesMoved(ll: seq<Element>, i: nat)
    requires i < |ll|
    ensures
      var s := EntriesOf(ll);
      EntriesOf([ll[i]] + ll[..i] + ll[i + 1..]) == [s[i]] + (s[..i] + s[i + 1..])
  {
  }

  lemma LookupInList(ll: seq<Element>, cache: map<string, Element>, key: string)
    requires Linked(ll, cache)
    ensures Lookup(EntriesOf(ll), key) == if key in cache then Some(cache[key].value) else None
    ensures key !in cache ==> Without(EntriesOf(ll), key) == EntriesOf(ll)
  {
    var s := EntriesOf(ll);
    if key in cache {
      LinkedOncePerKey(ll, cache);
      var i :| 0 <= i < |ll| && ll[i] == cache[key];
      LookupAt(s, i);
    } else {
      forall i | 0 <= i < |s| ensures s[i].key != key {
        assert ll[i] in ll;
      }
      WithoutAbsent(s, key);
    }
  }

  lemma ValueSwapped(ll: seq<Element>, s: Entries, value: string)
    requires |ll| == |s| > 0 && ll[0].value == value && ll[0].key == s[0].key
    requires forall i :: 1 <= i < |ll| ==> s[i] == Entry(ll[i].key, ll[i].value)
    ensures EntriesOf(ll) == [Entry(s[0].key, value)] + s[1..]
  {
  }

  lemma SizeWithLast(front: Entries, last: Entry)
    ensures Size(front + [last]) == Size(front) + Cost(last)
  {
    SizeOfConcat(front, [last]);
  }

  lemma NewValueCosts(s: Entries, key: string, value: string)
    requires s != [] && s[0].key == key
    ensures Size([Entry(key, value)] + s[1..]) == Size(s) - |s[0].value| + |value|
  {
    PutCosts(Entry(key, value), s[1..]);
  }

  class Cache {
    const maxBytes: nat
    var nbytes: int
    var ll: seq<Element>
    var cache: map<string, Element>
    /** The calls of OnEvicted so far. */
    var evicted: seq<Entry>

    /** The recency list: what is cached, most recently used first. */
    ghost function View(): Entries
      reads this, ll
    {
      EntriesOf(ll)
    }

    /** List and map hold the same elements, no key twice, and the counter is the sum of the costs. */
    ghost predicate Valid()
      reads this, ll
    {
      Linked(ll, cache) && nbytes == Size(View())
    }

    constructor (maxBytes: nat)
      ensures Valid() && View() == [] && this.maxBytes == maxBytes && evicted == [] && ll == []
    {
      this.maxBytes := maxBytes;
      nbytes, ll, cache, evicted := 0, [], map[], [];
    }

    /** An element moves to the front of the list. */
    method Front(ele: Element)
      requires Valid() && ele in ll
      modifies this`ll
      ensures Valid() && View() == Put(old(View()), ele.key, ele.value)
      ensures ll != [] && ll[0] == ele && forall e :: e in ll ==> e in old(ll)
    {
      var moved, i := MoveToFront(ll, ele);
      ghost var s := Put(View(), ele.key, ele.value);
      MovedStaysLinked(ll, cache, i);
      MovedEntries(ll, cache, i);
      ll := moved;
      assert View() == s;
    }

    method Get(key: string) returns (value: Option<string>)
      requires Valid()
      modifies this`ll
      ensures Valid() && value == Lookup(old(View()), key) && View() == Touch(old(View()), key)
      ensures value.None? ==> ll == old(ll)
    {
      LookupInList(ll, cache, key);
      if key in cache {
        Front(cache[key]);
        return Some(cache[key].value);
      }
      return None;
    }

    /** The first half of `Add`, for a key that is cached. */
    method Replace(key: string, value: string)
      requires Valid() && key in cache
      modifies this`ll, this`nbytes, cache[key]
      ensures Valid() && View() == Put(old(View()), key, value)
      ensures forall e :: e in ll ==> e in old(ll)
    {
      PutSwapsValue(View(), key, cache[key].value, value);
      var ele := cache[key];
      Front(ele);
      SetValue(ele, value);
    }

    /** The first element gets another value. */
    method SetValue(ele: Element, value: string)
      requires ll != [] && ll[0] == ele && Valid()
      modifies this`nbytes, ele
      ensures Valid() && View() == [Entry(ele.key, value)] + old(View())[1..]
    {
      ghost var s := View();
      NewValueCosts(s, ele.key, value);
      LinkedOncePerKey(ll, cache);
      assert forall i :: 1 <= i < |ll| ==> ll[i] != ele;
      nbytes := nbytes + |value| - |ele.value|;
      ele.value := value;
      ValueSwapped(ll, s, value);
    }

    /** The first half of `Add`, for a key that is not cached. */
    method PushFront(key: string, value: string)
      requires Valid() && key !in cache
      modifies this`ll, this`cache, this`nbytes
      ensures Valid() && View() == Put(old(View()), key, value)
      ensures ll != [] && fresh(ll[0]) && ll == [ll[0]] + old(ll)
    {
      LookupInList(ll, cache, key);
      var ele := new Element(key, value);
      PushedStaysLinked(ll, cache, ele);
      Install(ele);
    }

    /** A new element goes into list, map and counter. */
    method Install(ele: Element)
      requires Linked([ele] + ll, cache[ele.key := ele]) && nbytes == Size(View())
      modifies this`ll, this`cache, this`nbytes
      ensures Valid() && View() == [Entry(ele.key, ele.value)] + old(View()) && ll == [ele] + old(ll)
    {
      PushedEntries(ll, ele);
      ghost var s := [Entry(ele.key, ele.value)] + View();
      ll, cache, nbytes := [ele] + ll, cache[ele.key := ele], nbytes + |ele.key| + |ele.value|;
      assert View() == s;
    }

    /** `Add`: the longest part of the updated recency list that fits stays; the rest is evicted back to front. */
    method Add(key: string, value: string)
      requires Valid()
      modifies this, ll
      ensures Valid()
      ensures View() == Fit(maxBytes, Put(old(View()), key, value))
      ensures evicted == old(evicted) + Dropped(maxBytes, Put(old(View()), key, value))
      ensures forall e :: e in ll ==> e in old(ll) || fresh(e)
    {
      if key in cache {
        Replace(key, value);
      } else {
        PushFront(key, value);
      }
      EvictUntilFits();
    }

    /** The loop of `Add`. It ends because an empty list has no cost. */
    method EvictUntilFits()
      requires Valid()
      modifies this
      ensures Valid() && View() == Fit(maxBytes, old(View()))
      ensures evicted == old(evicted) + Dropped(maxBytes, old(View()))
      ensures forall e :: e in ll ==> e in old(ll)
    {
      ghost var s := View();
      while maxBytes != 0 && maxBytes < nbytes
        invariant Valid()
        invariant forall e :: e in ll ==> e in old(ll)
        invariant Fit(maxBytes, View()) == Fit(maxBytes, s)
        invariant evicted + Dropped(maxBytes, View()) == old(evicted) + Dropped(maxBytes, s)
        decreases |ll|
      {
        DropOne(maxBytes, View(), evicted);
        RemoveOldest();
      }
    }

    method RemoveOldest()
      requires Valid()
      modifies this
      ensures Valid()
      ensures old(View()) == [] ==> View() == [] && evicted == old(evicted) && nbytes == old(nbytes)
      ensures old(View()) != [] ==>
        View() == old(View())[..|old(View())| - 1] && evicted == old(evicted) + [old(View())[|old(View())| - 1]]
      ensures ll == if old(ll) == [] then [] else old(ll)[..|old(ll)| - 1]
    {
      if ll != [] {
        RemovedStaysLinked(ll, cache);
        Unlink();
      }
    }

    /** The last element goes from list, map and counter, and is reported. */
    method Unlink()
      requires ll != [] && Linked(ll[..|ll| - 1], cache - {ll[|ll| - 1].key}) && nbytes == Size(View())
      modifies this`ll, this`cache, this`nbytes, this`evicted
      ensures Valid() && View() == old(View()[..|ll| - 1]) && ll == old(ll[..|ll| - 1])
      ensures evicted == old(evicted) + [old(View()[|ll| - 1])]
    {
      var ele := ll[|ll| - 1];
      ghost var s, size := View()[..|ll| - 1], Size(View()[..|ll| - 1]);
      RemovedEntries(ll);
      assert nbytes - (|ele.key| + |ele.value|) == size;
      ll, cache := ll[..|ll| - 1], cache - {ele.key};
      nbytes := nbytes - (|ele.key| + |ele.value|);
      evicted := evicted + [Entry(ele.key, ele.value)];
      assert View() == s;
    }
  }

  lemma PushedStaysLinked(ll: seq<Element>, cache: map<string, Element>, ele: Element)
    requires Linked(ll, cache) && ele.key !in cache
    ensures Linked([ele] + ll, cache[ele.key := ele])
  {
    var cache' := cache[ele.key := ele];
    assert cache'.Keys == cache.Keys + {ele.key};
    assert |cache'.Keys| == |cache'| && |cache.Keys| == |cache|;
  }

  lemma PushedEntries(ll: seq<Element>, ele: Element)
    ensures EntriesOf([ele] + ll) == [Entry(ele.key, ele.value)] + EntriesOf(ll)
    ensures Size(EntriesOf([ele] + ll)) == |ele.key| + |ele.value| + Size(EntriesOf(ll))
  {
    var s := EntriesOf([ele] + ll);
    assert s == [Entry(ele.key, ele.value)] + EntriesOf(ll);
    assert s[1..] == EntriesOf(ll);
  }

  lemma RemovedEntries(ll: seq<Element>)
    requires ll != []
    ensures
      var n, s := |ll| - 1, EntriesOf(ll);
      EntriesOf(ll[..n]) == s[..n] && Size(s) == Size(s[..n]) + |ll[n].key| + |ll[n].value|
  {
    var n, s := |ll| - 1, EntriesOf(ll);
    SizeWithLast(s[..n], s[n]);
    assert s == s[..n] + [s[n]];
  }

  lemma RemovedStaysLinked(ll: seq<Element>, cache: map<string, Element>)
    requires Linked(ll, cache) && ll != []
    ensures Linked(ll[..|ll| - 1], cache - {ll[|ll| - 1].key})
  {
    var rest, last := ll[..|ll| - 1], ll[|ll| - 1];
    assert last in ll;
    OneKeyLess(cache, last.key);
    forall key | key in cache && key != last.key ensures cache[key] in rest { StaysInRest(ll, cache[key]); }
    forall e | e in rest ensures e in ll && e.key != last.key {
      LinkedOncePerKey(ll, cache);
      var k :| 0 <= k < |rest| && rest[k] == e;
      assert ll[k] == e;
    }
  }

  lemma StaysInRest(ll: seq<Element>, e: Element)
    requires e in ll && e != ll[|ll| - 1]
    ensures e in ll[..|ll| - 1]
  {
    var k :| 0 <= k < |ll| && ll[k] == e;
    assert ll[..|ll| - 1][k] == e;
  }

  lemma OneKeyLess(cache: map<string, Element>, key: string)
    requires key in cache
    ensures |cache - {key}| == |cache| - 1
  {
    var cache' := cache - {key};
    assert cache'.Keys == cache.Keys - {key};
    assert |cache'.Keys| == |cache'| && |cache.Keys| == |cache|;
  }
}
