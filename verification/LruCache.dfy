// The LRU cache object of internal/lru: a map into a recency list, both updated
// by every operation, proved against LruList.
module LruCache {
  import opened Options
  import opened LruList
  import opened Sequences

  class Element<K, V> {
    const key: K
    var value: V

    constructor (key: K, value: V)
      ensures this.key == key && this.value == value
    {
      this.key, this.value := key, value;
    }
  }

  function Delete<T(==)>(s: seq<T>, e: T): (r: seq<T>)
    ensures |r| == if e in s then |s| - 1 else |s|
  {
    if s == [] then [] else if s[0] == e then s[1..] else [s[0]] + Delete(s[1..], e)
  }

  ghost function ItemsOf<K, V>(ll: seq<Element<K, V>>): (s: seq<Entry<K, V>>)
    reads ll
    ensures |s| == |ll|
  {
    seq(|ll|, i requires 0 <= i < |ll| reads ll => Entry(ll[i].key, ll[i].value))
  }

  // The map and the list hold the same elements, each once.
  predicate Linked<K(==), V>(ll: seq<Element<K, V>>, cache: map<K, Element<K, V>>) {
    && (forall e :: e in ll ==> e.key in cache && cache[e.key] == e)
    && (forall k :: k in cache ==> cache[k] in ll && cache[k].key == k)
    && NoRepeat(ll)
  }

  lemma {:induction false} DeleteMembers<T>(s: seq<T>, e: T)
    requires NoRepeat(s)
    ensures NoRepeat(Delete(s, e))
    ensures forall x :: x in Delete(s, e) <==> x in s && x != e
  {
    if s != [] {
      assert s == [s[0]] + s[1..];
      DeleteMembers(s[1..], e);
      if s[0] == e {
        assert e !in s[1..] by { NotAgain(s); }
      } else {
        NotAgain(s);
      }
    }
  }

  lemma NotAgain<T>(s: seq<T>)
    requires NoRepeat(s) && s != []
    ensures s[0] !in s[1..]
  {
    assert forall i :: 0 <= i < |s[1..]| ==> s[1..][i] == s[i + 1];
  }

  // Unlinking an element takes its entry out of the recency list.
  lemma {:induction false} DeleteItems<K, V>(ll: seq<Element<K, V>>, e: Element<K, V>)
    requires e in ll && NoRepeat(ll) && forall x, y :: x in ll && y in ll && x.key == y.key ==> x == y
    ensures ItemsOf(Delete(ll, e)) == Without(ItemsOf(ll), e.key)
    ensures Lookup(ItemsOf(ll), e.key) == Some(e.value)
  {
    var s := ItemsOf(ll);
    assert s[1..] == ItemsOf(ll[1..]);
    if ll[0] == e {
      assert Delete(ll, e) == ll[1..];
    } else {
      assert ll[0] in ll && e in ll[1..];
      DeleteItems(ll[1..], e);
      assert ItemsOf([ll[0]] + Delete(ll[1..], e)) == [s[0]] + ItemsOf(Delete(ll[1..], e));
    }
  }

  lemma {:induction false} MissingItems<K, V>(ll: seq<Element<K, V>>, k: K)
    requires forall e :: e in ll ==> e.key != k
    ensures Lookup(ItemsOf(ll), k) == None
  {
    if ll != [] {
      assert ItemsOf(ll)[1..] == ItemsOf(ll[1..]) && ll[0] in ll;
      MissingItems(ll[1..], k);
    }
  }

  lemma ItemsDistinct<K, V>(ll: seq<Element<K, V>>, cache: map<K, Element<K, V>>)
    requires Linked(ll, cache)
    ensures Distinct(ItemsOf(ll))
  {
    forall i, j | 0 <= i < j < |ll|
      ensures ll[i].key != ll[j].key
    {
      assert ll[i] in ll && ll[j] in ll;
    }
  }

  lemma ItemsMembers<K, V>(ll: seq<Element<K, V>>, cache: map<K, Element<K, V>>, e: Entry<K, V>)
    requires Linked(ll, cache)
    ensures e in ItemsOf(ll) <==> e.key in cache && e.value == cache[e.key].value
  {
    var s := ItemsOf(ll);
    if e in s {
      var i :| 0 <= i < |s| && s[i] == e;
      assert ll[i] in ll;
    }
    if e.key in cache && e.value == cache[e.key].value {
      var i :| 0 <= i < |ll| && ll[i] == cache[e.key];
      assert s[i] == e;
    }
  }

  class Cache<K(==), V> {
    var maxEntries: int
    var live: bool  // false while ll and cache are nil
    var ll: seq<Element<K, V>>
    var cache: map<K, Element<K, V>>
    var notify: bool  // OnEvicted is set
    var evicted: seq<Entry<K, V>>  // the calls made to OnEvicted

    ghost predicate Valid()
      reads this
    {
      && Linked(ll, cache)
      && (!live ==> ll == [] && cache == map[])
    }

    ghost function Items(): seq<Entry<K, V>>
      reads this, ll
    {
      ItemsOf(ll)
    }

    ghost function Reported(dropped: seq<Entry<K, V>>): seq<Entry<K, V>>
      reads this
    {
      if notify then dropped else []
    }

    constructor (maxEntries: int, notify: bool)
      ensures Valid() && Items() == [] && evicted == [] && this.maxEntries == maxEntries && this.notify == notify
    {
      this.maxEntries, this.notify := maxEntries, notify;
      live, ll, cache, evicted := true, [], map[], [];
    }

    method RemoveElement(e: Element<K, V>)
      requires Valid() && e in ll
      modifies this`ll, this`cache, this`evicted
      ensures Valid() && Items() == Without(old(Items()), e.key) && Lookup(old(Items()), e.key) == Some(e.value)
      ensures evicted == old(evicted) + Reported([Entry(e.key, e.value)])
      ensures ll == Delete(old(ll), e)
    {
      DeleteMembers(ll, e);
      DeleteItems(ll, e);
      ll := Delete(ll, e);
      cache := cache - {e.key};
      if notify {
        evicted := evicted + [Entry(e.key, e.value)];
      }
    }

    method MoveToFront(e: Element<K, V>)
      requires Valid() && e in ll
      modifies this`ll
      ensures Valid() && e in ll && Items() == [Entry(e.key, e.value)] + Without(old(Items()), e.key)
      ensures Lookup(old(Items()), e.key) == Some(e.value)
      ensures ll == [e] + Delete(old(ll), e)
    {
      DeleteMembers(ll, e);
      DeleteItems(ll, e);
      ghost var rest := Delete(ll, e);
      ll := [e] + Delete(ll, e);
      ItemsCons(e, rest);
      LinkedCons(e, rest, old(ll), cache);
    }

    static lemma ItemsCons(e: Element<K, V>, ll: seq<Element<K, V>>)
      ensures ItemsOf([e] + ll) == [Entry(e.key, e.value)] + ItemsOf(ll)
    {
    }

    static lemma LinkedCons(
        e: Element<K, V>, rest: seq<Element<K, V>>, ll: seq<Element<K, V>>, cache: map<K, Element<K, V>>)
      requires Linked(ll, cache) && e in ll && NoRepeat(rest)
      requires forall x :: x in rest <==> x in ll && x != e
      ensures Linked([e] + rest, cache)
    {
      forall x | x in [e] + rest
        ensures x in ll
      {
      }
    }

    method Add(key: K, value: V)
      requires Valid()
      modifies this, ll
      ensures Valid() && live && maxEntries == old(maxEntries) && notify == old(notify)
      ensures
        var e := Step(maxEntries, old(Items()), Op.Add(key, value));
        Items() == e.items && evicted == old(evicted) + Reported(e.dropped)
    {
      hide Step, Lookup, Without;
      if !live {
        live, ll, cache := true, [], map[];
      }
      if key in cache {
        AddHits(maxEntries, Items(), key, value);
        Touch(cache[key], value);
      } else {
        MissingItems(ll, key);
        AddMisses(maxEntries, Items(), key, value);
        var ele := new Element<K, V>(key, value);
        PushFront(ele);
        if maxEntries != 0 && |ll| > maxEntries {
          RemoveOldest();
        }
      }
    }

    static lemma AddHits(capacity: int, s: seq<Entry<K, V>>, key: K, value: V)
      ensures
        var e := Step(capacity, s, Op.Add(key, value));
        Lookup(s, key).Some? ==> e.items == [Entry(key, value)] + Without(s, key) && e.dropped == []
    {
    }

    // A miss adds at the front, then drops the oldest entry if there are too many.
    static lemma AddMisses(capacity: int, s: seq<Entry<K, V>>, key: K, value: V)
      requires Lookup(s, key).None?
      ensures
        var e, t := Step(capacity, s, Op.Add(key, value)), [Entry(key, value)] + s;
        var f := Step(capacity, t, Op.RemoveOldest);
        if capacity != 0 && |t| > capacity then e.items == f.items && e.dropped == f.dropped
        else e.items == t && e.dropped == []
    {
    }

    // A hit moves the element to the front and gives it its new value.
    method Touch(ee: Element<K, V>, value: V)
      requires Valid() && ee in ll
      modifies this`ll, ee
      ensures Valid() && Items() == [Entry(ee.key, value)] + Without(old(Items()), ee.key)
      ensures Lookup(old(Items()), ee.key).Some?
    {
      ghost var rest := Delete(ll, ee);
      DeleteMembers(ll, ee);
      DeleteItems(ll, ee);
      MoveToFront(ee);
      ghost var items := ItemsOf(rest);
      ee.value := value;
      assert ItemsOf(rest) == items;
      ItemsCons(ee, rest);
    }

    method PushFront(ele: Element<K, V>)
      requires Valid() && live && ele.key !in cache
      modifies this`ll, this`cache
      ensures Valid() && Items() == [Entry(ele.key, ele.value)] + old(Items())
      ensures ll == [ele] + old(ll)
    {
      ItemsCons(ele, ll);
      assert ele !in ll;
      ll := [ele] + ll;
      cache := cache[ele.key := ele];
    }

    method Get(key: K) returns (value: Option<V>)
      requires Valid()
      modifies this`ll
      ensures Valid()
      ensures
        var e := Step(maxEntries, old(Items()), Op.Get(key));
        Items() == e.items && value == e.hit
    {
      if live && key in cache {
        var ele := cache[key];
        MoveToFront(ele);
        return Some(ele.value);
      }
      MissingItems(ll, key);
      value := None;
    }

    method Remove(key: K)
      requires Valid()
      modifies this`ll, this`cache, this`evicted
      ensures Valid()
      ensures
        var e := Step(maxEntries, old(Items()), Op.Remove(key));
        Items() == e.items && evicted == old(evicted) + Reported(e.dropped)
    {
      if live && key in cache {
        RemoveElement(cache[key]);
      } else {
        MissingItems(ll, key);
      }
    }

    method RemoveOldest()
      requires Valid()
      modifies this`ll, this`cache, this`evicted
      ensures Valid()
      ensures
        var e := Step(maxEntries, old(Items()), Op.RemoveOldest);
        Items() == e.items && evicted == old(evicted) + Reported(e.dropped)
    {
      ItemsDistinct(ll, cache);
      if live && ll != [] {
        WithoutLast(Items());
        assert Items()[|ll| - 1..] == [Items()[|ll| - 1]];
        RemoveElement(ll[|ll| - 1]);
      }
    }

    method Len() returns (n: nat)
      requires Valid()
      ensures n == |Items()|
    {
      n := if live then |ll| else 0;
    }

    // The calls are made in the order of the map's iteration, which is any.
    method Clear()
      requires Valid()
      modifies this
      ensures Valid() && !live && Items() == [] && maxEntries == old(maxEntries) && notify == old(notify)
      ensures multiset(evicted) == multiset(old(evicted)) + multiset(Reported(old(Items())))
    {
      if notify {
        ghost var items, before := Items(), evicted;
        ghost var part: seq<Entry<K, V>> := [];
        var todo := cache.Keys;
        while todo != {}
          invariant todo <= cache.Keys && unchanged(`ll, `cache, `notify, `maxEntries)
          invariant evicted == before + part && Distinct(part)
          invariant forall e :: e in part ==> e.key in cache.Keys - todo && e in items
          invariant forall e :: e in items && e.key !in todo ==> e in part
        {
          var k :| k in todo;
          var e := cache[k];
          forall x ensures x in items <==> x.key in cache && x.value == cache[x.key].value {
            ItemsMembers(ll, cache, x);
          }
          evicted := evicted + [Entry(e.key, e.value)];
          part := part + [Entry(e.key, e.value)];
          todo := todo - {k};
        }
        ItemsDistinct(ll, cache);
        forall x ensures x in items <==> x.key in cache && x.value == cache[x.key].value {
          ItemsMembers(ll, cache, x);
        }
        SameMembers(part, items);
      }
      ll := [];
      cache := map[];
      live := false;
    }
  }

  lemma SameMembers<K, V>(a: seq<Entry<K, V>>, b: seq<Entry<K, V>>)
    requires Distinct(a) && Distinct(b) && forall e :: e in a <==> e in b
    ensures multiset(a) == multiset(b)
  {
    forall e
      ensures multiset(a)[e] == multiset(b)[e]
    {
      Once(a, e);
      Once(b, e);
    }
  }

  lemma {:induction false} Once<K, V>(s: seq<Entry<K, V>>, e: Entry<K, V>)
    requires Distinct(s)
    ensures multiset(s)[e] == if e in s then 1 else 0
  {
    if s != [] {
      assert s == [s[0]] + s[1..];
      Once(s[1..], e);
      if e == s[0] && e in s[1..] {
        HeadKey(s, e);
      }
    }
  }
}
