// The recency list of internal/lru on values, and what whole runs of cache
// operations keep: no key twice, conservation, and inclusion between caches of
// different capacities.
module LruList {
  import opened Options

  // ----------------------------------------------- the recency list, on values

  datatype Entry<K, V> = Entry(key: K, value: V)

  // A cache holds its entries most recent first; capacity 0 is unbounded.
  datatype Op<K, V> = Add(key: K, value: V) | Get(key: K) | Remove(key: K) | RemoveOldest | Clear

  predicate Has<K(==), V>(s: seq<Entry<K, V>>, k: K) {
    exists i :: 0 <= i < |s| && s[i].key == k
  }

  predicate Distinct<K(==), V>(s: seq<Entry<K, V>>) {
    forall i, j :: 0 <= i < j < |s| ==> s[i].key != s[j].key
  }

  function Without<K(==), V>(s: seq<Entry<K, V>>, k: K): (r: seq<Entry<K, V>>) {
    if s == [] then [] else if s[0].key == k then s[1..] else [s[0]] + Without(s[1..], k)
  }

  function Lookup<K(==), V>(s: seq<Entry<K, V>>, k: K): Option<V> {
    if s == [] then None else if s[0].key == k then Some(s[0].value) else Lookup(s[1..], k)
  }

  // What one operation leaves, finds, inserts and drops.
  datatype Effect<K, V> = Effect(items: seq<Entry<K, V>>, hit: Option<V>, inserted: seq<K>, dropped: seq<Entry<K, V>>)

  function Trim<K, V>(capacity: int, s: seq<Entry<K, V>>): (r: (seq<Entry<K, V>>, seq<Entry<K, V>>))
    requires s != []
    ensures r.0 + r.1 == s
  {
    if capacity != 0 && |s| > capacity then (s[..|s| - 1], s[|s| - 1..]) else (s, [])
  }

  function Step<K(==), V>(capacity: int, s: seq<Entry<K, V>>, op: Op<K, V>): Effect<K, V> {
    match op
    case Add(k, v) =>
      if Lookup(s, k).Some? then Effect([Entry(k, v)] + Without(s, k), None, [], [])
      else
        var (kept, out) := Trim(capacity, [Entry(k, v)] + s);
        Effect(kept, None, [k], out)
    case Get(k) =>
      (match Lookup(s, k)
       case Some(v) => Effect([Entry(k, v)] + Without(s, k), Some(v), [], [])
       case None => Effect(s, None, [], []))
    case Remove(k) =>
      (match Lookup(s, k)
       case Some(v) => Effect(Without(s, k), None, [], [Entry(k, v)])
       case None => Effect(s, None, [], []))
    case RemoveOldest =>
      if s == [] then Effect(s, None, [], []) else Effect(s[..|s| - 1], None, [], s[|s| - 1..])
    case Clear => Effect([], None, [], s)
  }

  // A whole run: the final entries and the result of every Get.
  function Run<K(==), V>(capacity: int, s: seq<Entry<K, V>>, ops: seq<Op<K, V>>): seq<Entry<K, V>> {
    if ops == [] then s else Step(capacity, Run(capacity, s, ops[..|ops| - 1]), ops[|ops| - 1]).items
  }

  function Hit<K(==), V>(capacity: int, ops: seq<Op<K, V>>, i: nat): Option<V>
    requires i < |ops|
  {
    Step(capacity, Run(capacity, [], ops[..i]), ops[i]).hit
  }

  // ----------------------------------------------------------- list lemmas

  lemma {:induction false} LookupHas<K, V>(s: seq<Entry<K, V>>, k: K)
    ensures Lookup(s, k).Some? <==> Has(s, k)
    ensures Lookup(s, k).Some? ==> Entry(k, Lookup(s, k).value) in s
  {
    if s != [] {
      LookupHas(s[1..], k);
      assert s == [s[0]] + s[1..];
      if s[0].key != k && Has(s, k) {
        var i :| 0 <= i < |s| && s[i].key == k;
        assert s[1..][i - 1].key == k;
      }
    }
  }

  lemma {:induction false} LookupAt<K, V>(s: seq<Entry<K, V>>, i: nat)
    requires Distinct(s) && i < |s|
    ensures Lookup(s, s[i].key) == Some(s[i].value)
  {
    if i > 0 {
      LookupAt(s[1..], i - 1);
    }
  }

  lemma {:induction false} WithoutMember<K, V>(s: seq<Entry<K, V>>, k: K, e: Entry<K, V>)
    requires Distinct(s) && e in Without(s, k)
    ensures e in s && e.key != k
  {
    assert s == [s[0]] + s[1..];
    if s[0].key == k {
      HeadKey(s, e);
    } else if e != s[0] {
      WithoutMember(s[1..], k, e);
    }
  }

  lemma HeadKey<K, V>(b: seq<Entry<K, V>>, x: Entry<K, V>)
    requires Distinct(b) && b != [] && x in b[1..]
    ensures x.key != b[0].key
  {
    var i :| 0 <= i < |b[1..]| && b[1..][i] == x;
    assert b[i + 1] == x;
  }

  lemma {:induction false} WithoutDistinct<K, V>(s: seq<Entry<K, V>>, k: K)
    requires Distinct(s)
    ensures Distinct(Without(s, k))
  {
    if s != [] && s[0].key != k {
      WithoutDistinct(s[1..], k);
      forall e | e in Without(s[1..], k)
        ensures e.key != s[0].key
      {
        WithoutMember(s[1..], k, e);
        HeadKey(s, e);
      }
      ConsDistinct(s[0], Without(s[1..], k));
    }
  }

  lemma {:induction false} WithoutLength<K, V>(s: seq<Entry<K, V>>, k: K)
    ensures |Without(s, k)| == if Lookup(s, k).Some? then |s| - 1 else |s|
    ensures Lookup(s, k).None? ==> Without(s, k) == s
  {
    if s != [] && s[0].key != k {
      WithoutLength(s[1..], k);
    }
  }

  lemma WithoutKeys<K, V>(s: seq<Entry<K, V>>, k: K)
    requires Distinct(s)
    ensures forall e :: e in Without(s, k) ==> e.key != k
    ensures Distinct(Without(s, k))
    ensures |Without(s, k)| == if Lookup(s, k).Some? then |s| - 1 else |s|
    ensures Lookup(s, k).None? ==> Without(s, k) == s
  {
    hide Without, Lookup, Distinct;
    forall e | e in Without(s, k)
      ensures e.key != k
    {
      WithoutMember(s, k, e);
    }
    WithoutDistinct(s, k);
    WithoutLength(s, k);
  }

  lemma {:induction false} WithoutLast<K, V>(s: seq<Entry<K, V>>)
    requires Distinct(s) && s != []
    ensures Without(s, s[|s| - 1].key) == s[..|s| - 1]
    ensures Lookup(s, s[|s| - 1].key) == Some(s[|s| - 1].value)
  {
    if |s| > 1 {
      WithoutLast(s[1..]);
      assert s[..|s| - 1] == [s[0]] + s[1..][..|s| - 2];
    }
  }

  lemma ConsDistinct<K, V>(e: Entry<K, V>, s: seq<Entry<K, V>>)
    requires Distinct(s) && forall x :: x in s ==> x.key != e.key
    ensures Distinct([e] + s)
  {
  }

  // ------------------------------------------- invariants of every reachable list

  predicate Fits(capacity: int, n: nat) {
    capacity > 0 ==> n <= capacity
  }

  lemma StepKeeps<K, V>(capacity: int, s: seq<Entry<K, V>>, op: Op<K, V>)
    requires Distinct(s) && Fits(capacity, |s|)
    ensures
      var e := Step(capacity, s, op);
      && Distinct(e.items) && Fits(capacity, |e.items|)
      && multiset(Keys(s)) + multiset(e.inserted) == multiset(Keys(e.items)) + multiset(Keys(e.dropped))
  {
    hide Lookup, Without, Has, Keys;
    match op
    case Add(k, v) => AddKeeps(capacity, s, k, v);
    case Get(k) =>
      LookupHas(s, k);
      WithoutKeys(s, k);
      if Lookup(s, k).Some? {
        ConsDistinct(Entry(k, Lookup(s, k).value), Without(s, k));
        KeysWithout(s, k);
        KeysConcat([Entry(k, Lookup(s, k).value)], Without(s, k));
        KeysOne(Entry(k, Lookup(s, k).value));
      }
    case Remove(k) =>
      WithoutKeys(s, k);
      if Lookup(s, k).Some? {
        KeysWithout(s, k);
        KeysOne(Entry(k, Lookup(s, k).value));
      }
    case RemoveOldest =>
      if s != [] {
        KeysConcat(s[..|s| - 1], s[|s| - 1..]);
        assert s == s[..|s| - 1] + s[|s| - 1..];
      }
    case Clear =>
  }

  lemma AddKeeps<K, V>(capacity: int, s: seq<Entry<K, V>>, k: K, v: V)
    requires Distinct(s) && Fits(capacity, |s|)
    ensures
      var e := Step(capacity, s, Add(k, v));
      && Distinct(e.items) && Fits(capacity, |e.items|)
      && multiset(Keys(s)) + multiset(e.inserted) == multiset(Keys(e.items)) + multiset(Keys(e.dropped))
  {
    hide Lookup, Without, Has, Keys;
    LookupHas(s, k);
    WithoutKeys(s, k);
    KeysOne(Entry(k, v));
    if Lookup(s, k).Some? {
      ConsDistinct(Entry(k, v), Without(s, k));
      KeysWithout(s, k);
      KeysConcat([Entry(k, v)], Without(s, k));
    } else {
      var (kept, out) := Trim(capacity, [Entry(k, v)] + s);
      ConsDistinct(Entry(k, v), s);
      KeysConcat([Entry(k, v)], s);
      KeysConcat(kept, out);
    }
  }

  function Keys<K, V>(s: seq<Entry<K, V>>): (r: seq<K>)
    ensures |r| == |s|
  {
    seq(|s|, i requires 0 <= i < |s| => s[i].key)
  }

  lemma KeysOne<K, V>(e: Entry<K, V>)
    ensures Keys([e]) == [e.key] && multiset(Keys([e])) == multiset{e.key} && Keys<K, V>([]) == []
  {
  }

  lemma KeysConcat<K, V>(a: seq<Entry<K, V>>, b: seq<Entry<K, V>>)
    ensures Keys(a + b) == Keys(a) + Keys(b)
    ensures multiset(Keys(a + b)) == multiset(Keys(a)) + multiset(Keys(b))
  {
    assert Keys(a + b) == Keys(a) + Keys(b);
  }

  lemma {:induction false} KeysWithout<K, V>(s: seq<Entry<K, V>>, k: K)
    requires Lookup(s, k).Some?
    ensures multiset(Keys(s)) == multiset(Keys(Without(s, k))) + multiset{k}
  {
    KeysConcat([s[0]], s[1..]);
    assert s == [s[0]] + s[1..] && Keys([s[0]]) == [s[0].key];
    if s[0].key != k {
      KeysWithout(s[1..], k);
      KeysConcat([s[0]], Without(s[1..], k));
    }
  }

  // What a whole run inserted, and what it reported as dropped.
  function Inserted<K(==), V>(capacity: int, ops: seq<Op<K, V>>): multiset<K> {
    if ops == [] then multiset{}
    else
      var before, op := ops[..|ops| - 1], ops[|ops| - 1];
      Inserted(capacity, before) + multiset(Step(capacity, Run(capacity, [], before), op).inserted)
  }

  function Dropped<K(==), V>(capacity: int, ops: seq<Op<K, V>>): multiset<K> {
    if ops == [] then multiset{}
    else
      var before, op := ops[..|ops| - 1], ops[|ops| - 1];
      Dropped(capacity, before) + multiset(Keys(Step(capacity, Run(capacity, [], before), op).dropped))
  }

  // Main result: over any run no key is held twice, the capacity is respected,
  // and every insertion is accounted for: the key is still held or was
  // reported, exactly once.
  lemma {:induction false} Conservation<K, V>(capacity: int, ops: seq<Op<K, V>>)
    ensures
      var s := Run(capacity, [], ops);
      && Distinct(s) && Fits(capacity, |s|)
      && Inserted(capacity, ops) == multiset(Keys(s)) + Dropped(capacity, ops)
    decreases |ops|
  {
    hide Step, Distinct, Fits, Keys;
    EmptyKeeps<K, V>(capacity);
    if ops != [] {
      var before := ops[..|ops| - 1];
      var s := Run(capacity, [], before);
      var e := Step(capacity, s, ops[|ops| - 1]);
      Conservation(capacity, before);
      StepKeeps(capacity, s, ops[|ops| - 1]);
      Balance(Inserted(capacity, before), multiset(Keys(s)), Dropped(capacity, before),
              multiset(e.inserted), multiset(Keys(e.items)), multiset(Keys(e.dropped)));
    }
  }

  lemma EmptyKeeps<K, V>(capacity: int)
    ensures Distinct<K, V>([]) && Fits(capacity, 0) && Keys<K, V>([]) == []
  {
  }

  lemma Balance<K>(a: multiset<K>, held: multiset<K>, d: multiset<K>,
                   ins: multiset<K>, held1: multiset<K>, out: multiset<K>)
    requires a == held + d && held + ins == held1 + out
    ensures a + ins == held1 + (d + out)
  {
    assert held + d + ins == (held + ins) + d;
  }

  // -------------------------------------------------------------- inclusion

  // a is b with some entries left out.
  predicate Sub<K(==), V(==)>(a: seq<Entry<K, V>>, b: seq<Entry<K, V>>) {
    a == [] || (b != [] && if a[0] == b[0] then Sub(a[1..], b[1..]) else Sub(a, b[1..]))
  }

  lemma {:induction false} SubTail<K, V>(a: seq<Entry<K, V>>, b: seq<Entry<K, V>>)
    requires a != [] && Sub(a, b)
    ensures Sub(a[1..], b)
    decreases |b|, 0
  {
    if a[0] == b[0] {
      SubSkip(a[1..], b[1..], b[0]);
      assert b == [b[0]] + b[1..];
    } else {
      SubTail(a, b[1..]);
      SubSkip(a[1..], b[1..], b[0]);
      assert b == [b[0]] + b[1..];
    }
  }

  lemma SubSkip<K, V>(a: seq<Entry<K, V>>, b: seq<Entry<K, V>>, e: Entry<K, V>)
    requires Sub(a, b)
    ensures Sub(a, [e] + b)
    decreases |b|, 1
  {
    assert ([e] + b)[1..] == b;
    if a != [] && a[0] == e {
      SubTail(a, b);
    }
  }

  lemma SubCons<K, V>(a: seq<Entry<K, V>>, b: seq<Entry<K, V>>, e: Entry<K, V>)
    requires Sub(a, b)
    ensures Sub([e] + a, [e] + b)
  {
    assert ([e] + a)[1..] == a && ([e] + b)[1..] == b;
  }

  lemma {:induction false} SubMember<K, V>(a: seq<Entry<K, V>>, b: seq<Entry<K, V>>, x: Entry<K, V>)
    requires Sub(a, b) && x in a
    ensures x in b
    decreases |b|
  {
    if a[0] == b[0] {
      if x != a[0] {
        SubMember(a[1..], b[1..], x);
      }
    } else {
      SubMember(a, b[1..], x);
    }
  }

  lemma {:induction false} SubWithout<K, V>(a: seq<Entry<K, V>>, b: seq<Entry<K, V>>, k: K)
    requires Sub(a, b) && Distinct(b)
    ensures Sub(Without(a, k), Without(b, k))
    decreases |b|
  {
    if a != [] {
      if a[0] == b[0] {
        SubWithout(a[1..], b[1..], k);
        if a[0].key != k {
          SubCons(Without(a[1..], k), Without(b[1..], k), a[0]);
        }
      } else if b[0].key == k {
        NoKey(a, b, k);
      } else {
        SubWithout(a, b[1..], k);
        SubSkip(Without(a, k), Without(b[1..], k), b[0]);
      }
    }
  }

  // If the large list drops its first entry for k, the small one had none.
  lemma NoKey<K, V>(a: seq<Entry<K, V>>, b: seq<Entry<K, V>>, k: K)
    requires Sub(a, b) && Distinct(b) && a != [] && a[0] != b[0] && b[0].key == k
    ensures Without(a, k) == a
  {
    LookupHas(a, k);
    if Lookup(a, k).Some? {
      var x := Entry(k, Lookup(a, k).value);
      SubMember(a, b[1..], x);
      HeadKey(b, x);
    } else {
      WithoutNothing(a, k);
    }
  }

  lemma {:induction false} WithoutNothing<K, V>(s: seq<Entry<K, V>>, k: K)
    requires Lookup(s, k).None?
    ensures Without(s, k) == s
  {
    if s != [] {
      WithoutNothing(s[1..], k);
    }
  }

  lemma {:induction false} SubFront<K, V>(a: seq<Entry<K, V>>, b: seq<Entry<K, V>>)
    requires a != [] && Sub(a, b)
    ensures b != [] && Sub(a[..|a| - 1], b[..|b| - 1])
    decreases |b|
  {
    if |a| > 1 {
      var a', b' := a[..|a| - 1], b[..|b| - 1];
      if a[0] == b[0] {
        SubFront(a[1..], b[1..]);
        assert a'[1..] == a[1..][..|a| - 2] && b'[1..] == b[1..][..|b| - 2];
      } else {
        SubFront(a, b[1..]);
        assert b'[1..] == b[1..][..|b| - 2];
      }
    }
  }

  lemma {:induction false} SubLength<K, V>(a: seq<Entry<K, V>>, b: seq<Entry<K, V>>)
    requires Sub(a, b)
    ensures |a| <= |b|
    ensures |a| == |b| ==> a == b
    decreases |b|
  {
    if a != [] {
      if a[0] == b[0] {
        SubLength(a[1..], b[1..]);
        assert a == [a[0]] + a[1..] && b == [b[0]] + b[1..];
      } else {
        SubLength(a, b[1..]);
      }
    }
  }

  lemma SubLookup<K, V>(a: seq<Entry<K, V>>, b: seq<Entry<K, V>>, k: K)
    requires Sub(a, b) && Distinct(b) && Lookup(a, k).Some?
    ensures Lookup(b, k) == Lookup(a, k)
  {
    LookupHas(a, k);
    var x := Entry(k, Lookup(a, k).value);
    SubMember(a, b, x);
    var i :| 0 <= i < |b| && b[i] == x;
    LookupAt(b, i);
  }

  // Capacities in the order of "at most as much room": 0 is the largest.
  predicate NoLarger(small: int, large: int) {
    large == 0 || 0 < small <= large
  }

  // The small cache's list inside the large one's, and the gap between them
  // never more than the difference in room.
  predicate Included<K(==), V(==)>(small: int, large: int, a: seq<Entry<K, V>>, b: seq<Entry<K, V>>) {
    && Sub(a, b) && Distinct(a) && Distinct(b)
    && Fits(small, |a|) && Fits(large, |b|)
    && (large > 0 ==> |b| - |a| <= large - small)
  }

  lemma AddIncluded<K, V>(small: int, large: int, a: seq<Entry<K, V>>, b: seq<Entry<K, V>>, k: K, v: V)
    requires NoLarger(small, large) && small >= 0 && Included(small, large, a, b)
    ensures
      var x, y := Step(small, a, Add(k, v)).items, Step(large, b, Add(k, v)).items;
      Sub(x, y) && (large > 0 ==> |y| - |x| <= large - small)
  {
    hide Lookup, Without, Sub, Distinct;
    var e := Entry(k, v);
    WithoutKeys(a, k);
    WithoutKeys(b, k);
    SubWithout(a, b, k);
    SubCons(Without(a, k), Without(b, k), e);
    if Lookup(a, k).Some? {
      SubLookup(a, b, k);
    } else if Lookup(b, k).Some? {
      TrimLeft(small, [e] + a, [e] + Without(b, k));
    } else {
      TrimBoth(small, large, [e] + a, [e] + b);
    }
  }

  // Only the small cache inserts: it may evict and the large one does not.
  lemma TrimLeft<K, V>(small: int, a: seq<Entry<K, V>>, b: seq<Entry<K, V>>)
    requires Sub(a, b) && a != []
    ensures Sub(Trim(small, a).0, b)
  {
    hide Sub;
    SubFront(a, b);
    SubBack(a[..|a| - 1], b[..|b| - 1], b[|b| - 1]);
    assert b == b[..|b| - 1] + [b[|b| - 1]];
  }

  lemma {:induction false} SubBack<K, V>(a: seq<Entry<K, V>>, b: seq<Entry<K, V>>, e: Entry<K, V>)
    requires Sub(a, b)
    ensures Sub(a, b + [e])
    decreases |b|
  {
    if a != [] {
      assert (b + [e])[1..] == b[1..] + [e];
      if a[0] == b[0] {
        SubBack(a[1..], b[1..], e);
      } else {
        SubBack(a, b[1..], e);
      }
    }
  }

  // Both insert: if the large cache is full the small one is, so that the
  // large never evicts an entry the small keeps.
  lemma TrimBoth<K, V>(small: int, large: int, a: seq<Entry<K, V>>, b: seq<Entry<K, V>>)
    requires NoLarger(small, large) && small >= 0 && Sub(a, b) && a != [] && b != []
    requires Fits(small, |a| - 1) && Fits(large, |b| - 1) && (large > 0 ==> |b| - |a| <= large - small)
    ensures
      var x, y := Trim(small, a).0, Trim(large, b).0;
      Sub(x, y) && (large > 0 ==> |y| - |x| <= large - small)
  {
    hide Sub;
    SubFront(a, b);
    TrimLeft(small, a, b);
  }

  lemma StepIncluded<K, V>(small: int, large: int, a: seq<Entry<K, V>>, b: seq<Entry<K, V>>, op: Op<K, V>)
    requires NoLarger(small, large) && small >= 0 && Included(small, large, a, b)
    ensures
      var x, y := Step(small, a, op), Step(large, b, op);
      Included(small, large, x.items, y.items) && (x.hit.Some? ==> y.hit == x.hit)
  {
    hide Lookup, Without, Sub, Distinct;
    StepKeeps(small, a, op);
    StepKeeps(large, b, op);
    match op
    case Add(k, v) => AddIncluded(small, large, a, b, k, v);
    case Get(k) =>
      WithoutKeys(a, k);
      WithoutKeys(b, k);
      SubWithout(a, b, k);
      if Lookup(a, k).Some? {
        SubLookup(a, b, k);
        SubCons(Without(a, k), Without(b, k), Entry(k, Lookup(a, k).value));
      } else if Lookup(b, k).Some? {
        SubSkip(a, Without(b, k), Entry(k, Lookup(b, k).value));
      }
    case Remove(k) =>
      WithoutKeys(a, k);
      WithoutKeys(b, k);
      SubWithout(a, b, k);
      if Lookup(a, k).Some? {
        SubLookup(a, b, k);
      }
    case RemoveOldest =>
      if a != [] {
        SubFront(a, b);
      } else {
        NothingIncluded(if b == [] then [] else b[..|b| - 1]);
      }
    case Clear => NothingIncluded<K, V>([]);
  }

  lemma NothingIncluded<K, V>(b: seq<Entry<K, V>>)
    ensures Sub([], b)
  {
  }

  lemma {:induction false} RunIncluded<K, V>(small: int, large: int, ops: seq<Op<K, V>>)
    requires NoLarger(small, large) && small >= 0
    ensures Included(small, large, Run(small, [], ops), Run(large, [], ops))
    decreases |ops|
  {
    hide Step;
    if ops != [] {
      RunIncluded(small, large, ops[..|ops| - 1]);
      StepIncluded(small, large, Run(small, [], ops[..|ops| - 1]), Run(large, [], ops[..|ops| - 1]), ops[|ops| - 1]);
    }
  }

  // Main result: under any run of operations, every hit of a smaller cache is
  // a hit of a larger one, with the same value.
  lemma Inclusion<K, V>(small: int, large: int, ops: seq<Op<K, V>>, i: nat)
    requires NoLarger(small, large) && small >= 0 && i < |ops|
    ensures Hit(small, ops, i).Some? ==> Hit(large, ops, i) == Hit(small, ops, i)
  {
    hide Step, Run, Included;
    RunIncluded(small, large, ops[..i]);
    StepIncluded(small, large, Run(small, [], ops[..i]), Run(large, [], ops[..i]), ops[i]);
  }

  // -------------------------------------------- the unbounded cache is a map

  function MapRun<K(==), V>(ops: seq<Op<K, V>>): map<K, V> {
    if ops == [] then map[]
    else MapStepped(MapRun(ops[..|ops| - 1]), ops[|ops| - 1])
  }

  function MapStepped<K(==), V>(m: map<K, V>, op: Op<K, V>): map<K, V> {
    match op
    case Add(k, v) => m[k := v]
    case Remove(k) => m - {k}
    case Clear => map[]
    case _ => m
  }

  ghost predicate SameAs<K(!new), V>(s: seq<Entry<K, V>>, m: map<K, V>) {
    forall k :: Lookup(s, k) == if k in m then Some(m[k]) else None
  }

  lemma {:induction false} LookupWithout<K, V>(s: seq<Entry<K, V>>, k: K, j: K)
    requires Distinct(s)
    ensures Lookup(Without(s, k), j) == if j == k then None else Lookup(s, j)
  {
    if s != [] {
      LookupWithout(s[1..], k, j);
      if s[0].key == k {
        LookupHas(s[1..], k);
      }
    }
  }

  lemma LookupCons<K, V>(e: Entry<K, V>, s: seq<Entry<K, V>>, j: K)
    ensures Lookup([e] + s, j) == if j == e.key then Some(e.value) else Lookup(s, j)
  {
    assert ([e] + s)[1..] == s;
  }

  lemma {:induction false} UnboundedIsMap<K(!new), V>(ops: seq<Op<K, V>>)
    requires RemoveOldest !in ops
    ensures SameAs(Run(0, [], ops), MapRun(ops))
    decreases |ops|
  {
    hide Lookup, Without;
    if ops == [] {
      forall k: K ensures Lookup<K, V>([], k) == None { LookupNil<K, V>(k); }
    } else {
      var before, op := ops[..|ops| - 1], ops[|ops| - 1];
      var s := Run(0, [], before);
      UnboundedIsMap(before);
      Conservation(0, before);
      forall j
        ensures Lookup(Run(0, [], ops), j) == if j in MapRun(ops) then Some(MapRun(ops)[j]) else None
      {
        MapStep(s, MapRun(before), op, j);
      }
    }
  }

  lemma LookupNil<K, V>(k: K)
    ensures Lookup<K, V>([], k) == None
  {
  }

  lemma MapStep<K(!new), V>(s: seq<Entry<K, V>>, m: map<K, V>, op: Op<K, V>, j: K)
    requires SameAs(s, m) && Distinct(s) && !op.RemoveOldest?
    ensures
      var m' := MapStepped(m, op);
      Lookup(Step(0, s, op).items, j) == if j in m' then Some(m'[j]) else None
  {
    hide Lookup, Without;
    match op
    case Add(k, v) =>
      LookupCons(Entry(k, v), s, j);
      LookupCons(Entry(k, v), Without(s, k), j);
      LookupWithout(s, k, j);
    case Get(k) =>
      if Lookup(s, k).Some? {
        LookupCons(Entry(k, Lookup(s, k).value), Without(s, k), j);
        LookupWithout(s, k, j);
      }
    case Remove(k) => LookupWithout(s, k, j);
    case Clear => LookupNil<K, V>(j);
  }

  // Whatever is found in s is what m holds.
  ghost predicate Agrees<K(!new), V>(s: seq<Entry<K, V>>, m: map<K, V>) {
    forall k :: Lookup(s, k).Some? ==> k in m && m[k] == Lookup(s, k).value
  }

  lemma {:induction false} LookupFront<K, V>(s: seq<Entry<K, V>>, k: K)
    requires s != [] && Lookup(s[..|s| - 1], k).Some?
    ensures Lookup(s, k) == Lookup(s[..|s| - 1], k)
  {
    if s[0].key != k {
      assert s[..|s| - 1][1..] == s[1..][..|s[1..]| - 1];
      LookupFront(s[1..], k);
    }
  }

  lemma StepAgrees<K(!new), V>(capacity: int, s: seq<Entry<K, V>>, m: map<K, V>, op: Op<K, V>, j: K)
    requires Agrees(s, m) && Distinct(s) && Lookup(Step(capacity, s, op).items, j).Some?
    ensures j in MapStepped(m, op) && MapStepped(m, op)[j] == Lookup(Step(capacity, s, op).items, j).value
  {
    hide Lookup, Without;
    match op
    case Add(k, v) =>
      LookupCons(Entry(k, v), s, j);
      LookupCons(Entry(k, v), Without(s, k), j);
      LookupWithout(s, k, j);
      var t := [Entry(k, v)] + s;
      if Lookup(s, k).None? && capacity != 0 && |t| > capacity {
        LookupFront(t, j);
      }
    case Get(k) =>
      if Lookup(s, k).Some? {
        LookupCons(Entry(k, Lookup(s, k).value), Without(s, k), j);
        LookupWithout(s, k, j);
      }
    case Remove(k) => LookupWithout(s, k, j);
    case RemoveOldest => if s != [] { LookupFront(s, j); }
    case Clear => LookupNil<K, V>(j);
  }

  lemma {:induction false} RunAgrees<K(!new), V>(capacity: int, ops: seq<Op<K, V>>)
    ensures Agrees(Run(capacity, [], ops), MapRun(ops))
    decreases |ops|
  {
    hide Lookup, Without, Step, MapStepped;
    if ops == [] {
      forall k: K ensures Lookup<K, V>([], k) == None { LookupNil<K, V>(k); }
    } else {
      var before, op := ops[..|ops| - 1], ops[|ops| - 1];
      RunAgrees(capacity, before);
      Conservation(capacity, before);
      var s := Run(capacity, [], before);
      forall j | Lookup(Step(capacity, s, op).items, j).Some?
        ensures j in MapStepped(MapRun(before), op)
        ensures MapStepped(MapRun(before), op)[j] == Lookup(Step(capacity, s, op).items, j).value
      {
        StepAgrees(capacity, s, MapRun(before), op, j);
      }
    }
  }

  // Main result: whatever its capacity, a cache never returns a stale or wrong
  // value.  After any operations each hit is what a plain map would hold.
  lemma HitsAreRight<K(!new), V>(capacity: int, ops: seq<Op<K, V>>, i: nat)
    requires i < |ops| && ops[i].Get?
    ensures
      var h, m := Hit(capacity, ops, i), MapRun(ops[..i]);
      h.Some? ==> ops[i].key in m && h.value == m[ops[i].key]
  {
    hide Lookup, Without, Run, MapRun;
    RunAgrees(capacity, ops[..i]);
  }

  // ------------------------------------------------- least recently used

  // The index of the last operation that added or looked up k.
  function LastUse<K(==), V>(ops: seq<Op<K, V>>, k: K): (i: int)
    ensures -1 <= i < |ops|
  {
    if ops == [] then -1
    else
      var last := ops[|ops| - 1];
      if (last.Add? || last.Get?) && last.key == k then |ops| - 1 else LastUse(ops[..|ops| - 1], k)
  }

  ghost predicate Falls<K, V>(s: seq<Entry<K, V>>, ops: seq<Op<K, V>>) {
    && (forall i :: 0 <= i < |s| ==> LastUse(ops, s[i].key) >= 0)
    && forall i, j :: 0 <= i < j < |s| ==> LastUse(ops, s[i].key) > LastUse(ops, s[j].key)
  }

  lemma {:induction false} WithoutFalls<K, V>(s: seq<Entry<K, V>>, k: K, ops: seq<Op<K, V>>)
    requires Falls(s, ops)
    ensures Falls(Without(s, k), ops)
    ensures forall e :: e in Without(s, k) ==> e in s
  {
    if s != [] {
      assert Falls(s[1..], ops);
      WithoutFalls(s[1..], k, ops);
      assert s == [s[0]] + s[1..];
      if s[0].key != k {
        var t := Without(s[1..], k);
        assert forall i :: 0 <= i < |t| ==> t[i] in s[1..];
      }
    }
  }

  // Operations that do not concern the keys of s leave their last use alone.
  lemma FallsOn<K, V>(s: seq<Entry<K, V>>, before: seq<Op<K, V>>, op: Op<K, V>)
    requires Falls(s, before)
    requires op.Add? || op.Get? ==> forall e :: e in s ==> e.key != op.key
    ensures Falls(s, before + [op])
  {
    var ops := before + [op];
    assert ops[..|ops| - 1] == before;
    forall i | 0 <= i < |s|
      ensures LastUse(ops, s[i].key) == LastUse(before, s[i].key)
    {
      assert s[i] in s;
    }
  }

  lemma FrontFalls<K, V>(e: Entry<K, V>, s: seq<Entry<K, V>>, before: seq<Op<K, V>>, op: Op<K, V>)
    requires Falls(s, before + [op]) && (op.Add? || op.Get?) && op.key == e.key && forall x :: x in s ==> x.key != e.key
    ensures Falls([e] + s, before + [op])
  {
    var ops := before + [op];
    assert ops[..|ops| - 1] == before && LastUse(ops, e.key) == |before|;
    forall i | 0 <= i < |s|
      ensures LastUse(ops, s[i].key) < |before|
    {
      assert s[i] in s;
    }
  }

  // What an Add makes of the list before it drops anything.
  lemma AddedFalls<K, V>(s: seq<Entry<K, V>>, before: seq<Op<K, V>>, k: K, v: V)
    requires Falls(s, before) && Distinct(s)
    ensures Falls([Entry(k, v)] + Without(s, k), before + [Add(k, v)])
  {
    WithoutFalls(s, k, before);
    WithoutKeys(s, k);
    FallsOn(Without(s, k), before, Add(k, v));
    FrontFalls(Entry(k, v), Without(s, k), before, Add(k, v));
  }

  lemma StepFalls<K, V>(capacity: int, s: seq<Entry<K, V>>, before: seq<Op<K, V>>, op: Op<K, V>)
    requires Falls(s, before) && Distinct(s)
    ensures Falls(Step(capacity, s, op).items, before + [op])
  {
    hide Falls, Lookup, Without, LastUse;
    match op
    case Add(k, v) =>
      AddedFalls(s, before, k, v);
      WithoutKeys(s, k);
      FrontOnly([Entry(k, v)] + s, before + [op]);
    case Get(k) =>
      LookupHas(s, k);
      if Lookup(s, k).Some? {
        WithoutFalls(s, k, before);
        WithoutKeys(s, k);
        FallsOn(Without(s, k), before, op);
        FrontFalls(Entry(k, Lookup(s, k).value), Without(s, k), before, op);
      } else {
        FallsOn(s, before, op);
      }
    case Remove(k) =>
      WithoutFalls(s, k, before);
      FallsOn(s, before, op);
      FallsOn(Without(s, k), before, op);
    case RemoveOldest =>
      FallsOn(s, before, op);
      FrontOnly(s, before + [op]);
    case Clear => NothingFalls<K, V>(before + [op]);
  }

  lemma FrontOnly<K, V>(s: seq<Entry<K, V>>, ops: seq<Op<K, V>>)
    ensures Falls(s, ops) && s != [] ==> Falls(s[..|s| - 1], ops)
  {
  }

  lemma NothingFalls<K, V>(ops: seq<Op<K, V>>)
    ensures Falls([], ops)
  {
  }

  // Main result: after any operations, at any capacity, the list holds its keys
  // by strictly falling last use.
  lemma {:induction false} ByLastUse<K, V>(capacity: int, ops: seq<Op<K, V>>)
    ensures Falls(Run(capacity, [], ops), ops)
    decreases |ops|
  {
    hide Falls, Step;
    if ops == [] {
      NothingFalls<K, V>(ops);
    } else {
      var before, op := ops[..|ops| - 1], ops[|ops| - 1];
      ByLastUse(capacity, before);
      Conservation(capacity, before);
      assert ops == before + [op];
      StepFalls(capacity, Run(capacity, [], before), before, op);
    }
  }

  // So what an Add or RemoveOldest drops was used before everything it leaves.
  lemma OldestIsDropped<K, V>(capacity: int, before: seq<Op<K, V>>, op: Op<K, V>, d: Entry<K, V>, e: Entry<K, V>)
    requires op.Add? || op.RemoveOldest?
    requires var f := Step(capacity, Run(capacity, [], before), op); d in f.dropped && e in f.items
    ensures LastUse(before + [op], d.key) < LastUse(before + [op], e.key)
  {
    hide Lookup, LastUse, Run;
    var s, ops := Run(capacity, [], before), before + [op];
    ByLastUse(capacity, before);
    Conservation(capacity, before);
    if op.Add? {
      AddedFalls(s, before, op.key, op.value);
      WithoutKeys(s, op.key);
    } else {
      FallsOn(s, before, op);
    }
  }

  // --------------------------------------------------- what each operation does

  lemma MemberIs<K, V>(s: seq<Entry<K, V>>, e: Entry<K, V>)
    requires Distinct(s)
    ensures e in s <==> Lookup(s, e.key) == Some(e.value)
  {
    LookupHas(s, e.key);
    if e in s {
      var i :| 0 <= i < |s| && s[i] == e;
      LookupAt(s, i);
    }
  }

  // Main result: at any capacity, after any operations, a Get finds its key if
  // and only if the cache holds it, and then with the value it holds.
  lemma GetHitsExactly<K, V>(capacity: int, ops: seq<Op<K, V>>, i: nat)
    requires i < |ops| && ops[i].Get?
    ensures
      var s, k, h := Run(capacity, [], ops[..i]), ops[i].key, Hit(capacity, ops, i);
      && (h.Some? <==> exists e :: e in s && e.key == k)
      && (forall e :: e in s && e.key == k ==> h == Some(e.value))
  {
    hide Run, Lookup, Without;
    var s, k := Run(capacity, [], ops[..i]), ops[i].key;
    Conservation(capacity, ops[..i]);
    LookupHas(s, k);
    forall e | e in s && e.key == k
      ensures Hit(capacity, ops, i) == Some(e.value)
    {
      MemberIs(s, e);
    }
    if Lookup(s, k).Some? {
      assert Entry(k, Lookup(s, k).value) in s;
    }
  }

  // Without RemoveOldest an unbounded cache answers every Get as a map does.
  lemma UnboundedHitsExactly<K(!new), V>(ops: seq<Op<K, V>>, i: nat)
    requires i < |ops| && ops[i].Get? && RemoveOldest !in ops[..i]
    ensures
      var m, k := MapRun(ops[..i]), ops[i].key;
      Hit(0, ops, i) == if k in m then Some(m[k]) else None
  {
    hide Run, Lookup, Without, MapRun;
    UnboundedIsMap(ops[..i]);
  }

  // An Add puts its entry in for what was there of its key.  It drops one entry
  // if and only if the key is new and there are then more than the capacity,
  // unless that is 0.
  lemma AddDropsExactly<K, V>(capacity: int, before: seq<Op<K, V>>, k: K, v: V)
    ensures
      var s := Run(capacity, [], before);
      var f := Step(capacity, s, Add(k, v));
      && |f.dropped| == (if capacity != 0 && !Has(s, k) && |s| + 1 > capacity then 1 else 0)
      && f.items + f.dropped == [Entry(k, v)] + Without(s, k)
      && forall e :: e in Without(s, k) <==> e in s && e.key != k
  {
    hide Run, Without, Has;
    var s := Run(capacity, [], before);
    Conservation(capacity, before);
    LookupHas(s, k);
    WithoutKeys(s, k);
    forall e
      ensures e in Without(s, k) <==> e in s && e.key != k
    {
      StaysWithout(s, k, e);
    }
  }

  lemma StaysWithout<K, V>(s: seq<Entry<K, V>>, k: K, e: Entry<K, V>)
    requires Distinct(s)
    ensures e in Without(s, k) <==> e in s && e.key != k
  {
    hide Lookup, Without;
    WithoutDistinct(s, k);
    MemberIs(s, e);
    MemberIs(Without(s, k), e);
    LookupWithout(s, k, e.key);
  }

  // A Remove takes out its key and nothing else, and drops what it took out.
  lemma RemoveTakesExactly<K, V>(capacity: int, before: seq<Op<K, V>>, k: K)
    ensures
      var s := Run(capacity, [], before);
      var f := Step(capacity, s, Remove(k));
      && (forall e :: e in f.items <==> e in s && e.key != k)
      && (forall e :: e in f.dropped <==> e in s && e.key == k)
  {
    hide Run, Lookup, Without;
    var s := Run(capacity, [], before);
    Conservation(capacity, before);
    WithoutKeys(s, k);
    forall e
      ensures e in Step(capacity, s, Remove(k)).items <==> e in s && e.key != k
      ensures e in Step(capacity, s, Remove(k)).dropped <==> e in s && e.key == k
    {
      MemberIs(s, e);
      StaysWithout(s, k, e);
    }
  }

  // RemoveOldest drops the entry used longest ago, if there is one at all.
  lemma OldestTakesExactly<K, V>(capacity: int, before: seq<Op<K, V>>)
    ensures
      var s := Run(capacity, [], before);
      var f := Step(capacity, s, RemoveOldest);
      && f.items + f.dropped == s && |f.dropped| == (if s == [] then 0 else 1)
      && forall d, e :: d in f.dropped && e in f.items ==> LastUse(before, d.key) < LastUse(before, e.key)
  {
    hide Run, LastUse;
    ByLastUse(capacity, before);
  }
}
