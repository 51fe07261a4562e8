// The consistent hash ring of internal/balance/consitenthash on values, and
// what adding and deleting nodes does to every lookup.  The hash is any
// function of a virtual node's name.
module HashRing {
  import opened Options
  import opened Sequences

  type Hash = string -> nat

  // ----------------------------------------------------------- virtual nodes

  function Itoa(i: nat): string {
    var digit := "0123456789"[i % 10];
    if i < 10 then [digit] else Itoa(i / 10) + [digit]
  }

  function VirtualKeys(hash: Hash, node: string, n: int): (ks: seq<nat>)
    ensures |ks| == if n > 0 then n else 0
    decreases if n > 0 then n else 0
  {
    if n <= 0 then [] else VirtualKeys(hash, node, n - 1) + [hash(node + "_" + Itoa(n - 1))]
  }

  // Reading the digits again.
  function Atoi(s: string): nat {
    if s == [] then 0
    else 10 * Atoi(s[..|s| - 1]) + (if '0' <= s[|s| - 1] <= '9' then s[|s| - 1] as int - '0' as int else 0)
  }

  lemma {:induction false} ItoaReadsBack(n: nat)
    ensures Atoi(Itoa(n)) == n
    ensures forall i :: 0 <= i < |Itoa(n)| ==> '0' <= Itoa(n)[i] <= '9'
  {
    hide Atoi;
    DigitReadsBack(n % 10);
    if n >= 10 {
      ItoaReadsBack(n / 10);
      AtoiSnoc(Itoa(n / 10), Itoa(n % 10)[0]);
    }
  }

  lemma AtoiSnoc(s: string, c: char)
    requires '0' <= c <= '9'
    ensures Atoi(s + [c]) == 10 * Atoi(s) + (c as int - '0' as int)
  {
    assert (s + [c])[..|s|] == s;
  }

  lemma DigitReadsBack(d: nat)
    requires d < 10
    ensures |Itoa(d)| == 1 && '0' <= Itoa(d)[0] <= '9' && Itoa(d)[0] as int - '0' as int == d
    ensures Atoi(Itoa(d)) == d
  {
    hide Itoa, Atoi;
    DigitIs(d);
    var s := Itoa(d);
    AtoiSnoc([], s[0]);
    AtoiNone();
    assert [] + [s[0]] == s;
  }

  lemma DigitIs(d: nat)
    requires d < 10
    ensures |Itoa(d)| == 1 && Itoa(d)[0] as int == '0' as int + d
  {
    var digits := "0123456789";
    assert digits[0] == '0' && digits[1] == '1' && digits[2] == '2' && digits[3] == '3' && digits[4] == '4';
    assert digits[5] == '5' && digits[6] == '6' && digits[7] == '7' && digits[8] == '8' && digits[9] == '9';
  }

  lemma AtoiNone()
    ensures Atoi([]) == 0
  {
  }

  // Different virtual nodes have different names: the digits hold no underscore.
  lemma NamesApart(x: string, i: nat, y: string, j: nat)
    ensures x + "_" + Itoa(i) == y + "_" + Itoa(j) <==> x == y && i == j
  {
    hide Itoa, Atoi;
    ItoaReadsBack(i);
    ItoaReadsBack(j);
    LastUnderscore(x, Itoa(i));
    LastUnderscore(y, Itoa(j));
    var a, b := x + "_" + Itoa(i), y + "_" + Itoa(j);
    if a == b {
      assert |x| == |y|;
      assert a[..|x|] == x && b[..|y|] == y && a[|x| + 1..] == Itoa(i) && b[|y| + 1..] == Itoa(j);
    }
  }

  lemma LastUnderscore(x: string, digits: string)
    requires forall i :: 0 <= i < |digits| ==> '0' <= digits[i] <= '9'
    ensures
      var a := x + "_" + digits;
      a[|x|] == '_' && forall k :: |x| < k < |a| ==> a[k] != '_'
  {
    var a := x + "_" + digits;
    forall k | |x| < k < |a|
      ensures a[k] != '_'
    {
      assert a[k] == digits[k - |x| - 1];
    }
  }

  // ------------------------------------------------------------------ the ring

  datatype Ring = Ring(keys: seq<nat>, size: int, nodeNum: map<string, int>, owner: map<nat, string>)

  const EMPTY_RING := Ring([], 0, map[], map[])

  predicate Sorted(s: seq<nat>) {
    forall i, j :: 0 <= i < j < |s| ==> s[i] <= s[j]
  }

  function Insert(s: seq<nat>, x: nat): seq<nat> {
    if s == [] || s[|s| - 1] <= x then s + [x] else Insert(s[..|s| - 1], x) + [s[|s| - 1]]
  }

  // The one ascending order of a list of integers, which any sort gives.
  function Sort(s: seq<nat>): seq<nat> {
    if s == [] then [] else Insert(Sort(s[..|s| - 1]), s[|s| - 1])
  }

  function PutAll(m: map<nat, string>, ks: seq<nat>, node: string): map<nat, string> {
    if ks == [] then m else PutAll(m, ks[..|ks| - 1], node)[ks[|ks| - 1] := node]
  }

  function AddNode(hash: Hash, r: Ring, node: string, n: int): Ring {
    var ks := VirtualKeys(hash, node, n);
    Ring(Sort(r.keys + ks), r.size + |ks|, r.nodeNum[node := n], PutAll(r.owner, ks, node))
  }

  // The first index whose key is at least h, or the length.
  function First(s: seq<nat>, h: nat): (i: nat)
    ensures i <= |s|
    ensures forall j :: 0 <= j < i ==> s[j] < h
    ensures i < |s| ==> s[i] >= h
  {
    if s == [] || s[0] >= h then 0 else 1 + First(s[1..], h)
  }

  function HitKey(s: seq<nat>, h: nat): nat
    requires s != []
  {
    if First(s, h) == |s| then s[0] else s[First(s, h)]
  }

  // The node a hash is served by; a key without owner yields the empty name.
  function Lookup(r: Ring, h: nat): string
    requires r.keys != []
  {
    var k := HitKey(r.keys, h);
    if k in r.owner then r.owner[k] else ""
  }

  // sort.Search: the first index in i..j from which keys are at least h, found
  // by halving; None where it indexes past the end.
  function Search(keys: seq<nat>, i: nat, j: int, h: nat): (at: Option<nat>)
    decreases j - i
  {
    if i >= j then Some(i)
    else
      var mid := (i + j) / 2;
      if mid >= |keys| then None
      else if keys[mid] < h then Search(keys, mid + 1, j, h)
      else Search(keys, i, mid, h)
  }

  // Get on any ring, whether its size is its length or not.
  function GetNode(r: Ring, h: nat): (node: Option<string>) {
    match Search(r.keys, 0, r.size, h)
    case None => None
    case Some(i) =>
      var idx := if i == r.size then 0 else i;
      if idx >= |r.keys| then None
      else Some(if r.keys[idx] in r.owner then r.owner[r.keys[idx]] else "")
  }

  lemma {:induction false} SearchFinds(s: seq<nat>, i: nat, j: int, h: nat)
    requires Sorted(s) && i <= First(s, h) <= j <= |s|
    ensures Search(s, i, j, h) == Some(First(s, h))
    decreases j - i
  {
    if i < j {
      var mid := (i + j) / 2;
      if s[mid] < h {
        SearchFinds(s, mid + 1, j, h);
      } else {
        SearchFinds(s, i, mid, h);
      }
    }
  }

  // On a sorted ring of the right size that is the lookup.
  lemma GetFinds(r: Ring, h: nat)
    requires Sorted(r.keys) && r.size == |r.keys|
    ensures GetNode(r, h) == if r.keys == [] then None else Some(Lookup(r, h))
  {
    SearchFinds(r.keys, 0, r.size, h);
  }

  // --------------------------------------------------------- deleting one key

  // The loop of Delete ranges over the slice as it was, while its body shifts
  // the same cells to the left.  live counts the cells still on the ring; a
  // match at or past the end of the ring is a slice bounds panic.
  function RangeDelete(cells: seq<nat>, live: nat, idx: nat, key: nat): Option<seq<nat>>
    requires live <= |cells| && idx <= |cells|
    decreases |cells| - idx
  {
    if idx == |cells| then Some(cells[..live])
    else if cells[idx] != key then RangeDelete(cells, live, idx + 1, key)
    else if idx >= live then None
    else RangeDelete(cells[..idx] + cells[idx + 1..live] + cells[live - 1..], live - 1, idx + 1, key)
  }

  function DeleteKeys(r: Ring, ks: seq<nat>): Option<Ring>
  {
    if ks == [] then Some(r)
    else
      match DeleteKeys(r, ks[..|ks| - 1])
      case None => None
      case Some(r1) =>
        var k := ks[|ks| - 1];
        match RangeDelete(r1.keys, |r1.keys|, 0, k)
        case None => None
        case Some(s) => Some(Ring(s, r1.size - 1, r1.nodeNum, r1.owner - {k}))
  }

  function DeleteNode(hash: Hash, r: Ring, node: string): Option<Ring>
    requires node in r.nodeNum
  {
    match DeleteKeys(r, VirtualKeys(hash, node, r.nodeNum[node]))
    case None => None
    case Some(r1) => Some(r1.(nodeNum := r1.nodeNum - {node}))
  }

  // ------------------------------------------------------------ sorted lists

  lemma {:induction false} InsertSorted(s: seq<nat>, x: nat)
    requires Sorted(s)
    ensures Sorted(Insert(s, x))
    ensures multiset(Insert(s, x)) == multiset(s) + multiset{x}
  {
    InsertOnce(s, x);
    if s != [] && s[|s| - 1] > x {
      var front, last := s[..|s| - 1], s[|s| - 1];
      InsertSorted(front, x);
      SnocSorted(Insert(front, x), last, s, x);
    }
  }

  lemma {:induction false} InsertOnce(s: seq<nat>, x: nat)
    ensures multiset(Insert(s, x)) == multiset(s) + multiset{x}
  {
    if s != [] && s[|s| - 1] > x {
      var front, last := s[..|s| - 1], s[|s| - 1];
      InsertOnce(front, x);
      assert s == front + [last];
    }
  }

  lemma SnocSorted(t: seq<nat>, last: nat, s: seq<nat>, x: nat)
    requires Sorted(s) && s != [] && last == s[|s| - 1] && x < last && Sorted(t)
    requires multiset(t) == multiset(s[..|s| - 1]) + multiset{x}
    ensures Sorted(t + [last])
  {
    forall i | 0 <= i < |t|
      ensures t[i] <= last
    {
      assert t[i] in multiset(t);
      if t[i] != x {
        assert t[i] in multiset(s[..|s| - 1]);
        assert t[i] in s[..|s| - 1];
      }
    }
  }

  lemma {:induction false} SortSorted(s: seq<nat>)
    ensures Sorted(Sort(s)) && multiset(Sort(s)) == multiset(s)
  {
    if s != [] {
      SortSorted(s[..|s| - 1]);
      InsertSorted(Sort(s[..|s| - 1]), s[|s| - 1]);
      assert s == s[..|s| - 1] + [s[|s| - 1]];
    }
  }

  // A sorted list is determined by its elements.
  lemma {:induction false} SortedUnique(a: seq<nat>, b: seq<nat>)
    requires Sorted(a) && Sorted(b) && multiset(a) == multiset(b)
    ensures a == b
    decreases |a|
  {
    hide Sorted;
    assert |a| == |multiset(a)| == |multiset(b)| == |b|;
    if a != [] {
      var n := |a| - 1;
      FrontSorted(a);
      FrontSorted(b);
      LastIsGreatest(a, b[n]);
      LastIsGreatest(b, a[n]);
      assert a[n] == b[n];
      SortedUnique(a[..n], b[..n]);
      LastAndRest(a, b, n);
    }
  }

  lemma LastAndRest(a: seq<nat>, b: seq<nat>, n: nat)
    requires |a| == |b| == n + 1 && a[..n] == b[..n] && a[n] == b[n]
    ensures a == b
  {
    assert a == a[..n] + [a[n]] && b == b[..n] + [b[n]];
  }

  lemma FrontSorted(s: seq<nat>)
    requires Sorted(s) && s != []
    ensures Sorted(s[..|s| - 1])
    ensures multiset(s[..|s| - 1]) == multiset(s) - multiset{s[|s| - 1]}
    ensures s[|s| - 1] in multiset(s)
  {
    assert s == s[..|s| - 1] + [s[|s| - 1]];
  }

  lemma LastIsGreatest(s: seq<nat>, x: nat)
    requires Sorted(s) && s != []
    ensures x in multiset(s) ==> x <= s[|s| - 1]
  {
    if x in multiset(s) {
      var i :| 0 <= i < |s| && s[i] == x;
    }
  }

  // -------------------------------------------- what the range loop removes

  function Repeat(x: nat, n: nat): (s: seq<nat>)
    ensures |s| == n
  {
    seq(n, _ => x)
  }

  // The cells after j deletions from a, c copies of key, b.
  function Cells(a: seq<nat>, key: nat, c: nat, b: seq<nat>, last: nat, j: nat): (s: seq<nat>)
    requires j <= c
    ensures |s| == |a| + c + |b|
  {
    a + Repeat(key, c - j) + b + Repeat(last, j)
  }

  // Past the last copy nothing matches, when the ring does not end in key.
  lemma {:induction false} RestUnmatched(cells: seq<nat>, live: nat, idx: nat, key: nat)
    requires live <= |cells| && idx <= |cells|
    requires forall i :: idx <= i < |cells| ==> cells[i] != key
    ensures RangeDelete(cells, live, idx, key) == Some(cells[..live])
    decreases |cells| - idx
  {
    if idx < |cells| {
      RestUnmatched(cells, live, idx + 1, key);
    }
  }

  lemma {:induction false} SkipUnmatched(cells: seq<nat>, live: nat, idx: nat, stop: nat, key: nat)
    requires live <= |cells| && idx <= stop <= |cells|
    requires forall i :: idx <= i < stop ==> cells[i] != key
    ensures RangeDelete(cells, live, idx, key) == RangeDelete(cells, live, stop, key)
    decreases stop - idx
  {
    if idx < stop {
      SkipUnmatched(cells, live, idx + 1, stop, key);
    }
  }

  lemma ShiftCells(a: seq<nat>, key: nat, c: nat, b: seq<nat>, last: nat, j: nat)
    requires j < c - j && last == (if b == [] then key else b[|b| - 1])
    ensures
      var cells, live, idx := Cells(a, key, c, b, last, j), |a| + c - j + |b|, |a| + j;
      && live <= |cells| && idx < live && cells[idx] == key
      && cells[..idx] + cells[idx + 1..live] + cells[live - 1..] == Cells(a, key, c, b, last, j + 1)
  {
    var cells, live, idx := Cells(a, key, c, b, last, j), |a| + c - j + |b|, |a| + j;
    assert cells[live - 1] == last;
    assert cells[..idx] + cells[idx + 1..live] == a + Repeat(key, c - j - 1) + b;
    assert cells[live - 1..] == Repeat(last, j + 1);
  }

  // The loop from the first copy on, with j copies already gone.
  lemma {:induction false} LoopOnCopies(a: seq<nat>, key: nat, c: nat, b: seq<nat>, last: nat, j: nat)
    requires c >= 1 && j <= c - j + 1 && j <= c && key !in a && key !in b
    requires last == (if b == [] then key else b[|b| - 1])
    ensures
      var cells, live := Cells(a, key, c, b, last, j), |a| + c - j + |b|;
      RangeDelete(cells, live, |a| + j, key) ==
        if b == [] && c >= 2 then None else Some(a + Repeat(key, c / 2) + b)
    decreases c - j
  {
    var cells, live, idx := Cells(a, key, c, b, last, j), |a| + c - j + |b|, |a| + j;
    if j < c - j {
      ShiftCells(a, key, c, b, last, j);
      LoopOnCopies(a, key, c, b, last, j + 1);
    } else if b == [] {
      if c >= 2 {
        assert cells[idx] == key && idx >= live;
      } else {
        assert idx == |cells| && cells[..live] == a + Repeat(key, 0) + b;
      }
    } else {
      assert b[|b| - 1] in b;
      assert c - j == c / 2;
      forall i | idx <= i < |cells|
        ensures cells[i] != key
      {
        if i < live {
          assert cells[i] == b[i - |a| - (c - j)];
        } else {
          assert cells[i] == last;
        }
      }
      RestUnmatched(cells, live, idx, key);
      assert cells[..live] == a + Repeat(key, c / 2) + b;
    }
  }

  // A sorted list around the copies of a key it holds.
  lemma Split(s: seq<nat>, key: nat) returns (a: seq<nat>, c: nat, b: seq<nat>)
    requires Sorted(s)
    ensures s == a + Repeat(key, c) + b && key !in a && key !in b
    ensures b == [] <==> s == [] || s[|s| - 1] <= key
  {
    var lo, hi := First(s, key), First(s, key + 1);
    a, c, b := s[..lo], hi - lo, s[hi..];
    forall i | lo <= i < |s|
      ensures s[i] >= key && (i >= hi ==> s[i] > key)
    {
      assert s[lo] <= s[i];
    }
    assert s[lo..hi] == Repeat(key, c);
    assert s == s[..lo] + s[lo..hi] + s[hi..];
  }

  lemma SplitCount(s: seq<nat>, key: nat, a: seq<nat>, c: nat, b: seq<nat>)
    requires s == a + Repeat(key, c) + b && key !in a && key !in b
    ensures multiset(s)[key] == c
  {
    RepeatCount(key, c);
    assert multiset(s) == multiset(a) + multiset(Repeat(key, c)) + multiset(b);
  }

  // Exactly what one pass does to a sorted ring that holds c copies of the
  // key: it panics when two or more of them end the ring, and removes half of
  // them, rounded up, otherwise.
  lemma OnePass(s: seq<nat>, key: nat)
    requires Sorted(s)
    ensures
      var c, out := multiset(s)[key], RangeDelete(s, |s|, 0, key);
      if c >= 2 && s[|s| - 1] == key then out == None
      else out.Some? && Sorted(out.value) && multiset(out.value) == multiset(s)[key := c / 2]
  {
    hide Sorted, RangeDelete;
    var a, c, b := Split(s, key);
    SplitCount(s, key, a, c, b);
    FewerCopies(a, key, c, b, s);
    Surround(s, key, a, c, b);
    assert s[..|s|] == s;
    if c == 0 {
      RestUnmatched(s, |s|, 0, key);
      assert multiset(s)[key := 0] == multiset(s);
    } else {
      var last := if b == [] then key else b[|b| - 1];
      SkipUnmatched(s, |s|, 0, |a|, key);
      LoopOnCopies(a, key, c, b, last, 0);
    }
  }

  lemma Surround(s: seq<nat>, key: nat, a: seq<nat>, c: nat, b: seq<nat>)
    requires s == a + Repeat(key, c) + b && key !in a && key !in b
    ensures c == 0 ==> forall i :: 0 <= i < |s| ==> s[i] != key
    ensures forall i :: 0 <= i < |a| ==> s[i] != key
    ensures Cells(a, key, c, b, if b == [] then key else b[|b| - 1], 0) == s
    ensures c > 0 && b == [] ==> s[|s| - 1] == key
    ensures b != [] ==> s[|s| - 1] != key
  {
    if b != [] {
      assert s[|s| - 1] == b[|b| - 1] && b[|b| - 1] in b;
    }
    if c == 0 {
      forall i | 0 <= i < |s|
        ensures s[i] != key
      {
        assert s[i] in (if i < |a| then a else b);
      }
    }
  }

  lemma {:induction false} RepeatCount(key: nat, n: nat)
    ensures multiset(Repeat(key, n)) == multiset{}[key := n]
  {
    if n > 0 {
      RepeatCount(key, n - 1);
      assert Repeat(key, n) == Repeat(key, n - 1) + [key];
    }
  }

  lemma FewerCopies(a: seq<nat>, key: nat, c: nat, b: seq<nat>, s: seq<nat>)
    requires s == a + Repeat(key, c) + b && Sorted(s) && key !in a && key !in b
    ensures
      var t := a + Repeat(key, c / 2) + b;
      Sorted(t) && multiset(t) == multiset(s)[key := c / 2]
  {
    var t, d := a + Repeat(key, c / 2) + b, c - c / 2;
    FewerCounted(a, key, c, b, c / 2);
    forall i, j | 0 <= i < j < |t|
      ensures t[i] <= t[j]
    {
      var i', j' := if i < |a| + c / 2 then i else i + d, if j < |a| + c / 2 then j else j + d;
      assert t[i] == s[i'] && t[j] == s[j'];
    }
  }

  lemma FewerCounted(a: seq<nat>, key: nat, c: nat, b: seq<nat>, d: nat)
    requires key !in a && key !in b
    ensures multiset(a + Repeat(key, d) + b) == multiset(a + Repeat(key, c) + b)[key := d]
  {
    RepeatCount(key, c);
    RepeatCount(key, d);
    assert multiset(a)[key] == 0 && multiset(b)[key] == 0;
  }

  // So a pass cleans the key off a sorted ring if and only if it was there at
  // most once.
  lemma PassCleansExactly(s: seq<nat>, key: nat)
    requires Sorted(s)
    ensures
      var out := RangeDelete(s, |s|, 0, key);
      (out.Some? && key !in out.value) <==> multiset(s)[key] <= 1
  {
    OnePass(s, key);
    var out := RangeDelete(s, |s|, 0, key);
    if out.Some? {
      assert key in out.value <==> key in multiset(out.value);
    }
  }

  // --------------------------------------------- every ring that Adds can build

  ghost predicate RingOk(r: Ring) {
    && Sorted(r.keys)
    && r.size == |r.keys|
    && forall k :: k in r.owner <==> k in r.keys
  }

  lemma {:induction false} PutAllAt(m: map<nat, string>, ks: seq<nat>, node: string)
    ensures forall k :: k in PutAll(m, ks, node) <==> k in m || k in ks
    ensures forall k :: k in ks ==> PutAll(m, ks, node)[k] == node
    ensures forall k :: k in m && k !in ks ==> PutAll(m, ks, node)[k] == m[k]
  {
    if ks != [] {
      PutAllAt(m, ks[..|ks| - 1], node);
      assert ks == ks[..|ks| - 1] + [ks[|ks| - 1]];
    }
  }

  lemma SameKeys(a: seq<nat>, b: seq<nat>)
    requires multiset(a) == multiset(b)
    ensures forall k :: k in a <==> k in b
  {
    assert forall k :: k in a <==> k in multiset(a);
    assert forall k :: k in b <==> k in multiset(b);
  }

  lemma AddKeeps(hash: Hash, r: Ring, node: string, n: int)
    requires RingOk(r)
    ensures
      var r', ks := AddNode(hash, r, node, n), VirtualKeys(hash, node, n);
      && RingOk(r')
      && multiset(r'.keys) == multiset(r.keys) + multiset(ks)
      && (forall k :: k in r'.keys <==> k in r.keys || k in ks)
  {
    hide Sort, PutAll, VirtualKeys, Sorted;
    var ks := VirtualKeys(hash, node, n);
    SortSorted(r.keys + ks);
    SameKeys(Sort(r.keys + ks), r.keys + ks);
    PutAllAt(r.owner, ks, node);
    assert |Sort(r.keys + ks)| == |multiset(Sort(r.keys + ks))| == |multiset(r.keys + ks)|;
  }

  // ----------------------------------------------------------- what Get finds

  // x is the first key of s at or after h, going round the ring.
  predicate IsHit(s: seq<nat>, h: nat, x: nat) {
    && x in s
    && if exists y :: y in s && y >= h then x >= h && forall y :: y in s && y >= h ==> x <= y
       else forall y :: y in s ==> x <= y
  }

  lemma HitKeyIsHit(s: seq<nat>, h: nat)
    requires Sorted(s) && s != []
    ensures IsHit(s, h, HitKey(s, h))
  {
    var i := First(s, h);
    if i < |s| {
      assert s[i] in s && s[i] >= h;
      forall y | y in s && y >= h
        ensures s[i] <= y
      {
        var j :| 0 <= j < |s| && s[j] == y;
      }
    } else {
      forall y | y in s
        ensures y < h && s[0] <= y
      {
        var j :| 0 <= j < |s| && s[j] == y;
      }
    }
  }

  lemma HitUnique(s: seq<nat>, h: nat, x: nat, y: nat)
    requires IsHit(s, h, x) && IsHit(s, h, y)
    ensures x == y
  {
  }

  // A hit stays the hit in any part of the ring that still holds it.
  lemma HitInPart(s: seq<nat>, t: seq<nat>, h: nat, x: nat)
    requires IsHit(s, h, x) && x in t && forall y :: y in t ==> y in s
    ensures IsHit(t, h, x)
  {
  }

  // Main result: adding a node moves a lookup to it or leaves it alone, even
  // where virtual keys collide.
  lemma AddMovesOnlyToNode(hash: Hash, r: Ring, node: string, n: int, h: nat)
    requires RingOk(r)
    ensures
      var r' := AddNode(hash, r, node, n);
      r'.keys != [] ==>
        if HitKey(r'.keys, h) in VirtualKeys(hash, node, n) then Lookup(r', h) == node
        else r.keys != [] && Lookup(r', h) == Lookup(r, h)
  {
    hide Sort, PutAll, VirtualKeys, Sorted, First, HitKey, IsHit;
    var r', ks := AddNode(hash, r, node, n), VirtualKeys(hash, node, n);
    AddKeeps(hash, r, node, n);
    if r'.keys != [] {
      var x := HitKey(r'.keys, h);
      HitKeyIsHit(r'.keys, h);
      HitIn(r'.keys, h, x);
      PutAllAt(r.owner, ks, node);
      if x !in ks {
        HitInPart(r'.keys, r.keys, h, x);
        HitKeyIsHit(r.keys, h);
        HitUnique(r.keys, h, x, HitKey(r.keys, h));
      }
    }
  }

  lemma HitIn(s: seq<nat>, h: nat, x: nat)
    requires IsHit(s, h, x)
    ensures x in s
  {
  }

  // --------------------------------------------------------- deleting a node

  // The keys are on the ring, once each.
  predicate OnceOn(ks: seq<nat>, s: seq<nat>) {
    NoRepeat(ks) && forall k :: k in ks ==> multiset(s)[k] == 1
  }

  function Erase(m: map<nat, string>, ks: seq<nat>): map<nat, string> {
    map k | k in m && k !in ks :: m[k]
  }

  // c copies after p passes.
  function Halved(c: nat, p: nat): (r: nat)
    ensures r <= c && (c >= 1 && p >= 1 ==> r < c)
  {
    if p == 0 then c else Halved(c, p - 1) / 2
  }

  lemma {:induction false} HalvedAway(c: nat, p: nat)
    requires p >= c
    ensures Halved(c, p) == 0
  {
    if c > 0 {
      HalvedOnce(c, p);
      HalvedAway(c / 2, p - 1);
    }
  }

  lemma {:induction false} HalvedOnce(c: nat, p: nat)
    requires p >= 1
    ensures Halved(c, p) == Halved(c / 2, p - 1)
  {
    if p > 1 {
      HalvedOnce(c, p - 1);
    }
  }

  // The copies of k on a ring with the keys m, after a pass for each of ks.
  function Left(m: multiset<nat>, ks: seq<nat>, k: nat): nat {
    Halved(m[k], multiset(ks)[k])
  }

  // A pass for k would panic next: two copies are left, and nothing greater.
  ghost predicate Stops(m: multiset<nat>, ks: seq<nat>, k: nat) {
    Left(m, ks, k) >= 2 && forall y :: y in m && y > k ==> Left(m, ks, y) == 0
  }

  ghost predicate Clear(m: multiset<nat>, ks: seq<nat>) {
    forall i :: 0 <= i < |ks| ==> !Stops(m, ks[..i], ks[i])
  }

  // Any passes over a sorted ring: what they leave, and when one panics.
  lemma {:induction false} DeletePasses(r: Ring, ks: seq<nat>)
    requires Sorted(r.keys)
    ensures
      var m, out := multiset(r.keys), DeleteKeys(r, ks);
      && (out.Some? <==> Clear(m, ks))
      && (out.Some? ==>
            && Sorted(out.value.keys) && (forall k :: multiset(out.value.keys)[k] == Left(m, ks, k))
            && out.value.size == r.size - |ks| && out.value.nodeNum == r.nodeNum
            && out.value.owner == Erase(r.owner, ks))
  {
    hide Sorted, RangeDelete, Erase, Left, Stops;
    var m := multiset(r.keys);
    if ks == [] {
      EraseNone(r.owner);
      NonePassed(m);
    } else {
      var front, k := ks[..|ks| - 1], ks[|ks| - 1];
      DeletePasses(r, front);
      ClearLast(m, ks);
      EraseOne(r.owner, ks);
      if Clear(m, front) {
        OneMorePass(m, ks, DeleteKeys(r, front).value.keys);
      }
    }
  }

  lemma NonePassed(m: multiset<nat>)
    ensures Clear(m, []) && forall k :: Left(m, [], k) == m[k]
  {
  }

  lemma ClearLast(m: multiset<nat>, ks: seq<nat>)
    requires ks != []
    ensures Clear(m, ks) <==> Clear(m, ks[..|ks| - 1]) && !Stops(m, ks[..|ks| - 1], ks[|ks| - 1])
  {
    hide Stops;
    var front := ks[..|ks| - 1];
    assert forall i :: 0 <= i < |front| ==> front[..i] == ks[..i];
  }

  lemma OneMorePass(m: multiset<nat>, ks: seq<nat>, s: seq<nat>)
    requires ks != [] && Sorted(s) && forall k :: multiset(s)[k] == Left(m, ks[..|ks| - 1], k)
    ensures
      var k, out := ks[|ks| - 1], RangeDelete(s, |s|, 0, ks[|ks| - 1]);
      && (out.Some? <==> !Stops(m, ks[..|ks| - 1], k))
      && (out.Some? ==> Sorted(out.value) && forall y :: multiset(out.value)[y] == Left(m, ks, y))
  {
    hide Sorted, RangeDelete, Left, Stops;
    var front, k := ks[..|ks| - 1], ks[|ks| - 1];
    OnePass(s, k);
    StopsAtGreatest(m, front, s, k);
    forall y
      ensures Left(m, ks, y) == if y == k then Left(m, front, k) / 2 else Left(m, front, y)
    {
      LeftLast(m, ks, y);
    }
  }

  lemma StopsAtGreatest(m: multiset<nat>, ks: seq<nat>, s: seq<nat>, k: nat)
    requires Sorted(s) && forall y :: multiset(s)[y] == Left(m, ks, y)
    ensures Stops(m, ks, k) <==> multiset(s)[k] >= 2 && s[|s| - 1] == k
  {
    if multiset(s)[k] >= 2 {
      assert k in s;
      assert s[|s| - 1] in multiset(s) && s[|s| - 1] in m;
    }
  }

  lemma LeftLast(m: multiset<nat>, ks: seq<nat>, y: nat)
    requires ks != []
    ensures
      var front, k := ks[..|ks| - 1], ks[|ks| - 1];
      Left(m, ks, y) == if y == k then Left(m, front, k) / 2 else Left(m, front, y)
  {
    assert ks == ks[..|ks| - 1] + [ks[|ks| - 1]];
  }

  lemma EraseNone(m: map<nat, string>)
    ensures Erase(m, []) == m
  {
  }

  lemma EraseOne(m: map<nat, string>, ks: seq<nat>)
    requires ks != []
    ensures Erase(m, ks[..|ks| - 1]) - {ks[|ks| - 1]} == Erase(m, ks)
  {
    assert ks == ks[..|ks| - 1] + [ks[|ks| - 1]];
  }

  // What Delete leaves of any ring in order, and when it panics.
  lemma DeleteLeaves(hash: Hash, r: Ring, node: string)
    requires RingOk(r) && node in r.nodeNum
    ensures
      var m, ks, out := multiset(r.keys), VirtualKeys(hash, node, r.nodeNum[node]), DeleteNode(hash, r, node);
      && (out.Some? <==> Clear(m, ks))
      && (out.Some? ==>
            && Sorted(out.value.keys) && (forall k :: multiset(out.value.keys)[k] == Left(m, ks, k))
            && out.value.size == r.size - |ks| && out.value.nodeNum == r.nodeNum - {node}
            && out.value.owner == Erase(r.owner, ks))
  {
    hide Sorted, DeleteKeys, Clear, Left, Erase;
    DeletePasses(r, VirtualKeys(hash, node, r.nodeNum[node]));
  }

  // Where the node's keys are on the ring once each, it takes off just those.
  lemma DeleteKeeps(hash: Hash, r: Ring, node: string)
    requires RingOk(r) && node in r.nodeNum && OnceOn(VirtualKeys(hash, node, r.nodeNum[node]), r.keys)
    ensures
      var out, ks := DeleteNode(hash, r, node), VirtualKeys(hash, node, r.nodeNum[node]);
      && out.Some? && RingOk(out.value)
      && multiset(out.value.keys) == multiset(r.keys) - multiset(ks)
      && out.value.owner == Erase(r.owner, ks) && out.value.nodeNum == r.nodeNum - {node}
      && forall k :: k in out.value.keys <==> k in r.keys && k !in ks
  {
    hide Sorted, DeleteNode, VirtualKeys, Left, Clear;
    var m, ks := multiset(r.keys), VirtualKeys(hash, node, r.nodeNum[node]);
    OnceClear(m, ks);
    DeleteLeaves(hash, r, node);
    var t := DeleteNode(hash, r, node).value.keys;
    assert multiset(t) == m - multiset(ks);
    assert multiset(ks) <= m;
    assert |multiset(t)| == |m| - |multiset(ks)|;
    assert forall k :: k in t <==> k in multiset(t);
    assert forall k :: k in r.keys <==> k in m;
  }

  lemma OnceClear(m: multiset<nat>, ks: seq<nat>)
    requires NoRepeat(ks) && forall k :: k in ks ==> m[k] == 1
    ensures Clear(m, ks) && forall k :: Left(m, ks, k) == (m - multiset(ks))[k]
    ensures forall k :: multiset(ks)[k] == if k in ks then 1 else 0
  {
    OnceCount(ks);
    forall k
      ensures Left(m, ks, k) == (m - multiset(ks))[k]
    {
      assert Halved(1, 1) == 0;
    }
  }

  lemma {:induction false} OnceCount(ks: seq<nat>)
    requires NoRepeat(ks)
    ensures forall k :: multiset(ks)[k] == if k in ks then 1 else 0
  {
    if ks != [] {
      assert ks == ks[..|ks| - 1] + [ks[|ks| - 1]];
      OnceCount(ks[..|ks| - 1]);
    }
  }

  // Main result: deleting a node that owns its keys moves only the lookups it
  // served, however often its keys are on the ring; and so for Get, if the size
  // is the ring's length again.
  lemma DeleteMovesOnlyItsOwn(hash: Hash, r: Ring, node: string, h: nat)
    requires RingOk(r) && node in r.nodeNum
    requires forall k :: k in VirtualKeys(hash, node, r.nodeNum[node]) && k in r.keys ==> r.owner[k] == node
    ensures
      var out := DeleteNode(hash, r, node);
      out.Some? && r.keys != [] && out.value.keys != [] ==>
        && (Lookup(r, h) == node || Lookup(out.value, h) == Lookup(r, h))
        && (out.value.size == |out.value.keys| ==>
              GetNode(r, h) == Some(node) || GetNode(out.value, h) == GetNode(r, h))
  {
    hide Sorted, VirtualKeys, DeleteNode, First, HitKey, IsHit, Left, Clear, GetNode;
    DeleteLeaves(hash, r, node);
    var out, ks := DeleteNode(hash, r, node), VirtualKeys(hash, node, r.nodeNum[node]);
    if out.Some? && r.keys != [] && out.value.keys != [] {
      var t := out.value.keys;
      StillThere(r.keys, ks, t);
      var x := HitKey(r.keys, h);
      HitKeyIsHit(r.keys, h);
      HitIn(r.keys, h, x);
      if x !in ks {
        HitInPart(r.keys, t, h, x);
        HitKeyIsHit(t, h);
        HitUnique(t, h, x, HitKey(t, h));
      }
      GetFinds(r, h);
      if out.value.size == |t| {
        GetFinds(out.value, h);
      }
    }
  }

  lemma StillThere(s: seq<nat>, ks: seq<nat>, t: seq<nat>)
    requires forall k :: multiset(t)[k] == Left(multiset(s), ks, k)
    ensures forall k :: k in t ==> k in s
    ensures forall k :: k in s && k !in ks ==> k in t
  {
    forall k
      ensures k in t ==> k in s
      ensures k in s && k !in ks ==> k in t
    {
      assert k in t <==> multiset(t)[k] > 0;
      assert k in s <==> multiset(s)[k] > 0;
      assert k in ks <==> multiset(ks)[k] > 0;
    }
  }

  // Deleting a node just added restores the whole state, when its virtual keys
  // are distinct and new to the ring.
  lemma DeleteUndoesAdd(hash: Hash, r: Ring, node: string, n: int)
    requires RingOk(r) && node !in r.nodeNum
    requires NoRepeat(VirtualKeys(hash, node, n)) && forall k :: k in VirtualKeys(hash, node, n) ==> k !in r.keys
    ensures DeleteNode(hash, AddNode(hash, r, node, n), node) == Some(r)
  {
    hide VirtualKeys, DeleteNode, AddNode, RingOk, Clear;
    var ks := VirtualKeys(hash, node, n);
    NewOnes(r.keys, ks);
    OnceClear(multiset(r.keys + ks), ks);
    DeleteUndoesAddExactly(hash, r, node, n);
  }

  lemma NewOnes(s: seq<nat>, ks: seq<nat>)
    requires NoRepeat(ks) && forall k :: k in ks ==> k !in s
    ensures forall k :: k in ks ==> multiset(s + ks)[k] == 1
  {
    OnceCount(ks);
    forall k | k in ks
      ensures multiset(s + ks)[k] == 1
    {
      assert multiset(s)[k] == 0;
    }
  }

  lemma EraseUndoes(r: Ring, ks: seq<nat>, node: string)
    requires RingOk(r) && forall k :: k in ks ==> k !in r.keys
    ensures Erase(PutAll(r.owner, ks, node), ks) == r.owner
  {
    hide Sorted, PutAll;
    PutAllAt(r.owner, ks, node);
  }

  lemma OkSorted(r: Ring)
    requires RingOk(r)
    ensures Sorted(r.keys) && r.size == |r.keys|
  {
  }

  // A collision with a key already on the ring is not undone: the map entry
  // it overwrote is gone.
  lemma CollisionNotUndone(hash: Hash, r: Ring, node: string, n: int, k: nat)
    requires RingOk(r) && k in VirtualKeys(hash, node, n) && k in r.keys
    ensures node in AddNode(hash, r, node, n).nodeNum
    ensures DeleteNode(hash, AddNode(hash, r, node, n), node) != Some(r)
  {
    hide Sort, Sorted, VirtualKeys, RangeDelete;
    var r1, ks := AddNode(hash, r, node, n), VirtualKeys(hash, node, n);
    Forgotten(r1, ks, k);
  }

  // ------------------------------------------------- where Delete goes wrong

  // A node added twice: its one key is on the ring twice, and greatest.  No two
  // names need to collide for Delete to panic.
  lemma AddedTwicePanics(hash: Hash, x: string)
    ensures
      var r := AddNode(hash, AddNode(hash, EMPTY_RING, x, 1), x, 1);
      x in r.nodeNum && DeleteNode(hash, r, x) == None
  {
    hide Sort, PutAll, DeleteNode;
    var r0 := AddNode(hash, EMPTY_RING, x, 1);
    var r, k := AddNode(hash, r0, x, 1), hash(x + "_" + Itoa(0));
    OneKey(hash, x);
    EmptyOk();
    AddKeeps(hash, EMPTY_RING, x, 1);
    AddKeeps(hash, r0, x, 1);
    DeleteLeaves(hash, r, x);
    assert [k][..0] == [] && multiset(r.keys) == multiset{k, k};
    assert Stops(multiset(r.keys), [k][..0], [k][0]);
  }

  lemma OneKey(hash: Hash, x: string)
    ensures VirtualKeys(hash, x, 1) == [hash(x + "_" + Itoa(0))]
  {
    assert VirtualKeys(hash, x, 0) == [];
  }

  // p passes take at least p of the copies there are, and exactly p when those
  // were all, or when it was one of two.
  predicate Even(c: nat, p: nat) {
    p == 0 || c == p || (p == 1 && c == 2)
  }

  lemma {:induction false} HalvedAtMost(c: nat, p: nat)
    requires c >= p
    ensures Halved(c, p) <= c - p && (Halved(c, p) == c - p <==> Even(c, p))
    decreases p, 1
  {
    if p == 1 {
      assert Halved(c, 1) == Halved(c, 0) / 2;
    } else if p >= 2 {
      HalvedAtMost(c, p - 1);
      HalvedLess(c, p);
    }
  }

  lemma {:induction false} HalvedLess(c: nat, p: nat)
    requires c >= p >= 2
    ensures Halved(c, p) <= (c - p + 1) / 2 && (c == p ==> Halved(c, p) == 0)
    decreases p, 0
  {
    if c == p {
      HalvedAway(c, p);
    } else {
      HalvedAtMost(c, p - 1);
    }
  }

  // The size kept beside the ring after Delete is its length or more, and its
  // length if and only if the node's keys come out even.
  lemma SizeAfterDelete(hash: Hash, r: Ring, node: string)
    requires RingOk(r) && node in r.nodeNum
    requires multiset(VirtualKeys(hash, node, r.nodeNum[node])) <= multiset(r.keys)
    ensures
      var m, ks, out := multiset(r.keys), VirtualKeys(hash, node, r.nodeNum[node]), DeleteNode(hash, r, node);
      out.Some? ==>
        && out.value.size >= |out.value.keys|
        && (out.value.size == |out.value.keys| <==> forall k <- ks :: Even(m[k], multiset(ks)[k]))
  {
    hide VirtualKeys, DeleteNode, Clear, Sorted, Even, Halved;
    var m, ks, out := multiset(r.keys), VirtualKeys(hash, node, r.nodeNum[node]), DeleteNode(hash, r, node);
    DeleteLeaves(hash, r, node);
    if out.Some? {
      var t, rest := multiset(out.value.keys), m - multiset(ks);
      forall k
        ensures t[k] <= rest[k] && (t[k] == rest[k] <==> Even(m[k], multiset(ks)[k]))
      {
        HalvedAtMost(m[k], multiset(ks)[k]);
      }
      assert |rest| == |m| - |multiset(ks)|;
      SameSize(t, rest);
      EvenOutside(m, ks);
    }
  }

  lemma EvenOutside(m: multiset<nat>, ks: seq<nat>)
    ensures forall k :: k !in ks ==> Even(m[k], multiset(ks)[k])
  {
  }

  lemma SameSize(t: multiset<nat>, rest: multiset<nat>)
    requires t <= rest
    ensures |t| <= |rest| && (|t| == |rest| <==> t == rest)
  {
    assert rest == t + (rest - t);
  }

  // After any Adds, colliding or not, each node's keys are on the ring.
  lemma {:induction false} BuildHolds(hash: Hash, adds: seq<Node>, name: string)
    requires name in Build(hash, adds).nodeNum
    ensures
      var r := Build(hash, adds);
      multiset(VirtualKeys(hash, name, r.nodeNum[name])) <= multiset(r.keys)
  {
    hide Sort, PutAll, VirtualKeys;
    var front, x := adds[..|adds| - 1], adds[|adds| - 1];
    BuildOk(hash, front);
    AddKeeps(hash, Build(hash, front), x.name, x.count);
    if x.name != name {
      BuildHolds(hash, front, name);
    }
  }

  // Where the size is too large, Get indexes past the ring for every hash that
  // is greater than its keys.
  lemma OversizedGetPanics(r: Ring, h: nat)
    requires r.size > |r.keys| && forall k :: k in r.keys ==> k < h
    ensures GetNode(r, h) == None
  {
    SearchPasses(r.keys, 0, r.size, h);
  }

  lemma {:induction false} SearchPasses(s: seq<nat>, i: nat, j: int, h: nat)
    requires i <= |s| < j && forall k :: k in s ==> k < h
    ensures Search(s, i, j, h) == None
    decreases j - i
  {
    var mid := (i + j) / 2;
    if mid < |s| {
      assert s[mid] in s;
      SearchPasses(s, mid + 1, j, h);
    }
  }

  function ThriceAndOnce(hash: Hash, x: string, y: string): Ring {
    AddNode(hash, AddNode(hash, AddNode(hash, AddNode(hash, EMPTY_RING, x, 1), x, 1), x, 1), y, 1)
  }

  // A key of the node that is left over serves nobody: what falls to it gets the
  // empty name.
  lemma LeftoverServesNobody(hash: Hash, r: Ring, node: string, h: nat)
    requires RingOk(r) && node in r.nodeNum
    ensures
      var out := DeleteNode(hash, r, node);
      out.Some? && out.value.keys != [] && HitKey(out.value.keys, h) in VirtualKeys(hash, node, r.nodeNum[node])
      ==>
        && Lookup(out.value, h) == ""
        && (out.value.size == |out.value.keys| ==> GetNode(out.value, h) == Some(""))
  {
    hide VirtualKeys, DeleteNode, HitKey, Left, Clear, Sorted, GetNode;
    DeleteLeaves(hash, r, node);
    var out := DeleteNode(hash, r, node);
    if out.Some? && out.value.keys != [] && out.value.size == |out.value.keys| {
      GetFinds(out.value, h);
    }
  }

  // One such ring: a node added three times, and another with a greater key.
  // Deleting the first leaves two keys, and a size of 3.
  lemma AddedThriceMisses(hash: Hash, x: string, y: string, h: nat)
    requires hash(x + "_" + Itoa(0)) < hash(y + "_" + Itoa(0)) < h
    ensures
      var r := ThriceAndOnce(hash, x, y);
      x in r.nodeNum &&
      var out := DeleteNode(hash, r, x);
      out.Some? && |out.value.keys| == 2 && out.value.size == 3 && GetNode(out.value, h) == None
  {
    hide Sort, PutAll, DeleteNode, VirtualKeys, GetNode, Sorted;
    var j, k := hash(x + "_" + Itoa(0)), hash(y + "_" + Itoa(0));
    FourAdded(hash, x, y);
    var r := ThriceAndOnce(hash, x, y);
    DeleteLeaves(hash, r, x);
    var m := multiset{j, j, j, k};
    assert !Stops(m, [j][..0], [j][0]) by {
      assert k in m && Left(m, [j][..0], k) == 1;
    }
    var t := DeleteNode(hash, r, x).value;
    forall i
      ensures multiset(t.keys)[i] == multiset{j, k}[i]
    {
      assert Left(m, [j], j) == 1 by { assert Halved(3, 1) == Halved(3, 0) / 2; }
      assert multiset(t.keys)[i] == Left(m, [j], i);
    }
    assert multiset(t.keys) == multiset{j, k};
    assert |t.keys| == |multiset(t.keys)|;
    SameKeys(t.keys, [j, k]);
    OversizedGetPanics(t, h);
  }

  lemma FourAdded(hash: Hash, x: string, y: string)
    requires x != y
    ensures
      var r := ThriceAndOnce(hash, x, y);
      var j, k := hash(x + "_" + Itoa(0)), hash(y + "_" + Itoa(0));
      && RingOk(r) && x in r.nodeNum && r.nodeNum[x] == 1 && VirtualKeys(hash, x, 1) == [j]
      && multiset(r.keys) == multiset{j, j, j, k} && r.size == 4
  {
    hide Sort, PutAll, VirtualKeys, RingOk;
    var r1 := AddNode(hash, EMPTY_RING, x, 1);
    var r2 := AddNode(hash, r1, x, 1);
    OneKey(hash, x);
    OneKey(hash, y);
    EmptyOk();
    AddKeeps(hash, EMPTY_RING, x, 1);
    AddKeeps(hash, r1, x, 1);
    AddKeeps(hash, r2, x, 1);
    AddKeeps(hash, AddNode(hash, r2, x, 1), y, 1);
  }

  // Main result.  Deleting a node just added restores the whole state if and
  // only if the node is new, its keys are new to the ring, and no key that it
  // has twice is the greatest left when its turn comes.
  lemma DeleteUndoesAddExactly(hash: Hash, r: Ring, node: string, n: int)
    requires RingOk(r)
    ensures node in AddNode(hash, r, node, n).nodeNum
    ensures
      var ks := VirtualKeys(hash, node, n);
      DeleteNode(hash, AddNode(hash, r, node, n), node) == Some(r)
      <==>
      node !in r.nodeNum && (forall k :: k in ks ==> k !in r.keys) && Clear(multiset(r.keys + ks), ks)
  {
    hide Sort, PutAll, DeleteNode, VirtualKeys, RingOk, Clear, Left, Erase;
    var r1, ks := AddNode(hash, r, node, n), VirtualKeys(hash, node, n);
    AddKeeps(hash, r, node, n);
    DeleteLeaves(hash, r1, node);
    assert multiset(r1.keys) == multiset(r.keys + ks);
    if k :| k in ks && k in r.keys {
      CollisionNotUndone(hash, r, node, n, k);
    } else if Clear(multiset(r.keys + ks), ks) {
      var r2 := DeleteNode(hash, r1, node).value;
      AllGone(r.keys, ks, r2.keys);
      OkSorted(r);
      SortedUnique(r2.keys, r.keys);
      EraseUndoes(r, ks, node);
      assert node !in r.nodeNum ==> r2.nodeNum == r.nodeNum;
    }
  }

  // As many passes as copies leave none.
  lemma AllGone(s: seq<nat>, ks: seq<nat>, t: seq<nat>)
    requires (forall k :: k in ks ==> k !in s) && forall k :: multiset(t)[k] == Left(multiset(s + ks), ks, k)
    ensures multiset(t) == multiset(s)
  {
    forall k
      ensures multiset(t)[k] == multiset(s)[k]
    {
      if k in ks {
        assert multiset(s)[k] == 0;
        HalvedAway(multiset(ks)[k], multiset(ks)[k]);
      } else {
        assert multiset(ks)[k] == 0;
      }
    }
  }

  lemma {:induction false} Forgotten(r: Ring, ks: seq<nat>, k: nat)
    requires k in ks
    ensures var out := DeleteKeys(r, ks); out.Some? ==> k !in out.value.owner
  {
    var front := ks[..|ks| - 1];
    assert ks == front + [ks[|ks| - 1]];
    if k in front {
      Forgotten(r, front, k);
    }
  }

  // ------------------------------------------------------ order independence

  datatype Node = Node(name: string, count: int)

  function Build(hash: Hash, adds: seq<Node>): Ring {
    if adds == [] then EMPTY_RING
    else AddNode(hash, Build(hash, adds[..|adds| - 1]), adds[|adds| - 1].name, adds[|adds| - 1].count)
  }

  function KeysOf(hash: Hash, x: Node): seq<nat> {
    VirtualKeys(hash, x.name, x.count)
  }

  function AllKeys(hash: Hash, adds: seq<Node>): seq<nat> {
    if adds == [] then [] else AllKeys(hash, adds[..|adds| - 1]) + KeysOf(hash, adds[|adds| - 1])
  }

  // After any Adds, colliding or not, the ring is in order.
  lemma {:induction false} BuildOk(hash: Hash, adds: seq<Node>)
    ensures RingOk(Build(hash, adds))
    ensures multiset(Build(hash, adds).keys) == multiset(AllKeys(hash, adds))
  {
    hide AddNode, RingOk, KeysOf;
    if adds == [] {
      EmptyOk();
    } else {
      var front, x := adds[..|adds| - 1], adds[|adds| - 1];
      BuildOk(hash, front);
      AddKeeps(hash, Build(hash, front), x.name, x.count);
      KeysOfIs(hash, x);
    }
  }

  lemma KeysOfIs(hash: Hash, x: Node)
    ensures KeysOf(hash, x) == VirtualKeys(hash, x.name, x.count)
  {
  }

  lemma EmptyOk()
    ensures RingOk(EMPTY_RING)
  {
  }

  // Different nodes, and no two virtual keys alike.
  ghost predicate AllDistinct(hash: Hash, adds: seq<Node>) {
    && (forall i, j :: 0 <= i < j < |adds| ==> adds[i].name != adds[j].name)
    && forall k :: multiset(AllKeys(hash, adds))[k] <= 1
  }

  lemma FrontDistinct(hash: Hash, adds: seq<Node>)
    requires AllDistinct(hash, adds) && adds != []
    ensures AllDistinct(hash, adds[..|adds| - 1])
    ensures
      var front, last := AllKeys(hash, adds[..|adds| - 1]), KeysOf(hash, adds[|adds| - 1]);
      forall k :: k in last ==> k !in front
  {
    hide KeysOf;
    var front, ks := AllKeys(hash, adds[..|adds| - 1]), KeysOf(hash, adds[|adds| - 1]);
    assert AllKeys(hash, adds) == front + ks;
    assert multiset(front + ks) == multiset(front) + multiset(ks);
    forall k
      ensures multiset(front)[k] <= 1 && (k in ks ==> k !in front)
    {
      assert multiset(front + ks)[k] <= 1;
    }
  }

  // Every key belongs to the node it was made for, every count is kept.
  lemma {:induction false} BuildOwner(hash: Hash, adds: seq<Node>, i: nat)
    requires AllDistinct(hash, adds) && i < |adds|
    ensures
      var r := Build(hash, adds);
      && (forall k :: k in KeysOf(hash, adds[i]) ==> k in r.owner && r.owner[k] == adds[i].name)
      && adds[i].name in r.nodeNum && r.nodeNum[adds[i].name] == adds[i].count
  {
    hide VirtualKeys, Sort, AllDistinct;
    var front, x := adds[..|adds| - 1], adds[|adds| - 1];
    PutAllAt(Build(hash, front).owner, KeysOf(hash, x), x.name);
    if i < |front| {
      NamesDiffer(hash, adds, i);
      FrontDistinct(hash, adds);
      BuildOwner(hash, front, i);
      forall k | k in KeysOf(hash, adds[i])
        ensures k !in KeysOf(hash, x)
      {
        KeyOfOne(hash, front, i, k);
      }
    }
  }

  lemma NamesDiffer(hash: Hash, adds: seq<Node>, i: nat)
    requires AllDistinct(hash, adds) && i < |adds| - 1
    ensures adds[i].name != adds[|adds| - 1].name
  {
  }

  lemma {:induction false} KeyOfOne(hash: Hash, adds: seq<Node>, i: nat, k: nat)
    requires i < |adds| && k in KeysOf(hash, adds[i])
    ensures k in AllKeys(hash, adds)
  {
    hide KeysOf;
    if i < |adds| - 1 {
      KeyOfOne(hash, adds[..|adds| - 1], i, k);
    }
  }

  lemma {:induction false} KeyFrom(hash: Hash, adds: seq<Node>, k: nat) returns (i: nat)
    requires k in AllKeys(hash, adds)
    ensures i < |adds| && k in KeysOf(hash, adds[i])
  {
    hide KeysOf;
    if k in KeysOf(hash, adds[|adds| - 1]) {
      i := |adds| - 1;
    } else {
      i := KeyFrom(hash, adds[..|adds| - 1], k);
    }
  }

  lemma {:induction false} AllKeysWithout(hash: Hash, adds: seq<Node>, i: nat)
    requires i < |adds|
    ensures
      multiset(AllKeys(hash, adds)) ==
      multiset(AllKeys(hash, adds[..i] + adds[i + 1..])) + multiset(KeysOf(hash, adds[i]))
  {
    hide KeysOf, AllKeys;
    var n := |adds| - 1;
    AllKeysLast(hash, adds);
    if i == n {
      assert adds[..i] + adds[i + 1..] == adds[..n];
    } else {
      AllKeysWithout(hash, adds[..n], i);
      var rest := adds[..i] + adds[i + 1..];
      assert rest[..|rest| - 1] == adds[..n][..i] + adds[..n][i + 1..];
      AllKeysLast(hash, rest);
    }
  }

  lemma AllKeysLast(hash: Hash, adds: seq<Node>)
    requires adds != []
    ensures
      var n := |adds| - 1;
      multiset(AllKeys(hash, adds)) == multiset(AllKeys(hash, adds[..n])) + multiset(KeysOf(hash, adds[n]))
  {
    hide KeysOf;
  }

  lemma {:induction false} AllKeysPermuted(hash: Hash, a: seq<Node>, b: seq<Node>)
    requires multiset(a) == multiset(b)
    ensures multiset(AllKeys(hash, a)) == multiset(AllKeys(hash, b))
    decreases |a|
  {
    hide KeysOf, AllKeys;
    assert |a| == |multiset(a)| == |multiset(b)| == |b|;
    if a != [] {
      var n := |a| - 1;
      var i := IndexOf(a, b, n);
      TakeOut(a, n);
      TakeOut(b, i);
      assert a[..n] + a[n + 1..] == a[..n];
      AllKeysPermuted(hash, a[..n], b[..i] + b[i + 1..]);
      AllKeysWithout(hash, a, n);
      AllKeysWithout(hash, b, i);
    }
  }

  lemma TakeOut(s: seq<Node>, i: nat)
    requires i < |s|
    ensures multiset(s[..i] + s[i + 1..]) == multiset(s) - multiset{s[i]}
  {
    assert s == s[..i] + [s[i]] + s[i + 1..];
  }

  lemma {:induction false} BuildNames(hash: Hash, adds: seq<Node>, name: string)
    ensures name in Build(hash, adds).nodeNum <==> exists i :: 0 <= i < |adds| && adds[i].name == name
  {
    hide Sort, PutAll, VirtualKeys;
    if adds != [] {
      var front := adds[..|adds| - 1];
      BuildNames(hash, front, name);
      if name in Build(hash, front).nodeNum {
        var i :| 0 <= i < |front| && front[i].name == name;
        assert adds[i].name == name;
      }
    }
  }

  // Main result: with distinct virtual keys the order of the Adds does not
  // matter, to the ring or to any lookup.
  lemma AnyOrder(hash: Hash, a: seq<Node>, b: seq<Node>)
    requires multiset(a) == multiset(b) && AllDistinct(hash, a) && AllDistinct(hash, b)
    ensures Build(hash, a) == Build(hash, b)
  {
    hide Build, AllKeys, KeysOf, AllDistinct, Sorted;
    var r, t := Build(hash, a), Build(hash, b);
    BuildOk(hash, a);
    BuildOk(hash, b);
    AllKeysPermuted(hash, a, b);
    SortedUnique(r.keys, t.keys);
    SameOwners(hash, a, b);
    SameOwners(hash, b, a);
    assert r.owner == t.owner;
    assert r.nodeNum == t.nodeNum;
  }

  lemma SameOwners(hash: Hash, a: seq<Node>, b: seq<Node>)
    requires multiset(a) == multiset(b) && AllDistinct(hash, a) && AllDistinct(hash, b)
    ensures
      var r, t := Build(hash, a), Build(hash, b);
      && (forall k :: k in r.owner ==> k in t.owner && t.owner[k] == r.owner[k])
      && (forall x :: x in r.nodeNum ==> x in t.nodeNum && t.nodeNum[x] == r.nodeNum[x])
  {
    hide Build, AllKeys, KeysOf, AllDistinct, Sorted;
    var r, t := Build(hash, a), Build(hash, b);
    BuildOk(hash, a);
    forall k | k in r.owner
      ensures k in t.owner && t.owner[k] == r.owner[k]
    {
      SameKeys(r.keys, AllKeys(hash, a));
      var i := KeyFrom(hash, a, k);
      var j := IndexOf(a, b, i);
      BuildOwner(hash, a, i);
      BuildOwner(hash, b, j);
    }
    forall x | x in r.nodeNum
      ensures x in t.nodeNum && t.nodeNum[x] == r.nodeNum[x]
    {
      BuildNames(hash, a, x);
      var i :| 0 <= i < |a| && a[i].name == x;
      var j := IndexOf(a, b, i);
      BuildOwner(hash, a, i);
      BuildOwner(hash, b, j);
    }
  }

  lemma IndexOf(a: seq<Node>, b: seq<Node>, i: nat) returns (j: nat)
    requires multiset(a) == multiset(b) && i < |a|
    ensures j < |b| && b[j] == a[i]
  {
    assert a[i] in multiset(b);
    j :| j < |b| && b[j] == a[i];
  }

  // ------------------------------------------------- runs of Adds and Deletes

  function Cut(s: seq<Node>, i: nat): seq<Node>
    requires i < |s|
  {
    s[..i] + s[i + 1..]
  }

  // Deleting any node of a ring leaves the ring it would never have been on.
  lemma DeleteIsNeverAdded(hash: Hash, adds: seq<Node>, i: nat)
    requires AllDistinct(hash, adds) && i < |adds|
    ensures adds[i].name in Build(hash, adds).nodeNum
    ensures DeleteNode(hash, Build(hash, adds), adds[i].name) == Some(Build(hash, Cut(adds, i)))
  {
    hide Build, AllDistinct, AddNode, DeleteNode, KeysOf, AllKeys, RingOk, NoRepeat;
    var x, rest := adds[i], Cut(adds, i);
    LastInstead(hash, adds, i);
    AnyOrder(hash, adds, rest + [x]);
    BuildSnoc(hash, rest, x);
    BuildOk(hash, rest);
    LastIsNew(hash, rest, x);
    DeleteUndoesAdd(hash, Build(hash, rest), x.name, x.count);
  }

  lemma BuildSnoc(hash: Hash, adds: seq<Node>, x: Node)
    ensures Build(hash, adds + [x]) == AddNode(hash, Build(hash, adds), x.name, x.count)
    ensures x.name in Build(hash, adds + [x]).nodeNum
  {
    hide VirtualKeys, Sort, PutAll;
    assert (adds + [x])[..|adds|] == adds;
  }

  // The same nodes with node i moved to the end.
  lemma LastInstead(hash: Hash, adds: seq<Node>, i: nat)
    requires AllDistinct(hash, adds) && i < |adds|
    ensures multiset(Cut(adds, i) + [adds[i]]) == multiset(adds) && AllDistinct(hash, Cut(adds, i) + [adds[i]])
  {
    hide AllKeys, Cut;
    MovedSame(adds, i);
    MovedNames(adds, i);
    AllKeysPermuted(hash, adds, Cut(adds, i) + [adds[i]]);
  }

  lemma MovedSame(adds: seq<Node>, i: nat)
    requires i < |adds|
    ensures multiset(Cut(adds, i) + [adds[i]]) == multiset(adds)
  {
    assert adds == adds[..i] + [adds[i]] + adds[i + 1..];
  }

  lemma MovedNames(adds: seq<Node>, i: nat)
    requires i < |adds| && forall j, k :: 0 <= j < k < |adds| ==> adds[j].name != adds[k].name
    ensures
      var t := Cut(adds, i) + [adds[i]];
      forall j, k :: 0 <= j < k < |t| ==> t[j].name != t[k].name
  {
    var t := Cut(adds, i) + [adds[i]];
    forall j, k | 0 <= j < k < |t|
      ensures t[j].name != t[k].name
    {
      assert t[j] == adds[if j < i then j else j + 1];
      assert t[k] == adds[if k < i then k else if k == |t| - 1 then i else k + 1];
    }
  }

  lemma LastIsNew(hash: Hash, rest: seq<Node>, x: Node)
    requires AllDistinct(hash, rest + [x])
    ensures
      var r, ks := Build(hash, rest), VirtualKeys(hash, x.name, x.count);
      && AllDistinct(hash, rest) && x.name !in r.nodeNum
      && NoRepeat(ks) && forall k :: k in ks ==> k !in r.keys
  {
    hide Build, VirtualKeys, AllKeys;
    assert (rest + [x])[..|rest|] == rest;
    FrontDistinct(hash, rest + [x]);
    BuildNames(hash, rest, x.name);
    forall j | 0 <= j < |rest|
      ensures rest[j].name != x.name
    {
      assert (rest + [x])[j] == rest[j];
    }
    BuildOk(hash, rest);
    SameKeys(Build(hash, rest).keys, AllKeys(hash, rest));
    OwnDistinct(hash, rest, x);
  }

  lemma OwnDistinct(hash: Hash, rest: seq<Node>, x: Node)
    requires AllDistinct(hash, rest + [x])
    ensures NoRepeat(VirtualKeys(hash, x.name, x.count))
  {
    hide VirtualKeys;
    var ks := VirtualKeys(hash, x.name, x.count);
    assert (rest + [x])[..|rest|] == rest;
    assert AllKeys(hash, rest + [x]) == AllKeys(hash, rest) + ks;
    assert multiset(AllKeys(hash, rest) + ks) == multiset(AllKeys(hash, rest)) + multiset(ks);
    forall i, j | 0 <= i < j < |ks|
      ensures ks[i] != ks[j]
    {
      TwoPlaces(ks, i, j);
      assert multiset(AllKeys(hash, rest + [x]))[ks[j]] <= 1;
    }
  }

  lemma TwoPlaces(s: seq<nat>, i: nat, j: nat)
    requires i < j < |s|
    ensures multiset(s)[s[j]] >= if s[i] == s[j] then 2 else 1
  {
    assert s == s[..j] + [s[j]] + s[j + 1..] && s[i] in s[..j];
  }

  datatype Change = AddOne(node: Node) | DeleteOne(name: string)

  function Without(s: seq<Node>, name: string): seq<Node> {
    if s == [] then []
    else if s[|s| - 1].name == name then s[..|s| - 1]
    else Without(s[..|s| - 1], name) + [s[|s| - 1]]
  }

  // The nodes that are added and not deleted.
  function Live(cs: seq<Change>): seq<Node> {
    if cs == [] then []
    else
      match cs[|cs| - 1]
      case AddOne(x) => Live(cs[..|cs| - 1]) + [x]
      case DeleteOne(name) => Without(Live(cs[..|cs| - 1]), name)
  }

  // The ring after all of cs, None after a panic; deleting an unknown node is
  // an error that changes nothing.
  function After(hash: Hash, cs: seq<Change>): Option<Ring> {
    if cs == [] then Some(EMPTY_RING)
    else
      match After(hash, cs[..|cs| - 1])
      case None => None
      case Some(r) =>
        match cs[|cs| - 1]
        case AddOne(x) => Some(AddNode(hash, r, x.name, x.count))
        case DeleteOne(name) => if name in r.nodeNum then DeleteNode(hash, r, name) else Some(r)
  }

  // Main result.  As long as the live nodes are distinct and so are their
  // virtual keys, the ring after any run of Adds and Deletes is the one of the
  // live nodes alone, and nothing panics.
  lemma {:induction false} RunIsLive(hash: Hash, cs: seq<Change>)
    requires forall j :: 0 <= j <= |cs| ==> AllDistinct(hash, Live(cs[..j]))
    ensures After(hash, cs) == Some(Build(hash, Live(cs)))
    decreases |cs|
  {
    hide AllDistinct, AddNode, DeleteNode;
    if cs != [] {
      var front := cs[..|cs| - 1];
      forall j | 0 <= j <= |front|
        ensures AllDistinct(hash, Live(front[..j]))
      {
        assert front[..j] == cs[..j];
      }
      RunIsLive(hash, front);
      match cs[|cs| - 1] {
        case AddOne(x) => BuildSnoc(hash, Live(front), x);
        case DeleteOne(name) =>
          assert front[..|front|] == front;
          BuildNames(hash, Live(front), name);
          WithoutIs(hash, Live(front), name);
      }
    }
  }

  lemma WithoutIs(hash: Hash, s: seq<Node>, name: string)
    requires AllDistinct(hash, s)
    ensures
      var r := Build(hash, s);
      if name in r.nodeNum then DeleteNode(hash, r, name) == Some(Build(hash, Without(s, name)))
      else Without(s, name) == s
  {
    hide Build, AddNode, DeleteNode;
    BuildNames(hash, s, name);
    if name in Build(hash, s).nodeNum {
      var i :| 0 <= i < |s| && s[i].name == name;
      WithoutAt(s, i);
      DeleteIsNeverAdded(hash, s, i);
    } else {
      WithoutNone(s, name);
    }
  }

  lemma {:induction false} WithoutNone(s: seq<Node>, name: string)
    requires forall i :: 0 <= i < |s| ==> s[i].name != name
    ensures Without(s, name) == s
  {
    if s != [] {
      WithoutNone(s[..|s| - 1], name);
      assert s == s[..|s| - 1] + [s[|s| - 1]];
    }
  }

  lemma {:induction false} WithoutAt(s: seq<Node>, i: nat)
    requires i < |s| && forall j, k :: 0 <= j < k < |s| ==> s[j].name != s[k].name
    ensures Without(s, s[i].name) == Cut(s, i)
  {
    var n := |s| - 1;
    if i < n {
      WithoutAt(s[..n], i);
      assert Cut(s[..n], i) + [s[n]] == Cut(s, i);
    }
  }
}
