// The load balancer object of internal/balance/consitenthash: a slice that
// grows, is sorted and shifted in place, and two maps, proved against HashRing.
module ConsistentHash {
  import opened Options
  import opened HashRing

  datatype Outcome = Ok | Failed | Panic

  class ConsistentHashLoadBalance {
    const hashFunc: Hash
    var cells: array<nat>  // the backing array of hashRing
    var ringLen: nat       // hashRing is cells[..ringLen]
    var hashRingSize: int
    var nodeMapNum: map<string, int>
    var vNodeMapNode: map<nat, string>

    ghost predicate Valid()
      reads this, cells
    {
      ringLen <= cells.Length
    }

    ghost function State(): Ring
      requires Valid()
      reads this, cells
    {
      Ring(cells[..ringLen], hashRingSize, nodeMapNum, vNodeMapNode)
    }

    constructor (hash: Hash)
      ensures Valid() && State() == EMPTY_RING && hashFunc == hash && fresh(cells)
    {
      hashFunc, ringLen, hashRingSize, nodeMapNum, vNodeMapNode := hash, 0, 0, map[], map[];
      cells := new nat[0];
      new;
      assert cells[..ringLen] == [];
    }

    // append, which moves to a larger array when the old one is full.
    method Append(key: nat)
      requires Valid()
      modifies this`cells, this`ringLen, cells
      ensures Valid() && cells[..ringLen] == old(cells[..ringLen]) + [key]
      ensures cells == old(cells) || fresh(cells)
    {
      if ringLen == cells.Length {
        var larger := new nat[2 * ringLen + 1];
        forall i | 0 <= i < ringLen {
          larger[i] := cells[i];
        }
        cells := larger;
      }
      cells[ringLen] := key;
      ringLen := ringLen + 1;
    }

    // sort.Slice on the ring.
    method SortRing()
      requires Valid()
      modifies cells
      ensures cells[..ringLen] == Sort(old(cells[..ringLen]))
    {
      hide Sort;
      var sorted := Sort(cells[..ringLen]);
      SortLength(cells[..ringLen]);
      forall i | 0 <= i < ringLen {
        cells[i] := sorted[i];
      }
    }

    // vnodeNum is what Atoi makes of the second parameter.
    method Add(params: seq<string>, vnodeNum: Option<int>) returns (out: Outcome)
      requires Valid()
      modifies this, cells
      ensures Valid() && (cells == old(cells) || fresh(cells))
      ensures |params| < 2 || vnodeNum.None? ==> out == Failed && State() == old(State())
      ensures |params| >= 2 && vnodeNum.Some? ==>
        out == Ok && State() == AddNode(hashFunc, old(State()), params[0], vnodeNum.value)
    {
      hide VirtualKeys, PutAll, Sort;
      if |params| < 2 || vnodeNum.None? {
        return Failed;
      }
      var node, n := params[0], vnodeNum.value;
      ghost var r := State();
      NoKeys(hashFunc, node, n);
      NothingPut(r.owner, node);
      nodeMapNum := nodeMapNum[node := n];
      var i := 0;
      while i < n
        invariant 0 <= i && (n >= 0 ==> i <= n) && (n < 0 ==> i == 0)
        invariant Valid() && (cells == old(cells) || fresh(cells))
        invariant nodeMapNum == r.nodeNum[node := n]
        invariant cells[..ringLen] == r.keys + VirtualKeys(hashFunc, node, i)
        invariant hashRingSize == r.size + i
        invariant vNodeMapNode == PutAll(r.owner, VirtualKeys(hashFunc, node, i), node)
      {
        var key := hashFunc(node + "_" + Itoa(i));
        OneKeyPut(hashFunc, r.owner, node, i);
        vNodeMapNode := vNodeMapNode[key := node];
        Append(key);
        hashRingSize := hashRingSize + 1;
        i := i + 1;
      }
      assert VirtualKeys(hashFunc, node, i) == VirtualKeys(hashFunc, node, n);
      SortRing();
      out := Ok;
    }

    // The inner loop of Delete.  It runs over the cells of the slice as it was on
    // entry, and each match moves the cells behind it.
    method RangeOverRing(key: nat) returns (panicked: bool)
      requires Valid()
      modifies this`ringLen, cells
      ensures Valid()
      ensures
        var want := RangeDelete(old(cells[..ringLen]), old(ringLen), 0, key);
        if panicked then want == None else want == Some(cells[..ringLen])
    {
      hide RangeDelete;
      ghost var want := RangeDelete(cells[..ringLen], ringLen, 0, key);
      var n := ringLen;
      var idx := 0;
      while idx < n
        invariant 0 <= idx <= n <= cells.Length && ringLen <= n
        invariant RangeDelete(cells[..n], ringLen, idx, key) == want
      {
        RangeTurn(cells[..n], ringLen, idx, key);
        if cells[idx] == key {
          if idx >= ringLen {
            return true;
          }
          CutOut(idx, n);
        }
        idx := idx + 1;
      }
      RangeTurn(cells[..n], ringLen, n, key);
      assert cells[..n][..ringLen] == cells[..ringLen];
      panicked := false;
    }

    // Takes out one cell of the ring; the first n cells are those being ranged over.
    method CutOut(idx: nat, ghost n: nat)
      requires idx < ringLen <= n <= cells.Length
      modifies this`ringLen, cells
      ensures ringLen == old(ringLen) - 1
      ensures
        var was := old(cells[..n]);
        cells[..n] == was[..idx] + was[idx + 1..old(ringLen)] + was[ringLen..]
    {
      forall i | idx <= i < ringLen - 1 {
        cells[i] := cells[i + 1];
      }
      ringLen := ringLen - 1;
    }

    method Delete(node: string) returns (out: Outcome)
      requires Valid()
      modifies this, cells
      ensures Valid() && cells == old(cells)
      ensures node !in old(nodeMapNum) ==> out == Failed && State() == old(State())
      ensures node in old(nodeMapNum) ==>
        match DeleteNode(hashFunc, old(State()), node)
        case None => out == Panic
        case Some(r) => out == Ok && State() == r
    {
      hide RangeDelete, DeleteKeys, VirtualKeys;
      if node !in nodeMapNum {
        return Failed;
      }
      NoKeys(hashFunc, node, nodeMapNum[node]);
      NothingDeleted(State());
      ghost var r := State();
      var n := nodeMapNum[node];
      var i := 0;
      while i < n
        invariant 0 <= i && (n >= 0 ==> i <= n) && (n < 0 ==> i == 0)
        invariant Valid() && cells == old(cells) && nodeMapNum == r.nodeNum
        invariant DeleteKeys(r, VirtualKeys(hashFunc, node, i)) == Some(State())
      {
        var key := hashFunc(node + "_" + Itoa(i));
        OneKeyMore(hashFunc, r, node, i, State());
        var panicked := RangeOverRing(key);
        if panicked {
          Stuck(hashFunc, r, node, i + 1, n);
          return Panic;
        }
        vNodeMapNode := vNodeMapNode - {key};
        hashRingSize := hashRingSize - 1;
        i := i + 1;
      }
      nodeMapNum := nodeMapNum - {node};
      out := Ok;
    }

    // The index found by halving may lie past the ring where its size is not
    // its length, and always does on an empty ring.
    method Get(key: string) returns (out: Outcome, node: string)
      requires Valid()
      ensures match GetNode(State(), hashFunc(key))
              case None => out == Panic
              case Some(x) => out == Ok && node == x
    {
      var h := hashFunc(key);
      ghost var goal := Search(cells[..ringLen], 0, hashRingSize, h);
      // sort.Search
      var i, j := 0, hashRingSize;
      while i < j
        invariant 0 <= i
        invariant Search(cells[..ringLen], i, j, h) == goal
      {
        var mid := (i + j) / 2;
        if mid >= ringLen {
          return Panic, "";
        }
        if cells[mid] < h {
          i := mid + 1;
        } else {
          j := mid;
        }
      }
      var idx := if i == hashRingSize then 0 else i;
      if idx >= ringLen {
        return Panic, "";
      }
      var hitKey := cells[idx];
      out, node := Ok, if hitKey in vNodeMapNode then vNodeMapNode[hitKey] else "";
    }

    method GetHashRingSize() returns (n: int)
      requires Valid()
      ensures n == State().size
    {
      n := hashRingSize;
    }
  }

  // One turn of the loop over the cells, or its end.
  lemma RangeTurn(cells: seq<nat>, live: nat, idx: nat, key: nat)
    requires live <= |cells| && idx <= |cells|
    ensures
      RangeDelete(cells, live, idx, key) ==
        if idx == |cells| then Some(cells[..live])
        else if cells[idx] != key then RangeDelete(cells, live, idx + 1, key)
        else if idx >= live then None
        else RangeDelete(cells[..idx] + cells[idx + 1..live] + cells[live - 1..], live - 1, idx + 1, key)
  {
  }

  lemma SortLength(s: seq<nat>)
    ensures |Sort(s)| == |s|
  {
    SortSorted(s);
    assert |Sort(s)| == |multiset(Sort(s))| == |multiset(s)| == |s|;
  }

  lemma NoKeys(hash: Hash, node: string, n: int)
    ensures VirtualKeys(hash, node, 0) == []
    ensures n < 0 ==> VirtualKeys(hash, node, n) == VirtualKeys(hash, node, 0)
  {
  }

  lemma NothingDeleted(r: Ring)
    ensures DeleteKeys(r, []) == Some(r)
  {
  }

  lemma NothingPut(m: map<nat, string>, node: string)
    ensures PutAll(m, [], node) == m
  {
  }

  // One turn of the loop of Add.
  lemma OneKeyPut(hash: Hash, m: map<nat, string>, node: string, i: nat)
    ensures
      var k := hash(node + "_" + Itoa(i));
      && VirtualKeys(hash, node, i + 1) == VirtualKeys(hash, node, i) + [k]
      && PutAll(m, VirtualKeys(hash, node, i + 1), node) == PutAll(m, VirtualKeys(hash, node, i), node)[k := node]
  {
    hide PutAll;
    PutOne(m, VirtualKeys(hash, node, i), hash(node + "_" + Itoa(i)), node);
  }

  lemma PutOne(m: map<nat, string>, ks: seq<nat>, k: nat, node: string)
    ensures PutAll(m, ks + [k], node) == PutAll(m, ks, node)[k := node]
  {
    assert (ks + [k])[..|ks|] == ks;
  }

  // One turn of the loop of Delete.
  lemma OneKeyMore(hash: Hash, r: Ring, node: string, i: nat, r1: Ring)
    requires DeleteKeys(r, VirtualKeys(hash, node, i)) == Some(r1)
    ensures
      var k := hash(node + "_" + Itoa(i));
      DeleteKeys(r, VirtualKeys(hash, node, i + 1)) ==
        match RangeDelete(r1.keys, |r1.keys|, 0, k)
        case None => None
        case Some(s) => Some(Ring(s, r1.size - 1, r1.nodeNum, r1.owner - {k}))
  {
    hide RangeDelete;
    var ks := VirtualKeys(hash, node, i + 1);
    assert ks[..|ks| - 1] == VirtualKeys(hash, node, i);
  }

  // A panic on one key is a panic of the whole deletion.
  lemma {:induction false} Stuck(hash: Hash, r: Ring, node: string, i: int, n: int)
    requires 0 <= i <= n && DeleteKeys(r, VirtualKeys(hash, node, i)) == None
    ensures DeleteKeys(r, VirtualKeys(hash, node, n)) == None
    decreases n - i
  {
    if i < n {
      var ks := VirtualKeys(hash, node, i + 1);
      assert ks[..|ks| - 1] == VirtualKeys(hash, node, i);
      Stuck(hash, r, node, i + 1, n);
    }
  }
}
