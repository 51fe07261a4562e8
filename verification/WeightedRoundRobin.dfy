// Smooth weighted round robin (internal/balance/weightroundrobin): every Get
// raises each node by its weight, picks the first highest node and lowers it by
// the total.  Twenty lines of code; what they promise is about whole runs.
module WeightedRoundRobin {
  import opened Options
  import opened Sequences

  // ------------------------------------------------------ one Get, on values

  function Raised(w: seq<int>, c: seq<int>): (b: seq<int>)
    requires |w| == |c|
    ensures |b| == |c|
  {
    seq(|c|, i requires 0 <= i < |c| => c[i] + w[i])
  }

  // The first index of the highest value.
  function Best(b: seq<int>): (i: nat)
    requires b != []
    ensures i < |b|
    ensures forall j :: 0 <= j < |b| ==> b[j] <= b[i]
    ensures forall j :: 0 <= j < i ==> b[j] < b[i]
  {
    if |b| == 1 then 0
    else
      var i, last := Best(b[..|b| - 1]), |b| - 1;
      if b[last] > b[i] then last else i
  }

  function Pick(w: seq<int>, c: seq<int>): (i: nat)
    requires |w| == |c| > 0
    ensures i < |w|
  {
    Best(Raised(w, c))
  }

  // The first node whose raised weight is greatest.
  lemma PickIsFirst(w: seq<int>, c: seq<int>)
    requires |w| == |c| > 0
    ensures
      var i := Pick(w, c);
      && (forall j :: 0 <= j < |w| ==> c[j] + w[j] <= c[i] + w[i])
      && (forall j :: 0 <= j < i ==> c[j] + w[j] < c[i] + w[i])
  {
    hide Best;
    RaisedAt(w, c);
    var b := Raised(w, c);
    forall j | 0 <= j < |w|
      ensures b[j] == c[j] + w[j]
    {
    }
  }

  function Next(w: seq<int>, c: seq<int>): (c': seq<int>)
    requires |w| == |c| > 0
    ensures |c'| == |c|
  {
    var b, i := Raised(w, c), Pick(w, c);
    b[i := b[i] - Sum(w)]
  }

  lemma RaisedAt(w: seq<int>, c: seq<int>)
    requires |w| == |c|
    ensures forall k :: 0 <= k < |w| ==> Raised(w, c)[k] == c[k] + w[k]
  {
  }

  // The loop of Get keeps the sum and the best of a prefix.
  lemma PrefixStart(w: seq<int>)
    ensures Sum(w[..0]) == 0
  {
  }

  lemma PrefixStep(w: seq<int>, b: seq<int>, i: nat)
    requires i < |w| == |b|
    ensures Sum(w[..i + 1]) == Sum(w[..i]) + w[i]
    ensures Best(b[..i + 1]) == if i == 0 || b[i] > b[Best(b[..i])] then i else Best(b[..i])
  {
    assert w[..i + 1][..i] == w[..i] && b[..i + 1][..i] == b[..i];
  }

  // ------------------------------------------------------------- the object

  class WeightNode {
    var node: string
    var weight: int
    var currentWeight: int
    ghost const place: nat  // its index in allNodes

    constructor (node: string, weight: int, ghost place: nat)
      ensures this.node == node && this.weight == weight && currentWeight == 0 && this.place == place
    {
      this.node, this.weight, currentWeight := node, weight, 0;
      this.place := place;
    }
  }

  class WeightRoundRobinBalance {
    var allNodes: seq<WeightNode>

    ghost predicate Valid()
      reads this
    {
      forall i :: 0 <= i < |allNodes| ==> allNodes[i].place == i
    }

    ghost function Weights(): (w: seq<int>)
      reads this, allNodes
      ensures |w| == |allNodes|
    {
      seq(|allNodes|, i requires 0 <= i < |allNodes| reads this, allNodes => allNodes[i].weight)
    }

    ghost function Currents(): (c: seq<int>)
      reads this, allNodes
      ensures |c| == |allNodes|
    {
      seq(|allNodes|, i requires 0 <= i < |allNodes| reads this, allNodes => allNodes[i].currentWeight)
    }

    constructor ()
      ensures Valid() && allNodes == []
    {
      allNodes := [];
    }

    // parsed is what ParseInt makes of the second parameter.
    method Add(params: seq<string>, parsed: Option<int>) returns (ok: bool)
      requires Valid()
      modifies this
      ensures Valid()
      ensures ok <==> |params| == 2 && parsed.Some?
      ensures !ok ==> allNodes == old(allNodes)
      ensures ok ==> Weights() == old(Weights()) + [parsed.value] && Currents() == old(Currents()) + [0]
      ensures ok ==> |allNodes| > 0 && fresh(allNodes[|allNodes| - 1]) && allNodes[|allNodes| - 1].node == params[0]
      ensures ok ==> allNodes[..|allNodes| - 1] == old(allNodes)
    {
      if |params| != 2 || parsed.None? {
        return false;
      }
      var n := new WeightNode(params[0], parsed.value, |allNodes|);
      allNodes := allNodes + [n];
      ok := true;
    }

    method Get() returns (picked: Option<string>)
      requires Valid()
      modifies allNodes
      ensures Weights() == old(Weights())
      ensures allNodes == [] ==> picked == None
      ensures allNodes != [] ==>
        && Currents() == Next(old(Weights()), old(Currents()))
        && picked == Some(allNodes[Pick(old(Weights()), old(Currents()))].node)
    {
      hide Best, Sum, Raised;
      ghost var w, c := Weights(), Currents();
      ghost var b := Raised(w, c);
      RaisedAt(w, c);
      PrefixStart(w);
      var totalWeight := 0;
      var bestNode: WeightNode? := null;
      for i := 0 to |allNodes|
        invariant unchanged(this)
        invariant forall k :: 0 <= k < |allNodes| ==>
          allNodes[k].weight == w[k] && allNodes[k].node == old(allNodes[k].node)
        invariant forall k :: 0 <= k < |allNodes| ==> allNodes[k].currentWeight == if k < i then b[k] else c[k]
        invariant totalWeight == Sum(w[..i])
        invariant if i == 0 then bestNode == null else bestNode == allNodes[Best(b[..i])]
      {
        PrefixStep(w, b, i);
        var curNode := allNodes[i];
        totalWeight := totalWeight + curNode.weight;
        curNode.currentWeight := curNode.currentWeight + curNode.weight;
        if bestNode == null || curNode.currentWeight > bestNode.currentWeight {
          bestNode := curNode;
        }
      }
      assert w[..|w|] == w && b[..|b|] == b;
      if bestNode == null {
        return None;
      }
      bestNode.currentWeight := bestNode.currentWeight - totalWeight;
      picked := Some(bestNode.node);
      assert Currents() == Next(w, c);
    }
  }

  // ------------------------------------------------------------------- runs

  function AtRest(n: nat): (z: seq<int>)
    ensures |z| == n
  {
    seq(n, _ => 0)
  }

  // The current weights after t Gets.
  function Run(w: seq<int>, c: seq<int>, t: nat): (c': seq<int>)
    requires |w| == |c| > 0
    ensures |c'| == |c|
  {
    if t == 0 then c else Next(w, Run(w, c, t - 1))
  }

  // How often each node was picked in them.
  function Counts(w: seq<int>, c: seq<int>, t: nat): (k: seq<int>)
    requires |w| == |c| > 0
    ensures |k| == |w|
  {
    if t == 0 then AtRest(|w|)
    else
      var k, i := Counts(w, c, t - 1), Pick(w, Run(w, c, t - 1));
      k[i := k[i] + 1]
  }

  lemma {:induction false} SumUpdate(s: seq<int>, i: nat, v: int)
    requires i < |s|
    ensures Sum(s[i := v]) == Sum(s) + v - s[i]
    decreases |s|
  {
    var n := |s| - 1;
    if i == n {
      assert s[i := v][..n] == s[..n];
    } else {
      assert s[i := v][..n] == s[..n][i := v];
      SumUpdate(s[..n], i, v);
    }
  }

  lemma {:induction false} SumRaised(w: seq<int>, c: seq<int>)
    requires |w| == |c|
    ensures Sum(Raised(w, c)) == Sum(w) + Sum(c)
    decreases |w|
  {
    if w != [] {
      var n := |w| - 1;
      assert Raised(w, c)[..n] == Raised(w[..n], c[..n]);
      SumRaised(w[..n], c[..n]);
    }
  }

  lemma {:induction false} SumZeros(n: nat)
    ensures Sum(AtRest(n)) == 0
  {
    if n > 0 {
      assert AtRest(n)[..n - 1] == AtRest(n - 1);
      SumZeros(n - 1);
    }
  }

  lemma {:induction false} SumNext(w: seq<int>, c: seq<int>)
    requires |w| == |c| > 0
    ensures Sum(Next(w, c)) == Sum(c)
  {
    hide Best, Sum, Raised;
    var b, i := Raised(w, c), Pick(w, c);
    SumRaised(w, c);
    SumUpdate(b, i, b[i] - Sum(w));
  }

  // Every bound on the parts bounds the sum.
  lemma {:induction false} SumAtMost(s: seq<int>, hi: int)
    requires forall i :: 0 <= i < |s| ==> s[i] <= hi
    ensures Sum(s) <= |s| * hi
    decreases |s|
  {
    if s != [] {
      SumAtMost(s[..|s| - 1], hi);
    }
  }

  lemma {:induction false} SumAtLeast(s: seq<int>, lo: int)
    requires forall i :: 0 <= i < |s| ==> s[i] >= lo
    ensures Sum(s) >= |s| * lo
    decreases |s|
  {
    if s != [] {
      SumAtLeast(s[..|s| - 1], lo);
    }
  }

  // What holds in every reachable state: the current weights cancel out, and
  // none is a full round behind.
  predicate Balanced(w: seq<int>, c: seq<int>) {
    && |w| == |c|
    && (forall i :: 0 <= i < |w| ==> w[i] >= 0)
    && Sum(c) == 0
    && forall i :: 0 <= i < |c| ==> c[i] > -Sum(w) || c[i] == Sum(w) == 0
  }

  lemma NextBalanced(w: seq<int>, c: seq<int>)
    requires Balanced(w, c) && w != []
    ensures Balanced(w, Next(w, c))
  {
    var b, i := Raised(w, c), Pick(w, c);
    SumNext(w, c);
    SumRaised(w, c);
    SumAtLeast(w, 0);
    SumAtMost(b, b[i]);
    // The highest raised weight is positive, for the raised weights sum to W.
    if Sum(w) > 0 && b[i] <= 0 {
      NotPositive(|b|, b[i]);
    }
    if Sum(w) == 0 {
      AllZero(w);
    }
  }

  lemma NotPositive(n: nat, x: int)
    requires x <= 0
    ensures n * x <= 0
  {
  }

  lemma {:induction false} AllZero(w: seq<int>)
    requires (forall i :: 0 <= i < |w| ==> w[i] >= 0) && Sum(w) == 0
    ensures forall i :: 0 <= i < |w| ==> w[i] == 0
    decreases |w|
  {
    if w != [] {
      SumAtLeast(w[..|w| - 1], 0);
      AllZero(w[..|w| - 1]);
    }
  }

  lemma {:induction false} RunBalanced(w: seq<int>, c: seq<int>, t: nat)
    requires Balanced(w, c) && w != []
    ensures Balanced(w, Run(w, c, t))
  {
    if t > 0 {
      RunBalanced(w, c, t - 1);
      NextBalanced(w, Run(w, c, t - 1));
    }
  }

  // ----------------------------------------------- Adds and Gets interleaved

  datatype Op = AddNode(weight: int) | GetNode

  function Apply(w: seq<int>, c: seq<int>, op: Op): (r: (seq<int>, seq<int>))
    requires |w| == |c|
    ensures |r.0| == |r.1|
  {
    match op
    case AddNode(x) => (w + [x], c + [0])
    case GetNode => if w == [] then (w, c) else (w, Next(w, c))
  }

  function ApplyAll(w: seq<int>, c: seq<int>, ops: seq<Op>): (r: (seq<int>, seq<int>))
    requires |w| == |c|
    ensures |r.0| == |r.1|
    decreases |ops|
  {
    if ops == [] then (w, c)
    else
      var (w1, c1) := Apply(w, c, ops[0]);
      ApplyAll(w1, c1, ops[1..])
  }

  lemma AddBalanced(w: seq<int>, c: seq<int>, x: int)
    requires Balanced(w, c) && x >= 0
    ensures Balanced(w + [x], c + [0])
  {
    assert (w + [x])[..|w|] == w && (c + [0])[..|c|] == c;
    SumAtLeast(w, 0);
  }

  // Over any interleaving of Adds and Gets with non-negative weights the
  // state stays balanced.
  lemma {:induction false} ReachableBalanced(w: seq<int>, c: seq<int>, ops: seq<Op>)
    requires Balanced(w, c)
    requires forall i :: 0 <= i < |ops| && ops[i].AddNode? ==> ops[i].weight >= 0
    ensures var r := ApplyAll(w, c, ops); Balanced(r.0, r.1)
    decreases |ops|
  {
    if ops != [] {
      match ops[0] {
        case AddNode(x) => AddBalanced(w, c, x);
        case GetNode => if w != [] { NextBalanced(w, c); }
      }
      var (w1, c1) := Apply(w, c, ops[0]);
      ReachableBalanced(w1, c1, ops[1..]);
    }
  }

  // In a balanced state each current weight lies in [-(W-1), (n-1)(W-1)], so
  // with n * W < 2^63 no addition inside Get overflows a 64-bit int.
  lemma BalancedBounds(w: seq<int>, c: seq<int>, i: nat)
    requires Balanced(w, c) && Sum(w) > 0 && i < |c|
    ensures -(Sum(w) - 1) <= c[i] <= (|w| - 1) * (Sum(w) - 1)
    ensures c[i] + w[i] <= |w| * Sum(w)
  {
    hide Sum;
    var W, lo := Sum(w), -(Sum(w) - 1);
    SumUpdate(c, i, lo);
    SumAtLeast(c[i := lo], lo);
    PartAtMost(w, i);
    BoundArithmetic(|w|, W);
  }

  lemma BoundArithmetic(n: nat, W: nat)
    requires n >= 1 && W >= 1
    ensures n * -(W - 1) == -(n * (W - 1))
    ensures n * (W - 1) - (W - 1) == (n - 1) * (W - 1)
    ensures (n - 1) * (W - 1) + W <= n * W
  {
    assert (n - 1) * W == (n - 1) * (W - 1) + (n - 1);
    assert n * W == (n - 1) * W + W;
  }

  lemma PartAtMost(w: seq<int>, i: nat)
    requires (forall k :: 0 <= k < |w| ==> w[k] >= 0) && i < |w|
    ensures w[i] <= Sum(w)
  {
    hide Sum;
    SumUpdate(w, i, 0);
    SumAtLeast(w[i := 0], 0);
  }

  // --------------------------------------------------------------- fairness

  // The state is determined by the counts: t * w_i - W * count_i.
  lemma {:induction false} Accounting(w: seq<int>, c: seq<int>, t: nat, i: nat)
    requires |w| == |c| && i < |w|
    ensures Run(w, c, t)[i] == c[i] + t * w[i] - Sum(w) * Counts(w, c, t)[i]
  {
    hide Best, Raised, Sum;
    if t > 0 {
      Accounting(w, c, t - 1, i);
      var c1, p := Run(w, c, t - 1), Pick(w, Run(w, c, t - 1));
      RaisedAt(w, c1);
      OneMore(t - 1, w[i], Sum(w), Counts(w, c, t - 1)[i]);
    }
  }

  lemma OneMore(t: int, x: int, W: int, k: int)
    ensures (t + 1) * x == t * x + x && W * (k + 1) == W * k + W
  {
  }

  lemma {:induction false} CountsSum(w: seq<int>, c: seq<int>, t: nat)
    requires |w| == |c| > 0
    ensures Sum(Counts(w, c, t)) == t
  {
    if t == 0 {
      SumZeros(|w|);
    } else {
      CountsSum(w, c, t - 1);
      var k, i := Counts(w, c, t - 1), Pick(w, Run(w, c, t - 1));
      SumUpdate(k, i, k[i] + 1);
    }
  }

  // At any moment, no node is a full pick ahead of its share.
  lemma NeverAhead(w: seq<int>, t: nat, i: nat)
    requires Balanced(w, AtRest(|w|)) && i < |w| && Sum(w) > 0
    ensures Sum(w) * Counts(w, AtRest(|w|), t)[i] < t * w[i] + Sum(w)
  {
    Accounting(w, AtRest(|w|), t, i);
    RunBalanced(w, AtRest(|w|), t);
  }

  // Nor further behind it than the others can be ahead.
  lemma NeverFarBehind(w: seq<int>, t: nat, i: nat)
    requires Balanced(w, AtRest(|w|)) && i < |w| && Sum(w) > 0
    ensures Sum(w) * Counts(w, AtRest(|w|), t)[i] >= t * w[i] - (|w| - 1) * (Sum(w) - 1)
  {
    Accounting(w, AtRest(|w|), t, i);
    RunBalanced(w, AtRest(|w|), t);
    BalancedBounds(w, Run(w, AtRest(|w|), t), i);
  }

  lemma {:induction false} SameSums(a: seq<int>, b: seq<int>)
    requires |a| == |b| && Sum(a) == Sum(b) && forall i :: 0 <= i < |a| ==> a[i] <= b[i]
    ensures a == b
    decreases |a|
  {
    if a != [] {
      var n := |a| - 1;
      SumLe(a[..n], b[..n]);
      SameSums(a[..n], b[..n]);
      assert a == a[..n] + [a[n]] && b == b[..n] + [b[n]];
    }
  }

  lemma {:induction false} SumLe(a: seq<int>, b: seq<int>)
    requires |a| == |b| && forall i :: 0 <= i < |a| ==> a[i] <= b[i]
    ensures Sum(a) <= Sum(b)
    decreases |a|
  {
    if a != [] {
      SumLe(a[..|a| - 1], b[..|a| - 1]);
    }
  }

  lemma FreshBalanced(w: seq<int>)
    requires forall i :: 0 <= i < |w| ==> w[i] >= 0
    requires Sum(w) > 0
    ensures Balanced(w, AtRest(|w|))
  {
    SumZeros(|w|);
  }

  // One full round: every node has had exactly its weight in picks, and the
  // state is back to where it started.
  lemma FullRound(w: seq<int>)
    requires (forall i :: 0 <= i < |w| ==> w[i] >= 0) && Sum(w) > 0
    ensures Counts(w, AtRest(|w|), Sum(w)) == w
    ensures Run(w, AtRest(|w|), Sum(w)) == AtRest(|w|)
  {
    hide Sum, Run, Counts, Balanced;
    var z, W := AtRest(|w|), Sum(w);
    FreshBalanced(w);
    CountsSum(w, z, W);
    forall i | 0 <= i < |w|
      ensures Counts(w, z, W)[i] <= w[i]
    {
      NeverAhead(w, W, i);
      NoFullPick(W, Counts(w, z, W)[i], w[i]);
    }
    SameSums(Counts(w, z, W), w);
    forall i | 0 <= i < |w|
      ensures Run(w, z, W)[i] == 0
    {
      Accounting(w, z, W, i);
    }
  }

  lemma NoFullPick(W: nat, k: int, x: int)
    requires W > 0 && W * k < W * x + W
    ensures k <= x
  {
    assert W * (k - x - 1) == W * k - W * x - W;
    if k > x {
      Positive(W, k - x - 1);
    }
  }

  lemma Positive(x: nat, y: nat)
    ensures x * y >= 0 && x * (y + 1) >= x
  {
    assert x * y >= 0;
  }

  lemma {:induction false} RunSplit(w: seq<int>, c: seq<int>, s: nat, t: nat)
    requires |w| == |c| > 0
    ensures Run(w, c, s + t) == Run(w, Run(w, c, s), t)
    ensures forall i :: 0 <= i < |w| ==> Counts(w, c, s + t)[i] == Counts(w, c, s)[i] + Counts(w, Run(w, c, s), t)[i]
    decreases t
  {
    hide Next, Pick, Best, Raised;
    if t > 0 {
      RunSplit(w, c, s, t - 1);
      assert s + t - 1 == s + (t - 1);
    }
  }

  lemma NonEmpty(w: seq<int>)
    requires Sum(w) > 0
    ensures w != []
  {
  }

  // Main result.  From a fresh node set of total weight W, the state has
  // period W, and every window of W consecutive Gets picks each node exactly
  // as often as its weight.
  lemma ExactFairness(w: seq<int>, t: nat)
    requires (forall i :: 0 <= i < |w| ==> w[i] >= 0) && Sum(w) > 0
    ensures
      var z := AtRest(|w|);
      && Run(w, z, t + Sum(w)) == Run(w, z, t)
      && Counts(w, Run(w, z, t), Sum(w)) == w
  {
    hide Sum, Run, Counts;
    NonEmpty(w);
    var z, W := AtRest(|w|), Sum(w);
    FullRound(w);
    RunSplit(w, z, W, t);
    RunSplit(w, z, t, W);
    assert W + t == t + W;
    assert |Counts(w, Run(w, z, t), W)| == |w|;
  }

  // ---------------------------------------------------------------- scaling

  function Scale(k: nat, s: seq<int>): (r: seq<int>)
    ensures |r| == |s|
  {
    seq(|s|, i requires 0 <= i < |s| => k * s[i])
  }

  lemma {:induction false} SumScale(k: nat, s: seq<int>)
    ensures Sum(Scale(k, s)) == k * Sum(s)
    decreases |s|
  {
    if s != [] {
      var n := |s| - 1;
      assert Scale(k, s)[..n] == Scale(k, s[..n]);
      SumScale(k, s[..n]);
    }
  }

  lemma ScaleOrder(k: nat, x: int, y: int)
    requires k > 0
    ensures k * x > k * y <==> x > y
  {
    if x > y {
      Positive(k, x - y - 1);
      assert k * (x - y) == k * x - k * y;
    } else {
      assert k * (y - x) >= 0 && k * (y - x) == k * y - k * x;
    }
  }

  lemma {:induction false} BestScale(k: nat, b: seq<int>)
    requires k > 0 && b != []
    ensures Best(Scale(k, b)) == Best(b)
    decreases |b|
  {
    if |b| > 1 {
      var n := |b| - 1;
      assert Scale(k, b)[..n] == Scale(k, b[..n]);
      BestScale(k, b[..n]);
      ScaleOrder(k, b[n], b[Best(b[..n])]);
    }
  }

  lemma ScaleZeros(k: nat, n: nat)
    ensures Scale(k, AtRest(n)) == AtRest(n)
  {
  }

  lemma RaisedScale(k: nat, w: seq<int>, c: seq<int>)
    requires |w| == |c|
    ensures Raised(Scale(k, w), Scale(k, c)) == Scale(k, Raised(w, c))
  {
    forall i | 0 <= i < |c|
      ensures k * c[i] + k * w[i] == k * (c[i] + w[i])
    {
    }
  }

  lemma NextScale(k: nat, w: seq<int>, c: seq<int>)
    requires k > 0 && |w| == |c| > 0
    ensures Pick(Scale(k, w), Scale(k, c)) == Pick(w, c)
    ensures Next(Scale(k, w), Scale(k, c)) == Scale(k, Next(w, c))
  {
    hide Sum, Best, Raised;
    var i, b := Pick(w, c), Raised(w, c);
    RaisedScale(k, w, c);
    BestScale(k, b);
    SumScale(k, w);
    assert k * (b[i] - Sum(w)) == k * b[i] - k * Sum(w);
  }

  lemma {:induction false} RunScale(k: nat, w: seq<int>, c: seq<int>, t: nat)
    requires k > 0 && |w| == |c| > 0
    ensures Run(Scale(k, w), Scale(k, c), t) == Scale(k, Run(w, c, t))
    ensures Counts(Scale(k, w), Scale(k, c), t) == Counts(w, c, t)
  {
    hide Next, Pick, Scale;
    if t > 0 {
      RunScale(k, w, c, t - 1);
      NextScale(k, w, Run(w, c, t - 1));
    }
  }

  // Only the ratios matter: weights with a common factor k are already served
  // exactly in every window k times shorter.
  lemma ReducedFairness(k: nat, w: seq<int>, t: nat)
    requires k > 0 && (forall i :: 0 <= i < |w| ==> w[i] >= 0) && Sum(w) > 0
    ensures
      var v, z := Scale(k, w), AtRest(|w|);
      && Run(v, z, t + Sum(w)) == Run(v, z, t)
      && Counts(v, Run(v, z, t), Sum(w)) == w
  {
    hide Sum, Run, Counts, Scale;
    NonEmpty(w);
    ScaleZeros(k, |w|);
    var v, z := Scale(k, w), AtRest(|w|);
    ExactFairness(w, t);
    RunScale(k, w, z, t);
    RunScale(k, w, z, t + Sum(w));
    RunScale(k, w, Run(w, z, t), Sum(w));
  }
}
