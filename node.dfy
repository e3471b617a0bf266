/** Transfer nodes: a node groups stops of several routes, and its connections are all ordered pairs of its stops. */
module Nodes {

  /** One membership of a node: `(route id, stop id)`. */
  datatype NodeStop = NodeStop(route: string, stop: string)

  /** The position paired with position i at step k of its row: every other position, in increasing order. */
  function Partner(i: nat, k: nat): nat
  {
    if k < i then k else k + 1
  }

  /** The pairs whose first element is at position i, in the order `permutations` yields them. */
  function Row<T>(s: seq<T>, i: nat): (row: seq<(T, T)>)
    requires i < |s|
    ensures |row| == |s| - 1
  {
    seq(|s| - 1, k requires 0 <= k < |s| - 1 => (s[i], s[Partner(i, k)]))
  }

  function PairsFrom<T>(s: seq<T>, i: nat): seq<(T, T)>
    decreases |s| - i
  {
    if i >= |s| then [] else Row(s, i) + PairsFrom(s, i + 1)
  }

  /** `list(itertools.permutations(s, 2))` */
  function Connections<T>(s: seq<T>): seq<(T, T)>
  {
    PairsFrom(s, 0)
  }

  /** Where the pair of positions (i, j) sits in the list: pairs are numbered lexicographically by (i, j). */
  function PairIndex(n: nat, i: nat, j: nat): nat
    requires i < n && j < n && i != j
  {
    i * (n - 1) + (if j < i then j else j - 1)
  }

  lemma MulStep(a: int, m: int)
    ensures (a + 1) * m == a * m + m
  {
  }

  lemma MulMonotone(a: int, b: int, m: int)
    requires a <= b && m >= 0
    ensures a * m <= b * m
  {
    assert b * m == a * m + (b - a) * m;
  }

  lemma {:induction false} PairsFromLength<T>(s: seq<T>, i: nat)
    requires i <= |s|
    ensures |PairsFrom(s, i)| == (|s| - i) * (|s| - 1)
    decreases |s| - i
  {
    if i < |s| {
      PairsFromLength(s, i + 1);
      MulStep(|s| - i - 1, |s| - 1);
    }
  }

  /** d blocks of m entries: d·m, counted block by block. */
  function Blocks(d: nat, m: nat): nat
  {
    if d == 0 then 0 else Blocks(d - 1, m) + m
  }

  lemma {:induction false} BlocksMul(d: nat, m: nat)
    ensures Blocks(d, m) == d * m
  {
    if d > 0 {
      BlocksMul(d - 1, m);
      MulStep(d - 1, m);
    }
  }

  /** The entry d·(n−1) + k of the pairs from position i0 on is the k-th pair of position i0 + d. */
  lemma {:induction false} PairsFromAt<T>(s: seq<T>, i0: nat, d: nat, k: nat)
    requires i0 + d < |s| && k < |s| - 1
    ensures Blocks(d, |s| - 1) + k < |PairsFrom(s, i0)|
    ensures PairsFrom(s, i0)[Blocks(d, |s| - 1) + k] == (s[i0 + d], s[Partner(i0 + d, k)])
    decreases d
  {
    var row, rest := Row(s, i0), PairsFrom(s, i0 + 1);
    assert PairsFrom(s, i0) == row + rest;
    if d > 0 {
      PairsFromAt(s, i0 + 1, d - 1, k);
    }
  }

  /** `permutations(s, 2)` has n·(n−1) entries; in particular none when there are fewer than two stops. */
  lemma ConnectionsLength<T>(s: seq<T>)
    ensures |Connections(s)| == |s| * (|s| - 1)
    ensures |s| < 2 ==> Connections(s) == []
  {
    PairsFromLength(s, 0);
  }

  /** The pair of distinct positions (i, j) is at index PairIndex(n, i, j). Equal values at two positions still give a pair. */
  lemma ConnectionAt<T>(s: seq<T>, i: nat, j: nat)
    requires i < |s| && j < |s| && i != j
    ensures PairIndex(|s|, i, j) < |Connections(s)|
    ensures Connections(s)[PairIndex(|s|, i, j)] == (s[i], s[j])
  {
    var k := if j < i then j else j - 1;
    assert Partner(i, k) == j;
    PairsFromAt(s, 0, i, k);
    BlocksMul(i, |s| - 1);
  }

  /** Every entry comes from a pair of distinct positions: the i-th block of n−1 entries starts at position i. */
  lemma ConnectionSource<T>(s: seq<T>, k: nat)
    requires k < |Connections(s)|
    ensures |s| >= 2
    ensures var i, j := k / (|s| - 1), Partner(k / (|s| - 1), k % (|s| - 1));
      && i < |s| && j < |s| && i != j
      && PairIndex(|s|, i, j) == k
      && Connections(s)[k] == (s[i], s[j])
  {
    var n := |s|;
    ConnectionsLength(s);
    assert n >= 2 by {
      if n < 2 { assert false; }
    }
    var i, r := k / (n - 1), k % (n - 1);
    assert k == i * (n - 1) + r;
    assert i < n by {
      if i >= n {
        MulMonotone(n, i, n - 1);
      }
    }
    var j := Partner(i, r);
    assert j < n by {
      if j == r + 1 { assert r >= i; assert r + 1 < n; }
    }
    ConnectionAt(s, i, j);
  }

  /** Pairs of positions are numbered in lexicographic order, so each pair has exactly one index. */
  lemma PairIndexOrder(n: nat, i: nat, j: nat, i': nat, j': nat)
    requires i < n && j < n && i != j && i' < n && j' < n && i' != j'
    requires i < i' || (i == i' && j < j')
    ensures PairIndex(n, i, j) < PairIndex(n, i', j')
  {
    if i < i' {
      MulStep(i, n - 1);
      MulMonotone(i + 1, i', n - 1);
    }
  }

  /** No two pairs of positions share an index: each ordered pair occurs exactly once. */
  lemma PairIndexInjective(n: nat, i: nat, j: nat, i': nat, j': nat)
    requires i < n && j < n && i != j && i' < n && j' < n && i' != j'
    requires PairIndex(n, i, j) == PairIndex(n, i', j')
    ensures i == i' && j == j'
  {
    if i < i' || (i == i' && j < j') {
      PairIndexOrder(n, i, j, i', j');
    } else if i' < i || (i == i' && j' < j) {
      PairIndexOrder(n, i', j', i, j);
    }
  }

  /** The connection list is symmetric: (a, b) at positions (i, j) means (b, a) at positions (j, i). */
  lemma ConnectionReversed<T>(s: seq<T>, i: nat, j: nat)
    requires i < |s| && j < |s| && i != j
    ensures PairIndex(|s|, i, j) < |Connections(s)| && PairIndex(|s|, j, i) < |Connections(s)|
    ensures Connections(s)[PairIndex(|s|, j, i)] == (Connections(s)[PairIndex(|s|, i, j)].1, Connections(s)[PairIndex(|s|, i, j)].0)
  {
    ConnectionAt(s, i, j);
    ConnectionAt(s, j, i);
  }

  /** A transfer node (`Node` in node.py). */
  class Node {
    var nodeId: string
    var nodeName: string
    var nodeStops: seq<NodeStop>
    var connections: seq<(NodeStop, NodeStop)>

    /** Stores the three arguments unchanged, then generates the connections. */
    constructor (nodeId: string, nodeName: string, nodeStops: seq<NodeStop>)
      ensures this.nodeId == nodeId && this.nodeName == nodeName && this.nodeStops == nodeStops
      ensures connections == Connections(nodeStops)
    {
      this.nodeId := nodeId;
      this.nodeName := nodeName;
      this.nodeStops := nodeStops;
      connections := [];
      new;
      GenerateConnections();
    }

    /** `generateConnections`: every ordered pair of distinct positions of the node's stops. */
    method GenerateConnections()
      modifies this`connections
      ensures connections == Connections(nodeStops)
      ensures |connections| == |nodeStops| * (|nodeStops| - 1)
    {
      connections := Connections(nodeStops);
      ConnectionsLength(nodeStops);
    }
  }
}
