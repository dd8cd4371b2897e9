/**
 The double binary tree: every node derives its parent and children in two trees from its position in
 the sorted list of all nodes and in the reversed list.
 */
module DoubleBinaryTree {
  import opened Arith
  import opened Cluster

  /** Positions a node at `offset` connects to: its parent. */
  function Out(offset: nat): seq<nat> {
    if offset == 0 then [] else [offset / 2]
  }

  /** Positions a node at `offset` expects to be connected from: its children. */
  function In(n: nat, offset: nat): seq<nat> {
    if offset == 0 then [1]
    else if offset < n / 2 then [2 * offset, 2 * offset + 1]
    else []
  }

  lemma InRange(n: nat, offset: nat, k: nat)
    requires n >= 2 && offset < n
    ensures k in Out(offset) ==> k < n
    ensures k in In(n, offset) ==> k < n
  {
  }

  method GetIndex(node: Ip, cluster: seq<Ip>) returns (index: int)
    ensures node in cluster ==> 0 <= index < |cluster| && cluster[index] == node && node !in cluster[..index]
    ensures node !in cluster ==> index == -1
  {
    for k := 0 to |cluster|
      invariant node !in cluster[..k]
    {
      if cluster[k] == node {
        return k;
      }
    }
    return -1;
  }

  function Position(order: seq<Ip>, node: Ip): (p: nat)
    requires node in order
    ensures p < |order| && order[p] == node && node !in order[..p]
  {
    if order[0] == node then 0
    else
      var p := 1 + Position(order[1..], node);
      assert order[..p] == [order[0]] + order[1..][..p - 1];
      p
  }

  function Upper(order: seq<Ip>, node: Ip): seq<Ip>
    requires |order| >= 2 && node in order
  {
    var p := Position(order, node);
    Names(order, Out(p))
  }

  function Downstream(order: seq<Ip>, node: Ip): seq<Ip>
    requires |order| >= 2 && node in order
  {
    var p := Position(order, node);
    Names(order, In(|order|, p))
  }

  /** The place at half of `p` upwards, the places at twice `p` and behind it downwards. */
  ghost predicate ConnectsAt(order: seq<Ip>, p: nat, upper: seq<Ip>, downstream: seq<Ip>)
    requires |order| >= 2 && p < |order|
  {
    && upper == (if p == 0 then [] else [order[p / 2]])
    && downstream == if p == 0 then [order[1]] else if p < |order| / 2 then [order[2 * p], order[2 * p + 1]] else []
  }

  /** The caller passes a list of at least two nodes that holds `node`; both are what keeps the indices in range. */
  method GetConnection(node: Ip, cluster: seq<Ip>) returns (upper: seq<Ip>, downstream: seq<Ip>)
    requires |cluster| >= 2 && node in cluster
    ensures upper == Upper(cluster, node) && downstream == Downstream(cluster, node)
    ensures exists p :: 0 <= p < |cluster| && cluster[p] == node && node !in cluster[..p]
                        && ConnectsAt(cluster, p, upper, downstream)
  {
    upper, downstream := [], [];
    var offset := GetIndex(node, cluster);
    assert offset == Position(cluster, node);
    if offset == 0 {
      downstream := downstream + [cluster[1]];
      return;
    }
    if offset < |cluster| / 2 {
      downstream := downstream + [cluster[2 * offset]];
      downstream := downstream + [cluster[2 * offset + 1]];
    }
    upper := upper + [cluster[offset / 2]];
  }

  function Reverse(s: seq<Ip>): (r: seq<Ip>)
    ensures |r| == |s| && forall i | 0 <= i < |s| :: r[i] == s[|s| - 1 - i]
  {
    seq(|s|, i requires 0 <= i < |s| => s[|s| - 1 - i])
  }

  /** The order one tree is built on: ascending for the first, descending for the second. */
  function Order(nodes: seq<Ip>, tree: nat): (order: seq<Ip>)
    ensures |order| == |nodes|
  {
    if tree == 0 then nodes else Reverse(nodes)
  }

  function Place(n: nat, tree: nat, p: nat): nat
    requires p < n
  {
    if tree == 0 then p else n - 1 - p
  }

  /** In either order a node is found at its place and nowhere else. */
  lemma PositionIsPlace(nodes: seq<Ip>, tree: nat, p: nat)
    requires Ascending(nodes) && p < |nodes|
    ensures Order(nodes, tree)[Place(|nodes|, tree, p)] == nodes[p]
    ensures nodes[p] in Order(nodes, tree)
    ensures Position(Order(nodes, tree), nodes[p]) == Place(|nodes|, tree, p)
  {
    var order := Order(nodes, tree);
    var at := Place(|nodes|, tree, p);
    assert order[at] == nodes[p];
    var q := Position(order, nodes[p]);
    AscendingAt(nodes, p, Place(|nodes|, tree, q));
  }

  /** One node's view of both trees: `[[parents, children], [parents, children]]`. */
  method GetTreeNeighbors(localIp: Ip, others: seq<Ip>, ghost nodes: seq<Ip>) returns (trees: seq<seq<seq<Ip>>>)
    requires Ascending(nodes) && |nodes| >= 2 && multiset(others + [localIp]) == multiset(nodes)
    ensures localIp in nodes && localIp in Reverse(nodes)
    ensures |trees| == 2
    ensures trees[0] == [Upper(nodes, localIp), Downstream(nodes, localIp)]
    ensures trees[1] == [Upper(Reverse(nodes), localIp), Downstream(Reverse(nodes), localIp)]
  {
    ViewsAgree(nodes, others, localIp);
    assert localIp in multiset(others + [localIp]);
    PositionIsPlace(nodes, 1, Position(nodes, localIp));
    var cluster := Sort(others + [localIp]);
    var clusterReverse := Reverse(cluster);
    var upper, downstream := GetConnection(localIp, cluster);
    trees := [[upper, downstream]];
    upper, downstream := GetConnection(localIp, clusterReverse);
    trees := trees + [[upper, downstream]];
  }

  /** The node at place `p` in the tree's order lists the node at place `q` among its children. */
  predicate ListsChild(n: nat, p: nat, q: nat) {
    q in In(n, p)
  }

  predicate NamesParent(q: nat, p: nat) {
    p in Out(q)
  }

  /** A child's parent lists it, except that for odd n the last node's parent does not. */
  lemma ViewsAreConverse(n: nat, p: nat, q: nat)
    requires n >= 2 && p < n && q < n
    ensures ListsChild(n, p, q) <==> NamesParent(q, p) && !(n % 2 == 1 && q == n - 1)
  {
  }

  lemma NamesHas(order: seq<Ip>, positions: seq<nat>, at: nat)
    requires forall i | 0 <= i < |positions| :: positions[i] < |order|
    requires forall i, j | 0 <= i < j < |order| :: order[i] != order[j]
    requires at < |order|
    ensures order[at] in Names(order, positions) <==> at in positions
  {
    var names := Names(order, positions);
    if at in positions {
      var i :| 0 <= i < |positions| && positions[i] == at;
      assert names[i] == order[at];
    }
  }

  /** The same for one tree's order, at any two places of it. */
  lemma ViewsInOrder(order: seq<Ip>, a: nat, b: nat)
    requires |order| >= 2 && a < |order| && b < |order|
    requires forall i, j | 0 <= i < j < |order| :: order[i] != order[j]
    ensures order[b] in Downstream(order, order[a])
            <==> order[a] in Upper(order, order[b]) && !(|order| % 2 == 1 && b == |order| - 1)
  {
    assert Position(order, order[a]) == a && Position(order, order[b]) == b;
    NamesHas(order, In(|order|, a), b);
    NamesHas(order, Out(b), a);
    ViewsAreConverse(|order|, a, b);
  }

  lemma OrderIsDistinct(nodes: seq<Ip>, tree: nat)
    requires Ascending(nodes)
    ensures forall i, j | 0 <= i < j < |nodes| :: Order(nodes, tree)[i] != Order(nodes, tree)[j]
  {
    forall i, j | 0 <= i < j < |nodes| ensures Order(nodes, tree)[i] != Order(nodes, tree)[j] {
      AscendingAt(nodes, Place(|nodes|, tree, i), Place(|nodes|, tree, j));
    }
  }

  /**
   On the lists the nodes really compute: node p expects node q as a child in a tree exactly when q
   names p as its parent there, unless n is odd and q is last in that tree's order.
   */
  lemma LocalViewsAgree(nodes: seq<Ip>, tree: nat, p: nat, q: nat)
    requires Ascending(nodes) && |nodes| >= 2 && p < |nodes| && q < |nodes|
    ensures nodes[p] in Order(nodes, tree) && nodes[q] in Order(nodes, tree)
    ensures nodes[q] in Downstream(Order(nodes, tree), nodes[p])
            <==> nodes[p] in Upper(Order(nodes, tree), nodes[q])
                 && !(|nodes| % 2 == 1 && Place(|nodes|, tree, q) == |nodes| - 1)
  {
    PositionIsPlace(nodes, tree, p);
    PositionIsPlace(nodes, tree, q);
    OrderIsDistinct(nodes, tree);
    ViewsInOrder(Order(nodes, tree), Place(|nodes|, tree, p), Place(|nodes|, tree, q));
  }

  /** Parent steps from a place to the root. */
  function Hops(p: nat): nat {
    if p == 0 then 0 else 1 + Hops(p / 2)
  }

  /** The place reached after `k` steps along the parents that nodes name. */
  function Climb(n: nat, p: nat, k: nat): (r: nat)
    requires p < n
    ensures r < n
  {
    if k == 0 then p
    else
      var q := Climb(n, p, k - 1);
      if Out(q) == [] then q else Out(q)[0]
  }

  lemma {:induction false} ClimbFromParent(n: nat, p: nat, k: nat)
    requires 0 < p < n
    ensures Climb(n, p, k + 1) == Climb(n, p / 2, k)
  {
    if k > 0 {
      ClimbFromParent(n, p, k - 1);
    }
  }

  lemma {:induction false} HopsIsLog(p: nat, k: nat)
    requires Pow(2, k) <= p < Pow(2, k + 1)
    ensures Hops(p) == k + 1
  {
    if k > 0 {
      assert Pow(2, k + 1) == Pow(2, k) * 2 && Pow(2, k) == Pow(2, k - 1) * 2;
      HopsIsLog(p / 2, k - 1);
    } else {
      assert Pow(2, 1) == Pow(2, 0) * 2;
      assert p == 1 && Hops(1) == 1 + Hops(0);
    }
  }

  /** Every place climbs to the root in floor(log2 p) + 1 steps and not in fewer. */
  lemma {:induction false} EveryPlaceReachesRoot(n: nat, p: nat)
    requires p < n
    ensures Climb(n, p, Hops(p)) == 0
    ensures forall k: nat | k < Hops(p) :: Climb(n, p, k) != 0
  {
    if p > 0 {
      EveryPlaceReachesRoot(n, p / 2);
      ClimbFromParent(n, p, Hops(p / 2));
      forall k: nat | k < Hops(p) ensures Climb(n, p, k) != 0 {
        if k > 0 {
          ClimbFromParent(n, p, k - 1);
        }
      }
    }
  }

  /** The parent-child pairs one place lists. */
  function EdgesAt(n: nat, p: nat): (e: set<(nat, nat)>)
    ensures forall a: nat, b: nat :: (a, b) in e <==> a == p && ListsChild(n, p, b)
  {
    if p == 0 then {(0, 1)}
    else if p < n / 2 then {(p, 2 * p), (p, 2 * p + 1)}
    else {}
  }

  /** The parent-child pairs the first `m` places list. */
  function EdgesOf(n: nat, m: nat): (e: set<(nat, nat)>)
    ensures forall a: nat, b: nat :: (a, b) in e <==> a < m && ListsChild(n, a, b)
  {
    if m == 0 then {} else EdgesOf(n, m - 1) + EdgesAt(n, m - 1)
  }

  lemma EdgesApart(n: nat, m: nat)
    ensures EdgesOf(n, m) !! EdgesAt(n, m)
  {
    forall e | e in EdgesAt(n, m) ensures e !in EdgesOf(n, m) {
      assert (e.0, e.1) in EdgesAt(n, m);
    }
  }

  lemma EdgesAtCount(n: nat, p: nat)
    ensures |EdgesAt(n, p)| == if p == 0 then 1 else if p < n / 2 then 2 else 0
  {
  }

  lemma EdgesStep(n: nat, m: nat)
    ensures |EdgesOf(n, m + 1)| == |EdgesOf(n, m)| + (if m == 0 then 1 else if m < n / 2 then 2 else 0)
    ensures |EdgesOf(n, 0)| == 0
  {
    EdgesApart(n, m);
    EdgesAtCount(n, m);
    DisjointSize(EdgesOf(n, m), EdgesAt(n, m));
  }

  lemma DisjointSize<T>(a: set<T>, b: set<T>)
    requires a !! b
    ensures |a + b| == |a| + |b|
  {
  }

  lemma {:induction false} EdgeCount(n: nat, m: nat)
    requires n >= 2 && 1 <= m <= n
    ensures |EdgesOf(n, m)| == if m <= n / 2 then 2 * m - 1 else 2 * (n / 2) - 1
  {
    EdgesStep(n, m - 1);
    if m > 1 {
      EdgeCount(n, m - 1);
    }
  }

  ghost predicate HasParent(n: nat, q: nat) {
    exists p: nat :: p < n && ListsChild(n, p, q)
  }

  /**
   The listed edges of one tree: n - 1 of them for even n, a spanning tree in which every place other
   than the root is listed by exactly one parent; for odd n the last place's edge, and only that one, is missing.
   */
  lemma OneSpanningTree(n: nat)
    requires n >= 2
    ensures |EdgesOf(n, n)| == if n % 2 == 0 then n - 1 else n - 2
    ensures forall q: nat | q < n :: HasParent(n, q) <==> q != 0 && !(n % 2 == 1 && q == n - 1)
    ensures forall p: nat, p': nat, q: nat | p < n && p' < n && ListsChild(n, p, q) && ListsChild(n, p', q) :: p == p'
  {
    EdgeCount(n, n);
    forall q: nat | q < n ensures HasParent(n, q) <==> q != 0 && !(n % 2 == 1 && q == n - 1) {
      ViewsAreConverse(n, q / 2, q);
      assert q != 0 && !(n % 2 == 1 && q == n - 1) ==> ListsChild(n, q / 2, q);
      if HasParent(n, q) {
        var p: nat :| p < n && ListsChild(n, p, q);
        ViewsAreConverse(n, p, q);
      }
    }
  }

  /** For even n exactly one of the two children lists a node computes is empty: it is a leaf in exactly one tree. */
  lemma LeafInExactlyOneTree(nodes: seq<Ip>, p: nat)
    requires Ascending(nodes) && |nodes| >= 2 && |nodes| % 2 == 0 && p < |nodes|
    ensures nodes[p] in nodes && nodes[p] in Reverse(nodes)
    ensures (Downstream(nodes, nodes[p]) == []) != (Downstream(Reverse(nodes), nodes[p]) == [])
  {
    PositionIsPlace(nodes, 0, p);
    PositionIsPlace(nodes, 1, p);
  }

  lemma ParentAtPlace(nodes: seq<Ip>, tree: nat, p: nat, q: nat)
    requires Ascending(nodes) && |nodes| >= 2 && p < |nodes| && q < |nodes|
    ensures nodes[q] in Order(nodes, tree)
    ensures nodes[p] in Upper(Order(nodes, tree), nodes[q]) <==> NamesParent(Place(|nodes|, tree, q), Place(|nodes|, tree, p))
  {
    PositionIsPlace(nodes, tree, q);
    PositionIsPlace(nodes, tree, p);
    OrderIsDistinct(nodes, tree);
    NamesHas(Order(nodes, tree), Out(Place(|nodes|, tree, q)), Place(|nodes|, tree, p));
  }

  /** No node names the same parent in both trees, for any n. */
  lemma NoSharedEdge(nodes: seq<Ip>, p: nat, q: nat)
    requires Ascending(nodes) && |nodes| >= 2 && p < |nodes| && q < |nodes|
    ensures nodes[q] in nodes && nodes[q] in Reverse(nodes)
    ensures !(nodes[p] in Upper(nodes, nodes[q]) && nodes[p] in Upper(Reverse(nodes), nodes[q]))
  {
    ParentAtPlace(nodes, 0, p, q);
    ParentAtPlace(nodes, 1, p, q);
  }

  /** The connections the node at sorted place `p` waits for: what its children lists hold together. */
  function Expected(n: nat, p: nat): nat
    requires p < n
  {
    |In(n, Place(n, 0, p))| + |In(n, Place(n, 1, p))|
  }

  /** The sorted positions of the nodes that name `nodes[p]` as their parent in the given tree. */
  ghost function NodeCallers(nodes: seq<Ip>, tree: nat, p: nat): (callers: set<nat>)
    requires |nodes| >= 2 && p < |nodes|
    ensures forall q: nat :: q in callers <==> CallsIn(nodes, tree, q, p)
  {
    set q: nat | q in Below(|nodes|) && CallsIn(nodes, tree, q, p)
  }

  /** What node q's client does: it connects to the nodes in the parent list it has computed. */
  ghost predicate CallsIn(nodes: seq<Ip>, tree: nat, q: nat, p: nat)
    requires |nodes| >= 2 && p < |nodes|
  {
    q < |nodes| && nodes[q] in Order(nodes, tree) && nodes[p] in Upper(Order(nodes, tree), nodes[q])
  }

  /** By name, and by places in the tree's order. */
  lemma CallersAtPlaces(nodes: seq<Ip>, tree: nat, p: nat)
    requires Ascending(nodes) && |nodes| >= 2 && p < |nodes|
    ensures forall q: nat :: q in NodeCallers(nodes, tree, p)
              <==> q < |nodes| && NamesParent(Place(|nodes|, tree, q), Place(|nodes|, tree, p))
  {
    forall q: nat
      ensures q in NodeCallers(nodes, tree, p)
        <==> q < |nodes| && NamesParent(Place(|nodes|, tree, q), Place(|nodes|, tree, p))
    {
      if q < |nodes| {
        ParentAtPlace(nodes, tree, p, q);
      }
    }
  }

  /** A set of positions that holds exactly those whose place names `at` as its parent has as many elements as `at` has children to expect. */
  lemma CallersCount(n: nat, tree: nat, at: nat, callers: set<nat>)
    requires n >= 2 && at < n
    requires forall q: nat :: q in callers <==> q < n && NamesParent(Place(n, tree, q), at)
    ensures |callers| == if n % 2 == 1 && at == n / 2 then 1 else |In(n, at)|
  {
    if n % 2 == 1 && at == n / 2 {
      assert callers == {Place(n, tree, n - 1)};
    } else if at == 0 {
      assert callers == {Place(n, tree, 1)};
    } else if at < n / 2 {
      assert callers == {Place(n, tree, 2 * at), Place(n, tree, 2 * at + 1)};
    } else {
      assert callers == {};
    }
  }

  /** The connections a server receives: the nodes that name it as their parent, in both trees. */
  ghost function Received(nodes: seq<Ip>, p: nat): nat
    requires |nodes| >= 2 && p < |nodes|
  {
    |NodeCallers(nodes, 0, p)| + |NodeCallers(nodes, 1, p)|
  }

  /**
   Every server receives as many connections as it waits for, with one exception: for odd n the node in
   the middle waits for none and is called by two. For even n that number is 2, or 1 at the two roots.
   */
  lemma ConnectionCounts(nodes: seq<Ip>, p: nat)
    requires Ascending(nodes) && |nodes| >= 2 && p < |nodes|
    ensures var n := |nodes|;
      && (Received(nodes, p) == Expected(n, p) <==> !(n % 2 == 1 && p == n / 2))
      && (n % 2 == 1 && p == n / 2 ==> Expected(n, p) == 0 && Received(nodes, p) == 2)
      && (n % 2 == 0 ==> Expected(n, p) == if p == 0 || p == n - 1 then 1 else 2)
  {
    CallersAtPlaces(nodes, 0, p);
    CallersCount(|nodes|, 0, Place(|nodes|, 0, p), NodeCallers(nodes, 0, p));
    CallersAtPlaces(nodes, 1, p);
    CallersCount(|nodes|, 1, Place(|nodes|, 1, p), NodeCallers(nodes, 1, p));
  }

  /** The number of senders the service configures is the size of the two children lists of the node. */
  lemma ExpectedIsListSize(nodes: seq<Ip>, p: nat)
    requires Ascending(nodes) && |nodes| >= 2 && p < |nodes|
    ensures nodes[p] in nodes && nodes[p] in Reverse(nodes)
    ensures |Downstream(nodes, nodes[p])| + |Downstream(Reverse(nodes), nodes[p])| == Expected(|nodes|, p)
  {
    PositionIsPlace(nodes, 0, p);
    PositionIsPlace(nodes, 1, p);
  }
}
