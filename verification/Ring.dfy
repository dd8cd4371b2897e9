/** The ring: every node picks its next hop from its own sorted list of the others. */
module Ring {
  import opened Arith
  import opened Cluster
  import opened Wrappers

  /** The position of the first listed node above `local`, or the list's length. */
  function FirstAbove(local: Ip, cluster: seq<Ip>): (k: nat)
    ensures k <= |cluster|
    ensures forall j | 0 <= j < k :: !Less(local, cluster[j])
    ensures k < |cluster| ==> Less(local, cluster[k])
  {
    if cluster == [] || Less(local, cluster[0]) then 0 else 1 + FirstAbove(local, cluster[1..])
  }

  function NextHop(local: Ip, cluster: seq<Ip>): Ip
    requires cluster != []
  {
    var k := FirstAbove(local, cluster);
    if k < |cluster| then cluster[k] else cluster[0]
  }

  /** The first listed address that follows `local` in lexicographic order. */
  ghost predicate FirstFollowing(local: Ip, cluster: seq<Ip>, k: nat) {
    k < |cluster| && Precedes(local, cluster[k]) && forall j | 0 <= j < k :: !Precedes(local, cluster[j])
  }

  lemma HopFollows(local: Ip, cluster: seq<Ip>)
    requires cluster != []
    ensures forall k: nat :: FirstFollowing(local, cluster, k) ==> NextHop(local, cluster) == cluster[k]
    ensures (forall k: nat :: !FirstFollowing(local, cluster, k)) ==> NextHop(local, cluster) == cluster[0]
  {
    forall j | 0 <= j < |cluster| ensures Less(local, cluster[j]) <==> Precedes(local, cluster[j]) {
      LessIsLexicographic(local, cluster[j]);
    }
    var above := FirstAbove(local, cluster);
    assert above < |cluster| ==> FirstFollowing(local, cluster, above);
  }

  /** An empty address doubles as "not found"; no address lies below it, so it is never a hit. */
  method GetNeighboringNode(thisIp: Ip, cluster: seq<Ip>) returns (r: Result<Ip>)
    ensures r.Fatal? <==> cluster == []
    ensures r.Ok? ==> r.value == NextHop(thisIp, cluster)
    ensures r.Ok? ==> if exists k: nat :: FirstFollowing(thisIp, cluster, k)
                      then exists k: nat :: FirstFollowing(thisIp, cluster, k) && r.value == cluster[k] else r.value == cluster[0]
  {
    if cluster != [] {
      HopFollows(thisIp, cluster);
    }
    var nextHop: Ip := "";
    for k := 0 to |cluster|
      invariant nextHop == "" && forall j | 0 <= j < k :: !Less(thisIp, cluster[j])
    {
      if Less(thisIp, cluster[k]) {
        nextHop := cluster[k];
        assert FirstAbove(thisIp, cluster) == k;
        break;
      }
    }
    if |nextHop| == 0 && |cluster| != 0 {
      nextHop := cluster[0];
    } else if |cluster| == 0 {
      return Fatal;
    }
    return Ok(nextHop);
  }

  /** A node's next hop, computed from its own list of the others. */
  function HopFrom(nodes: seq<Ip>, p: nat): Ip
    requires p < |nodes| && |nodes| >= 2
  {
    NextHop(nodes[p], Without(nodes, p))
  }

  lemma HopIsSuccessor(nodes: seq<Ip>, p: nat)
    requires Ascending(nodes) && |nodes| >= 2 && p < |nodes|
    ensures HopFrom(nodes, p) == nodes[(p + 1) % |nodes|]
  {
    var others := Without(nodes, p);
    forall j | 0 <= j < |others| ensures Less(nodes[p], others[j]) <==> j >= p {
      AscendingAt(nodes, p, if j < p then j else j + 1);
    }
    var k := FirstAbove(nodes[p], others);
    assert k < |others| ==> Less(nodes[p], others[k]);
    assert p < |others| ==> Less(nodes[p], others[p]);
    assert k == p;
    if p + 1 == |nodes| {
      ModOf(1, 0, |nodes|);
    } else {
      ModOf(0, p + 1, |nodes|);
    }
  }

  ghost function IndexOf(nodes: seq<Ip>, ip: Ip): (p: nat)
    requires ip in nodes
    ensures p < |nodes| && nodes[p] == ip
  {
    var p :| 0 <= p < |nodes| && nodes[p] == ip;
    p
  }

  /** The node reached after `k` hops, each computed by the node the walk has reached. */
  ghost function Walk(nodes: seq<Ip>, ip: Ip, k: nat): (r: Ip)
    requires Ascending(nodes) && |nodes| >= 2 && ip in nodes
    ensures r in nodes
  {
    if k == 0 then ip
    else
      var at := IndexOf(nodes, Walk(nodes, ip, k - 1));
      HopIsSuccessor(nodes, at);
      HopFrom(nodes, at)
  }

  /** One hop from the position `k` places after `p`. */
  lemma HopOnWalk(nodes: seq<Ip>, p: nat, k: nat, at: nat)
    requires Ascending(nodes) && |nodes| >= 2 && p < |nodes| && at < |nodes|
    requires nodes[at] == nodes[(p + k) % |nodes|]
    ensures HopFrom(nodes, at) == nodes[(p + k + 1) % |nodes|]
  {
    AscendingAt(nodes, at, (p + k) % |nodes|);
    HopIsSuccessor(nodes, at);
    ModSucc(p + k, |nodes|);
    ModSucc(at, |nodes|);
    ModOf(0, at, |nodes|);
  }

  lemma WalkOn(nodes: seq<Ip>, p: nat, k: nat)
    requires Ascending(nodes) && |nodes| >= 2 && p < |nodes| && k > 0
    requires Walk(nodes, nodes[p], k - 1) == nodes[(p + (k - 1)) % |nodes|]
    ensures Walk(nodes, nodes[p], k) == nodes[(p + k) % |nodes|]
  {
    var at := IndexOf(nodes, Walk(nodes, nodes[p], k - 1));
    HopOnWalk(nodes, p, k - 1, at);
    assert Walk(nodes, nodes[p], k) == HopFrom(nodes, at);
  }

  lemma {:induction false} WalkAt(nodes: seq<Ip>, p: nat, k: nat)
    requires Ascending(nodes) && |nodes| >= 2 && p < |nodes|
    ensures Walk(nodes, nodes[p], k) == nodes[(p + k) % |nodes|]
  {
    if k == 0 {
      ModOf(0, p, |nodes|);
    } else {
      WalkAt(nodes, p, k - 1);
      WalkOn(nodes, p, k);
    }
  }

  /** The number of hops from position `p` to position `q`, among 0 to n - 1, and no other. */
  lemma HopsBetween(p: nat, q: nat, n: nat, k: nat)
    requires p < n && q < n && k < n
    ensures (p + k) % n == q <==> k == if p <= q then q - p else q + n - p
  {
    if p + k < n {
      ModOf(0, p + k, n);
    } else {
      ModOf(1, p + k - n, n);
    }
  }

  lemma WalkMeets(nodes: seq<Ip>, p: nat, q: nat, k: nat)
    requires Ascending(nodes) && |nodes| >= 2 && p < |nodes| && q < |nodes| && k < |nodes|
    ensures Walk(nodes, nodes[p], k) == nodes[q] <==> k == if p <= q then q - p else q + |nodes| - p
  {
    WalkAt(nodes, p, k);
    HopsBetween(p, q, |nodes|, k);
    AscendingAt(nodes, (p + k) % |nodes|, q);
  }

  /** After n hops the walk is back where it started. */
  lemma WalkReturns(nodes: seq<Ip>, p: nat)
    requires Ascending(nodes) && |nodes| >= 2 && p < |nodes|
    ensures Walk(nodes, nodes[p], |nodes|) == nodes[p]
  {
    var n := |nodes|;
    ModOf(1, p, n);
    assert (p + n) % n == p;
    WalkAt(nodes, p, n);
  }

  /**
   The next hops form one cycle: from any node every node is reached by exactly one number of hops
   below n, and only 0 leads back to the start, until the n-th hop returns there.
   */
  lemma RingIsOneCycle(nodes: seq<Ip>, p: nat, q: nat)
    requires Ascending(nodes) && |nodes| >= 2 && p < |nodes| && q < |nodes|
    ensures Walk(nodes, nodes[p], |nodes|) == nodes[p]
    ensures forall k: nat | k < |nodes| :: Walk(nodes, nodes[p], k) == nodes[q] <==> k == if p <= q then q - p else q + |nodes| - p
  {
    WalkReturns(nodes, p);
    forall k: nat | k < |nodes|
      ensures Walk(nodes, nodes[p], k) == nodes[q] <==> k == if p <= q then q - p else q + |nodes| - p
    {
      WalkMeets(nodes, p, q, k);
    }
  }

  /** Every node is the next hop of exactly one node, which is another one: the one connection its server waits for. */
  lemma OneConnectionPerServer(nodes: seq<Ip>, q: nat)
    requires Ascending(nodes) && |nodes| >= 2 && q < |nodes|
    ensures var from := if q == 0 then |nodes| - 1 else q - 1;
            && from != q
            && forall p: nat | p < |nodes| :: HopFrom(nodes, p) == nodes[q] <==> p == from
  {
    forall p: nat | p < |nodes|
      ensures HopFrom(nodes, p) == nodes[q] <==> p == if q == 0 then |nodes| - 1 else q - 1
    {
      HopIsSuccessor(nodes, p);
      if p + 1 == |nodes| {
        ModOf(1, 0, |nodes|);
      } else {
        ModOf(0, p + 1, |nodes|);
      }
      AscendingAt(nodes, (p + 1) % |nodes|, q);
    }
  }

  /** The same from the command line on: any order of the arguments at any node leads to the same ring. */
  lemma RingFromCommandLine(args: seq<Ip>, nodes: seq<Ip>, p: nat)
    requires Ascending(nodes) && |nodes| >= 2 && multiset(args) == multiset(nodes) && p < |nodes|
    ensures OthersOf(args, nodes[p]) != []
    ensures NextHop(nodes[p], OthersOf(args, nodes[p])) == nodes[(p + 1) % |nodes|]
  {
    OthersAreSorted(args, nodes, p);
    HopIsSuccessor(nodes, p);
  }
}
