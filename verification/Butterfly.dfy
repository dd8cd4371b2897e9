/**
 The groups of all nodes together: local views agree, every server is called as often as it expects, and
 a stage-by-stage exchange along the groups gives every node every contribution exactly once.
 */
module Butterfly {
  import opened Arith
  import opened Cluster
  import opened SubGroups
  import opened Wrappers

  /** A lists B at stage j exactly when B lists A, and then both compute the same group. */
  lemma ViewsAgreeOnGroups(w: nat, j: nat, p: nat, q: nat)
    requires w >= 1
    ensures q in Positions(w, j, p) <==> p in Positions(w, j, q)
    ensures q in Positions(w, j, p) ==> Positions(w, j, q) == Positions(w, j, p)
    ensures p in Positions(w, j, p)
  {
    GroupIsClass(w, j, p, q);
    GroupIsClass(w, j, q, p);
    GroupIsClass(w, j, p, p);
    if q in Positions(w, j, p) {
      forall t | 0 <= t < w ensures Positions(w, j, q)[t] == Positions(w, j, p)[t] {
      }
    }
  }

  /** Two different nodes meet in at most one stage. */
  lemma OneCommonStage(w: nat, i: nat, j: nat, p: nat, q: nat)
    requires w >= 1 && i < j
    requires q in Positions(w, i, p) && q in Positions(w, j, p)
    ensures p == q
  {
    GroupIsClass(w, i, p, q);
    GroupIsClass(w, j, p, q);
    PowPositive(w, i + 1);
    PowPositive(w, j);
    PowPositive(w, j - i - 1);
    PowAdd(w, i + 1, j - i - 1);
    SameBlockSameOffset(p, q, Pow(w, i + 1), Pow(w, j - i - 1));
  }

  lemma SameBlockSameOffset(p: nat, q: nat, a: nat, b: nat)
    requires a > 0 && b > 0 && a * b > 0
    requires p / a == q / a && p % (a * b) == q % (a * b)
    ensures p == q
  {
    DivDiv(p, a, b);
    DivDiv(q, a, b);
    var c := a * b;
    assert p / c == q / c;
    assert p == (p / c) * c + p % c;
    assert q == (q / c) * c + q % c;
  }

  /** The positions a node exchanges with in its first `m` stages, in the order of its groups. */
  function Peers(w: nat, m: nat, p: nat): seq<nat>
    requires w >= 1
  {
    if m == 0 then [] else Peers(w, m - 1, p) + Drop<nat>(Positions(w, m - 1, p), p)
  }

  ghost predicate Distinct<T>(s: seq<T>) {
    forall i, j | 0 <= i < j < |s| :: s[i] != s[j]
  }

  lemma {:induction false} DropDistinct<T(!new)>(s: seq<T>, x: T)
    requires Distinct(s)
    ensures Distinct(Drop(s, x)) && |Drop(s, x)| == if x in s then |s| - 1 else |s|
  {
    if s != [] {
      var init, last := s[..|s| - 1], s[|s| - 1];
      assert last !in init;
      DropDistinct(init, x);
      assert s == init + [last];
      assert last !in Drop(init, x);
      DistinctAppend(Drop(init, x), if last != x then [last] else []);
    }
  }

  lemma DistinctAppend<T>(a: seq<T>, b: seq<T>)
    requires Distinct(a) && Distinct(b) && forall x | x in b :: x !in a
    ensures Distinct(a + b)
  {
    forall i, j | 0 <= i < j < |a + b| ensures (a + b)[i] != (a + b)[j] {
      assert j >= |a| ==> b[j - |a|] in b;
    }
  }

  lemma {:induction false} PeersMember(w: nat, m: nat, p: nat, q: nat)
    requires w >= 1
    ensures q in Peers(w, m, p) <==> q != p && exists j: nat :: j < m && q in Positions(w, j, p)
  {
    if m > 0 {
      PeersMember(w, m - 1, p, q);
      assert q in Peers(w, m, p) <==> q in Peers(w, m - 1, p) || (q in Positions(w, m - 1, p) && q != p);
    }
  }

  lemma NewPeer(w: nat, m: nat, p: nat, q: nat)
    requires w >= 1 && q in Positions(w, m, p) && q != p
    ensures q !in Peers(w, m, p)
  {
    PeersMember(w, m, p, q);
    if q in Peers(w, m, p) {
      var i: nat :| i < m && q in Positions(w, i, p);
      OneCommonStage(w, i, m, p, q);
    }
  }

  /** A node lists (w - 1) * m peers in m stages, none of them twice and never itself. */
  lemma {:induction false} PeersAreDistinct(w: nat, m: nat, p: nat)
    requires w >= 1
    ensures Distinct(Peers(w, m, p)) && |Peers(w, m, p)| == (w - 1) * m && p !in Peers(w, m, p)
  {
    if m > 0 {
      PeersAreDistinct(w, m - 1, p);
      var more := Drop<nat>(Positions(w, m - 1, p), p);
      GroupIsClass(w, m - 1, p, p);
      DropDistinct(Positions(w, m - 1, p), p);
      forall q | q in more ensures q !in Peers(w, m - 1, p) {
        NewPeer(w, m - 1, p, q);
      }
      DistinctAppend(Peers(w, m - 1, p), more);
      OneMoreRow(w - 1, m);
    }
  }

  lemma OneMoreRow(a: nat, m: nat)
    requires m > 0
    ensures a * m == a * (m - 1) + a
  {
  }

  /** The positions whose clients connect to `p`. */
  ghost function Callers(w: nat, k: nat, p: nat): set<nat>
    requires w >= 1
  {
    set q: nat | q in Below(Pow(w, k)) && p in Peers(w, k, q)
  }

  function Elements(s: seq<nat>): (e: set<nat>)
    ensures forall x: nat :: x in e <==> x in s
  {
    if s == [] then {} else Elements(s[..|s| - 1]) + {s[|s| - 1]}
  }

  lemma {:induction false} DistinctCard(s: seq<nat>)
    requires Distinct(s)
    ensures |Elements(s)| == |s|
  {
    if s != [] {
      var init, last := s[..|s| - 1], s[|s| - 1];
      DistinctCard(init);
      assert last !in init;
    }
  }

  /** Every server expects (w - 1) * k connections, which is also the number of clients that call it. */
  lemma ExpectedEqualsReceived(w: nat, k: nat, p: nat)
    requires w >= 1 && p < Pow(w, k)
    ensures Callers(w, k, p) == Elements(Peers(w, k, p))
    ensures |Callers(w, k, p)| == |Peers(w, k, p)| == (w - 1) * k
  {
    forall q: nat ensures q in Callers(w, k, p) <==> q in Peers(w, k, p) {
      PeersMember(w, k, p, q);
      PeersMember(w, k, q, p);
      forall j: nat | j < k ensures p in Positions(w, j, q) <==> q in Positions(w, j, p) {
        ViewsAgreeOnGroups(w, j, p, q);
      }
      if q in Peers(w, k, p) {
        var j: nat :| j < k && q in Positions(w, j, p);
        var t :| 0 <= t < w && Positions(w, j, p)[t] == q;
        MemberInCluster(w, k, j, p, t);
      }
    }
    PeersAreDistinct(w, k, p);
    DistinctCard(Peers(w, k, p));
  }

  /** All addresses of a list of groups, in order. */
  function Flatten(groups: seq<seq<Ip>>): seq<Ip> {
    if groups == [] then [] else Flatten(groups[..|groups| - 1]) + groups[|groups| - 1]
  }

  lemma {:induction false} DropNames(nodes: seq<Ip>, ps: seq<nat>, p: nat)
    requires Distinct(nodes) && p < |nodes| && forall i | 0 <= i < |ps| :: ps[i] < |nodes|
    ensures forall i | 0 <= i < |Drop<nat>(ps, p)| :: Drop<nat>(ps, p)[i] < |nodes|
    ensures Drop(Names(nodes, ps), nodes[p]) == Names(nodes, Drop<nat>(ps, p))
  {
    if ps != [] {
      var init, last := ps[..|ps| - 1], ps[|ps| - 1];
      DropNames(nodes, init, p);
      assert Names(nodes, ps)[..|ps| - 1] == Names(nodes, init);
      assert nodes[last] == nodes[p] <==> last == p;
    }
  }

  lemma AscendingDistinct(nodes: seq<Ip>)
    requires Ascending(nodes)
    ensures Distinct(nodes)
  {
    forall i, j | 0 <= i < j < |nodes| ensures nodes[i] != nodes[j] {
      AscendingAt(nodes, i, j);
    }
  }

  /** The filtered groups a node computes name its peers: `num_size` is their number and the client threads call each of them once. */
  lemma GroupsNamePeers(nodes: seq<Ip>, w: nat, k: nat, p: nat)
    requires IsCluster(nodes, w, k) && p < |nodes|
    ensures forall i | 0 <= i < |Peers(w, k, p)| :: Peers(w, k, p)[i] < |nodes|
    ensures Flatten(DropFromAll(Groups(nodes, w, k, p), nodes[p])) == Names(nodes, Peers(w, k, p))
  {
    var filtered := DropFromAll(Groups(nodes, w, k, p), nodes[p]);
    forall j: nat | j < k ensures NamesStage(nodes, w, p, j, filtered[j]) {
      FilteredGroup(nodes, w, k, p, j);
    }
    FlattenPrefix(nodes, w, p, filtered, k);
    assert filtered[..k] == filtered;
  }

  /** One filtered group: the stage's positions without p, by name. */
  ghost predicate NamesStage(nodes: seq<Ip>, w: nat, p: nat, j: nat, group: seq<Ip>)
    requires w >= 1
  {
    var others := Drop<nat>(Positions(w, j, p), p);
    (forall i | 0 <= i < |others| :: others[i] < |nodes|) && group == Names(nodes, others)
  }

  lemma FilteredGroup(nodes: seq<Ip>, w: nat, k: nat, p: nat, j: nat)
    requires IsCluster(nodes, w, k) && p < |nodes| && j < k
    ensures NamesStage(nodes, w, p, j, DropFromAll(Groups(nodes, w, k, p), nodes[p])[j])
  {
    var ps := Positions(w, j, p);
    forall t | 0 <= t < w ensures ps[t] < |nodes| {
      MemberInCluster(w, k, j, p, t);
    }
    AscendingDistinct(nodes);
    DropNames(nodes, ps, p);
    assert Groups(nodes, w, k, p)[j] == Group(nodes, w, j, p) == Names(nodes, ps);
  }

  lemma {:induction false} FlattenPrefix(nodes: seq<Ip>, w: nat, p: nat, filtered: seq<seq<Ip>>, m: nat)
    requires w >= 1 && m <= |filtered| && forall j: nat | j < |filtered| :: NamesStage(nodes, w, p, j, filtered[j])
    ensures forall i | 0 <= i < |Peers(w, m, p)| :: Peers(w, m, p)[i] < |nodes|
    ensures Flatten(filtered[..m]) == Names(nodes, Peers(w, m, p))
  {
    if m > 0 {
      FlattenPrefix(nodes, w, p, filtered, m - 1);
      assert NamesStage(nodes, w, p, m - 1, filtered[m - 1]);
      FlattenLast(filtered, m);
      NamesAppend(nodes, Flatten(filtered[..m - 1]), Peers(w, m - 1, p), filtered[m - 1], Drop<nat>(Positions(w, m - 1, p), p));
    }
  }

  lemma NamesAppend(nodes: seq<Ip>, flat: seq<Ip>, peers: seq<nat>, group: seq<Ip>, others: seq<nat>)
    requires (forall i | 0 <= i < |peers| :: peers[i] < |nodes|) && flat == Names(nodes, peers)
    requires (forall i | 0 <= i < |others| :: others[i] < |nodes|) && group == Names(nodes, others)
    ensures forall i | 0 <= i < |peers + others| :: (peers + others)[i] < |nodes|
    ensures flat + group == Names(nodes, peers + others)
  {
  }

  lemma FlattenLast(groups: seq<seq<Ip>>, m: nat)
    requires 0 < m <= |groups|
    ensures Flatten(groups[..m]) == Flatten(groups[..m - 1]) + groups[m - 1]
  {
    assert groups[..m][..m - 1] == groups[..m - 1];
  }

  /** The server's search for the group of a connecting peer: the first group that lists it. */
  method FindGroup(subGroups: seq<seq<Ip>>, peerIp: Ip) returns (r: Result<nat>)
    ensures r.Fatal? <==> forall g | 0 <= g < |subGroups| :: peerIp !in subGroups[g]
    ensures r.Ok? ==> r.value < |subGroups| && peerIp in subGroups[r.value]
                      && forall g | 0 <= g < r.value :: peerIp !in subGroups[g]
  {
    var groupId := 0;
    var found := false;
    while groupId < |subGroups|
      invariant groupId <= |subGroups| && !found
      invariant forall g | 0 <= g < groupId :: peerIp !in subGroups[g]
    {
      for i := 0 to |subGroups[groupId]|
        invariant found <==> peerIp in subGroups[groupId][..i]
      {
        if subGroups[groupId][i] == peerIp {
          found := true;
        }
      }
      assert subGroups[groupId] == subGroups[groupId][..|subGroups[groupId]|];
      if found {
        return Ok(groupId);
      }
      groupId := groupId + 1;
    }
    return Fatal;
  }

  /** The one group of p's server that lists q is the stage at which q lists p. */
  lemma LookupGivesStage(nodes: seq<Ip>, w: nat, k: nat, p: nat, q: nat, g: nat, j: nat)
    requires IsCluster(nodes, w, k) && p < |nodes| && q < |nodes| && p != q && g < k && j < k
    requires nodes[p] in DropFromAll(Groups(nodes, w, k, q), nodes[q])[j]
    ensures nodes[q] in DropFromAll(Groups(nodes, w, k, p), nodes[p])[g] <==> g == j
  {
    ListedByName(nodes, w, k, q, p, j);
    ListedByName(nodes, w, k, p, q, g);
    ViewsAgreeOnGroups(w, j, p, q);
    if q in Positions(w, g, p) {
      if g < j {
        OneCommonStage(w, g, j, p, q);
      } else if j < g {
        OneCommonStage(w, j, g, p, q);
      }
    }
  }

  lemma ListedByName(nodes: seq<Ip>, w: nat, k: nat, p: nat, q: nat, j: nat)
    requires IsCluster(nodes, w, k) && p < |nodes| && q < |nodes| && p != q && j < k
    ensures nodes[q] in DropFromAll(Groups(nodes, w, k, p), nodes[p])[j] <==> q in Positions(w, j, p)
  {
    FilteredGroup(nodes, w, k, p, j);
    var others := Drop<nat>(Positions(w, j, p), p);
    AscendingDistinct(nodes);
    NamedIff(nodes, others, q);
  }

  lemma NamedIff(nodes: seq<Ip>, ps: seq<nat>, q: nat)
    requires Distinct(nodes) && q < |nodes| && forall i | 0 <= i < |ps| :: ps[i] < |nodes|
    ensures nodes[q] in Names(nodes, ps) <==> q in ps
  {
    if q in ps {
      var i :| 0 <= i < |ps| && ps[i] == q;
      assert Names(nodes, ps)[i] == nodes[q];
    }
  }

  /** What a node holds after the first `j` stages: its own contribution, then at each stage the sum over its group. */
  ghost function Held(w: nat, j: nat, p: nat): multiset<nat>
    requires w >= 1
    decreases j
  {
    if j == 0 then multiset{p}
    else Together(seq(w, t requires 0 <= t < w => Held(w, j - 1, Positions(w, j - 1, p)[t])))
  }

  ghost function Together(parts: seq<multiset<nat>>): multiset<nat> {
    if parts == [] then multiset{} else Together(parts[..|parts| - 1]) + parts[|parts| - 1]
  }

  /** Each of `len` consecutive positions once. */
  ghost function Interval(lo: nat, len: nat): (m: multiset<nat>)
    ensures forall x: nat :: m[x] == if lo <= x < lo + len then 1 else 0
  {
    if len == 0 then multiset{} else Interval(lo, len - 1) + multiset{lo + len - 1}
  }

  lemma IntervalAppend(lo: nat, a: nat, b: nat)
    ensures Interval(lo, a) + Interval(lo + a, b) == Interval(lo, a + b)
  {
  }

  lemma OneMoreBlock(lo: nat, t: nat, size: nat)
    ensures Interval(lo, Times(t, size)) + Interval(lo + Times(t, size), size) == Interval(lo, Times(t + 1, size))
  {
    IntervalAppend(lo, Times(t, size), size);
    assert (t + 1) * size == t * size + size;
  }

  lemma NoBlocks(lo: nat, size: nat)
    ensures Interval(lo, Times(0, size)) == multiset{}
  {
    assert Times(0, size) == 0;
  }

  /** Members that bring one block after the other together bring all of them. */
  lemma {:induction false} BlocksTogether(parts: seq<multiset<nat>>, lo: nat, size: nat)
    requires forall i: nat | i < |parts| :: parts[i] == Interval(lo + Times(i, size), size)
    ensures Together(parts) == Interval(lo, Times(|parts|, size))
  {
    if parts != [] {
      BlocksTogether(parts[..|parts| - 1], lo, size);
      OneMoreBlock(lo, |parts| - 1, size);
    } else {
      NoBlocks(lo, size);
    }
  }

  /** The t-th member's block is the t-th of the w blocks the group spans. */
  lemma BlockOfMember(w: nat, j: nat, p: nat, t: nat)
    requires t < w
    ensures Pow(w, j) > 0 && Pow(w, j + 1) > 0
    ensures Block(Member(w, j, p, t), Pow(w, j)) == Block(p, Pow(w, j + 1)) + Times(t, Pow(w, j))
  {
    PowPositive(w, j);
    PowPositive(w, j + 1);
    MemberHasDigit(w, j, p, t);
    Regroup(p / Pow(w, j + 1), t, Pow(w, j), w);
  }

  lemma MemberBrings(w: nat, j: nat, p: nat, t: nat, part: multiset<nat>, lo: nat, size: nat)
    requires t < w && size == Pow(w, j) > 0 && Pow(w, j + 1) > 0 && lo == Block(p, Pow(w, j + 1))
    requires part == Interval(Block(Member(w, j, p, t), size), size)
    ensures part == Interval(lo + Times(t, size), size)
  {
    BlockOfMember(w, j, p, t);
  }

  /** After j stages a node holds exactly the aligned block of w^j positions around it, each once. */
  lemma {:induction false} HeldIsBlock(w: nat, j: nat, p: nat)
    requires w >= 1
    ensures Pow(w, j) > 0
    ensures Held(w, j, p) == Interval(Block(p, Pow(w, j)), Pow(w, j))
    decreases j
  {
    PowPositive(w, j);
    if j > 0 {
      var ps, lo, size := Positions(w, j - 1, p), Block(p, Pow(w, j)), Pow(w, j - 1);
      var parts := seq(w, t requires 0 <= t < w => Held(w, j - 1, ps[t]));
      forall i: nat | i < w ensures parts[i] == Interval(lo + Times(i, size), size) {
        HeldIsBlock(w, j - 1, ps[i]);
        MemberBrings(w, j - 1, p, i, parts[i], lo, size);
      }
      BlocksTogether(parts, lo, size);
      assert Held(w, j, p) == Together(parts);
      assert Times(w, size) == Pow(w, j);
    }
  }

  /** After the last stage every node holds the contribution of every node of the cluster exactly once. */
  lemma EveryoneHoldsEverything(w: nat, k: nat, p: nat)
    requires w >= 1 && p < Pow(w, k)
    ensures forall q: nat :: Held(w, k, p)[q] == if q < Pow(w, k) then 1 else 0
  {
    HeldIsBlock(w, k, p);
    ModOf(0, p, Pow(w, k));
  }
}
