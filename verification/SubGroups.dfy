/**
 The groups of the tree allreduce: at stage j a node exchanges with the nodes whose position in the
 sorted cluster differs from its own in the j-th base-w digit only.
 */
module SubGroups {
  import opened Arith
  import opened Cluster
  import opened Wrappers

  /** The sizes the tree can run on. */
  ghost predicate IsPower(w: nat, n: nat) {
    exists k: nat :: k >= 1 && n == Pow(w, k)
  }

  lemma PowerQuotient(w: nat, m: nat)
    requires w >= 2 && m > 0
    ensures m != w && m % w != 0 ==> !IsPower(w, m)
    ensures m != w && m % w == 0 ==> (IsPower(w, m) <==> IsPower(w, m / w))
  {
    forall k: nat | k >= 1 && m == Pow(w, k) && m != w ensures m % w == 0 && m / w == Pow(w, k - 1) && k >= 2 {
      assert Pow(w, 1) == Pow(w, 0) * w == w;
      ModOf(Pow(w, k - 1), 0, w);
    }
    if m != w && m % w == 0 && IsPower(w, m / w) {
      var k: nat :| k >= 1 && m / w == Pow(w, k);
      assert m == (m / w) * w == Pow(w, k + 1);
    }
    if m != w && m % w == 0 && IsPower(w, m) {
      var k: nat :| k >= 1 && m == Pow(w, k);
      assert k - 1 >= 1 && m / w == Pow(w, k - 1);
    }
  }

  lemma FirstPower(w: nat)
    ensures IsPower(w, w)
  {
    assert Pow(w, 1) == Pow(w, 0) * w;
  }

  lemma QuotientShrinks(m: nat, w: nat)
    requires w >= 2 && m > 0 && m % w == 0
    ensures 0 < m / w < m
  {
    var q := m / w;
    assert m == q * w;
    MulLe(2, w, q);
  }

  /** What one turn of the size check does to its variable, for a width of at least 1; `None` when the check is over. */
  function CheckTurn(w: nat, tmp: nat): Option<nat>
    requires w >= 1
  {
    if tmp == 0 || tmp == w || tmp % w != 0 then None else Some(tmp / w)
  }

  /** The variable after `k` turns, if the check lasts that long. */
  function AfterTurns(w: nat, n: nat, k: nat): Option<nat>
    requires w >= 1
  {
    if k == 0 then Some(n)
    else
      var before := AfterTurns(w, n, k - 1);
      if before.None? then None else CheckTurn(w, before.value)
  }

  /** The check ends for every width but 1, and for width 1 only in a cluster of a single node. */
  predicate CheckEnds(w: nat, n: nat) {
    w >= 1 && n >= 1 && (w == 1 ==> n == 1)
  }

  /** The size check ends and accepts exactly the powers of the width. */
  method CheckClusterSize(clusterSize: nat, treeWidth: nat) returns (ok: bool)
    requires CheckEnds(treeWidth, clusterSize)
    ensures ok <==> IsPower(treeWidth, clusterSize)
    ensures exists turns :: AfterTurns(treeWidth, clusterSize, turns).None?
  {
    var tmp: nat := clusterSize;
    ghost var turns: nat := 0;
    ok := true;
    while tmp > 0
      invariant tmp >= 1 && ok
      invariant AfterTurns(treeWidth, clusterSize, turns) == Some(tmp)
      invariant IsPower(treeWidth, tmp) <==> IsPower(treeWidth, clusterSize)
    {
      turns := turns + 1;
      if tmp == treeWidth {
        FirstPower(treeWidth);
        break;
      }
      PowerQuotient(treeWidth, tmp);
      if tmp % treeWidth != 0 {
        ok := false;
        break;
      }
      QuotientShrinks(tmp, treeWidth);
      tmp := tmp / treeWidth;
    }
    assert AfterTurns(treeWidth, clusterSize, turns).None?;
  }

  /** The configuration admits width 1 as well, for which the check of any larger cluster goes on for ever, and only of those. */
  lemma {:induction false} WidthOneNeverEnds(n: nat, turns: nat)
    ensures n >= 2 ==> AfterTurns(1, n, turns) == Some(n)
    ensures n < 2 ==> AfterTurns(1, n, turns + 1) == None
  {
    ModOf(n, 0, 1);
    if turns > 0 {
      WidthOneNeverEnds(n, turns - 1);
    }
  }

  lemma {:induction false} EndsFrom(w: nat, n: nat, k: nat, tmp: nat) returns (turns: nat)
    requires w >= 2 && tmp >= 1 && AfterTurns(w, n, k) == Some(tmp)
    ensures AfterTurns(w, n, turns) == None
    decreases tmp
  {
    if CheckTurn(w, tmp) == None {
      turns := k + 1;
    } else {
      QuotientShrinks(tmp, w);
      turns := EndsFrom(w, n, k + 1, tmp / w);
    }
  }

  /** The check ends exactly for the widths and sizes of `CheckEnds`. */
  lemma SizeCheckEnds(w: nat, n: nat)
    requires w >= 1 && n >= 1
    ensures (exists turns :: AfterTurns(w, n, turns) == None) <==> CheckEnds(w, n)
  {
    if w >= 2 {
      var turns := EndsFrom(w, n, 0, n);
    } else {
      WidthOneNeverEnds(n, 0);
      forall turns: nat | n >= 2 ensures AfterTurns(w, n, turns) == Some(n) {
        WidthOneNeverEnds(n, turns);
      }
    }
  }

  function Times(a: nat, b: nat): (r: nat)
    ensures r == a * b
  {
    MulLe(0, a, b);
    a * b
  }

  /** Where the aligned block of `size` positions holding `p` begins. */
  function Block(p: nat, size: nat): (r: nat)
    requires size > 0
    ensures r <= p && r == (p / size) * size == p - p % size
  {
    assert p == (p / size) * size + p % size;
    p - p % size
  }

  /** The position of the `t`-th member of the stage-j group of position `p`. */
  function Member(w: nat, j: nat, p: nat, t: nat): nat
    requires w >= 1
  {
    PowPositive(w, j);
    PowPositive(w, j + 1);
    Block(p, Pow(w, j + 1)) + Times(t, Pow(w, j)) + p % Pow(w, j)
  }

  function Positions(w: nat, j: nat, p: nat): (ps: seq<nat>)
    requires w >= 1
    ensures |ps| == w && forall t | 0 <= t < w :: ps[t] == Member(w, j, p, t)
  {
    seq(w, t requires 0 <= t < w => Member(w, j, p, t))
  }

  /** Same block of w^(j+1) positions and same offset in blocks of w^j: they differ in digit j at most. */
  predicate SameGroup(w: nat, j: nat, p: nat, q: nat)
    requires w >= 1
  {
    PowPositive(w, j);
    PowPositive(w, j + 1);
    p / Pow(w, j + 1) == q / Pow(w, j + 1) && p % Pow(w, j) == q % Pow(w, j)
  }

  lemma MemberHasDigit(w: nat, j: nat, p: nat, t: nat)
    requires t < w
    ensures SameGroup(w, j, p, Member(w, j, p, t))
    ensures Pow(w, j) > 0 && Member(w, j, p, t) / Pow(w, j) == (p / Pow(w, j + 1)) * w + t
  {
    PowPositive(w, j);
    PowPositive(w, j + 1);
    Split(p / Pow(w, j + 1), t, p % Pow(w, j), Pow(w, j), w);
  }

  /** A group lists exactly the positions related to `p`, each once. */
  lemma GroupIsClass(w: nat, j: nat, p: nat, q: nat)
    requires w >= 1
    ensures q in Positions(w, j, p) <==> SameGroup(w, j, p, q)
    ensures forall t, t' | 0 <= t < t' < w :: Positions(w, j, p)[t] < Positions(w, j, p)[t']
  {
    PowPositive(w, j);
    PowPositive(w, j + 1);
    if q in Positions(w, j, p) {
      var t :| 0 <= t < w && Positions(w, j, p)[t] == q;
      MemberHasDigit(w, j, p, t);
    }
    if SameGroup(w, j, p, q) {
      var t := Digits(q, Pow(w, j), w);
      assert Positions(w, j, p)[t] == q;
    }
    forall t, t' | 0 <= t < t' < w ensures Positions(w, j, p)[t] < Positions(w, j, p)[t'] {
      MulLe(t + 1, t', Pow(w, j));
      assert (t + 1) * Pow(w, j) == t * Pow(w, j) + Pow(w, j);
    }
  }

  /** Within a cluster of w^k nodes every group of the first k stages stays inside the cluster. */
  lemma MemberInCluster(w: nat, k: nat, j: nat, p: nat, t: nat)
    requires w >= 1 && j < k && p < Pow(w, k) && t < w
    ensures Member(w, j, p, t) < Pow(w, k)
  {
    PowPositive(w, j);
    PowPositive(w, j + 1);
    PowAdd(w, j + 1, k - j - 1);
    BlockInside(p, Pow(w, j + 1), Pow(w, k - j - 1));
    MulLe(t + 1, w, Pow(w, j));
    assert (t + 1) * Pow(w, j) == t * Pow(w, j) + Pow(w, j);
  }

  lemma BlockInside(p: nat, size: nat, m: nat)
    requires size > 0 && p < size * m
    ensures Block(p, size) + size <= size * m
  {
    var hi := p / size;
    if hi >= m {
      MulLe(m, hi, size);
      assert false;
    }
    MulLe(hi + 1, m, size);
    assert (hi + 1) * size == hi * size + size;
  }

  /** The stage-j group of the node at position `p`, by name. */
  function Group(nodes: seq<Ip>, w: nat, j: nat, p: nat): (g: seq<Ip>)
    requires w >= 1 && forall t | 0 <= t < w :: Member(w, j, p, t) < |nodes|
    ensures |g| == w && forall t | 0 <= t < w :: g[t] == nodes[Member(w, j, p, t)]
  {
    Names(nodes, Positions(w, j, p))
  }

  ghost predicate IsCluster(nodes: seq<Ip>, w: nat, k: nat) {
    w >= 2 && k >= 1 && Ascending(nodes) && |nodes| == Pow(w, k)
  }

  /** All k groups of one node, as the service computes them. */
  ghost function Groups(nodes: seq<Ip>, w: nat, k: nat, p: nat): (gs: seq<seq<Ip>>)
    requires IsCluster(nodes, w, k) && p < |nodes|
    ensures |gs| == k
  {
    seq(k, j requires 0 <= j < k =>
      (forall t | 0 <= t < w ensures Member(w, j, p, t) < |nodes| { MemberInCluster(w, k, j, p, t); }
       Group(nodes, w, j, p)))
  }

  /** The list without one of its elements. */
  function Drop<T(==,!new)>(s: seq<T>, local: T): (r: seq<T>)
    ensures forall x :: x in r <==> x in s && x != local
  {
    if s == [] then [] else Drop(s[..|s| - 1], local) + (if s[|s| - 1] != local then [s[|s| - 1]] else [])
  }

  /** Each group without the node itself. */
  function DropFromAll(groups: seq<seq<Ip>>, local: Ip): (r: seq<seq<Ip>>)
    ensures |r| == |groups| && forall j | 0 <= j < |r| :: r[j] == Drop(groups[j], local)
  {
    seq(|groups|, j requires 0 <= j < |groups| => Drop(groups[j], local))
  }

  method DropLocal(group: seq<Ip>, local: Ip) returns (kept: seq<Ip>)
    ensures kept == Drop(group, local)
  {
    kept := [];
    for i := 0 to |group|
      invariant kept == Drop(group[..i], local)
    {
      assert group[..i + 1][..i] == group[..i];
      if group[i] != local {
        kept := kept + [group[i]];
      }
    }
    assert group[..|group|] == group;
  }

  method DropLocalFromAll(groups: seq<seq<Ip>>, local: Ip) returns (filtered: seq<seq<Ip>>)
    ensures filtered == DropFromAll(groups, local)
  {
    filtered := [];
    for j := 0 to |groups|
      invariant |filtered| == j && forall i | 0 <= i < j :: filtered[i] == Drop(groups[i], local)
    {
      var kept := DropLocal(groups[j], local);
      filtered := filtered + [kept];
    }
  }

  lemma MemberAt(w: nat, j: nat, p: nat, t: nat, step: nat)
    requires w >= 1 && step == Pow(w, j)
    ensures step > 0 && step * w > 0
    ensures Member(w, j, p, t) == (p - p % (step * w)) + Times(t, step) + p % step
    ensures Times(t + 1, step) == Times(t, step) + step
  {
    PowPositive(w, j);
    PowPositive(w, j + 1);
  }

  /** One stage's group: step through the block until it has a full width of members or the cluster ends. */
  method ExtractGroup(sorted: seq<Ip>, treeWidth: nat, locationIndex: nat, step: nat, ghost k: nat, ghost j: nat)
    returns (group: seq<Ip>)
    requires treeWidth >= 1 && |sorted| == Pow(treeWidth, k) && j < k && step == Pow(treeWidth, j)
    requires locationIndex < |sorted|
    ensures forall t | 0 <= t < treeWidth :: Member(treeWidth, j, locationIndex, t) < |sorted|
    ensures group == Group(sorted, treeWidth, j, locationIndex)
  {
    MemberAt(treeWidth, j, locationIndex, 0, step);
    forall t | 0 <= t < treeWidth ensures Member(treeWidth, j, locationIndex, t) < |sorted| {
      MemberInCluster(treeWidth, k, j, locationIndex, t);
    }
    var windOffset := locationIndex % step;
    var base := locationIndex - locationIndex % (step * treeWidth);
    group := [];
    var leftMargin := base;
    while leftMargin < |sorted|
      invariant |group| <= treeWidth
      invariant forall t | 0 <= t < |group| :: group[t] == sorted[Member(treeWidth, j, locationIndex, t)]
      invariant leftMargin == base + Times(|group|, step)
      decreases treeWidth - |group|
    {
      if |group| == treeWidth {
        break;
      }
      MemberAt(treeWidth, j, locationIndex, |group|, step);
      group := group + [sorted[leftMargin + windOffset]];
      leftMargin := leftMargin + step;
    }
    if |group| < treeWidth {
      MemberAt(treeWidth, j, locationIndex, |group|, step);
      assert false;
    }
  }

  /**
   The stage loop: the step grows by the width until it reaches the cluster size, after exactly k groups.
   A single node has no stage.
   */
  method ExtractAllGroups(sorted: seq<Ip>, treeWidth: nat, locationIndex: nat, ghost k: nat)
    returns (subGroups: seq<seq<Ip>>)
    requires |sorted| == 1 || IsCluster(sorted, treeWidth, k)
    requires locationIndex < |sorted|
    ensures subGroups == if |sorted| == 1 then [] else Groups(sorted, treeWidth, k, locationIndex)
  {
    subGroups := [];
    var step := 1;
    while step < |sorted|
      invariant step == 1 || |sorted| > 1
      invariant step == 1 ==> subGroups == []
      invariant |sorted| > 1 ==> |subGroups| <= k && step == Pow(treeWidth, |subGroups|)
      invariant |sorted| > 1 ==> subGroups == Groups(sorted, treeWidth, k, locationIndex)[..|subGroups|]
      decreases k - |subGroups|
    {
      var group := ExtractGroup(sorted, treeWidth, locationIndex, step, k, |subGroups|);
      step := step * treeWidth;
      subGroups := subGroups + [group];
      PowGrows(treeWidth, 0, |subGroups|);
    }
    if |sorted| > 1 && |subGroups| < k {
      PowGrows(treeWidth, |subGroups|, k);
      assert false;
    }
  }

  method Locate(sorted: seq<Ip>, localIp: Ip) returns (locationIndex: nat)
    requires localIp in sorted
    ensures locationIndex < |sorted| && sorted[locationIndex] == localIp
  {
    locationIndex := 0;
    while locationIndex < |sorted|
      invariant locationIndex <= |sorted| && localIp in sorted[locationIndex..]
    {
      if sorted[locationIndex] == localIp {
        break;
      }
      locationIndex := locationIndex + 1;
    }
  }

  /** One stage's group, ascending: the nodes with the same block and offset, with or without the node itself. */
  ghost predicate ListsStage(nodes: seq<Ip>, w: nat, j: nat, p: nat, filter: bool, group: seq<Ip>)
    requires w >= 1
  {
    && Ascending(group) && (forall x | x in group :: x in nodes)
    && forall q: nat | q < |nodes| :: nodes[q] in group <==> SameGroup(w, j, p, q) && (filter ==> q != p)
  }

  ghost predicate ListsGroups(nodes: seq<Ip>, w: nat, local: Ip, filter: bool, groups: seq<seq<Ip>>)
    requires w >= 1
  {
    && |nodes| == Pow(w, |groups|)
    && exists p: nat :: p < |nodes| && nodes[p] == local && forall j: nat | j < |groups| :: ListsStage(nodes, w, j, p, filter, groups[j])
  }

  lemma {:induction false} DropAscends(s: seq<Ip>, x: Ip)
    requires Ascending(s)
    ensures Ascending(Drop(s, x))
  {
    if s != [] {
      var init, last := s[..|s| - 1], s[|s| - 1];
      DropAscends(init, x);
      forall y | y in Drop(init, x) ensures Less(y, last) {
        assert y in init;
      }
    }
  }

  lemma StageIsListed(nodes: seq<Ip>, w: nat, k: nat, j: nat, p: nat)
    requires IsCluster(nodes, w, k) && p < |nodes| && j < k
    ensures ListsStage(nodes, w, j, p, false, Groups(nodes, w, k, p)[j])
  {
    var group := Groups(nodes, w, k, p)[j];
    forall t | 0 <= t < w ensures Member(w, j, p, t) < |nodes| {
      MemberInCluster(w, k, j, p, t);
    }
    assert group == Group(nodes, w, j, p);
    GroupIsClass(w, j, p, p);
    forall q: nat | q < |nodes| ensures nodes[q] in group <==> SameGroup(w, j, p, q) {
      GroupIsClass(w, j, p, q);
      if q in Positions(w, j, p) {
        var t :| 0 <= t < w && Positions(w, j, p)[t] == q;
        assert group[t] == nodes[q];
      }
      if nodes[q] in group {
        var t :| 0 <= t < w && group[t] == nodes[q];
        AscendingAt(nodes, Member(w, j, p, t), q);
        assert Positions(w, j, p)[t] == q;
      }
    }
  }

  lemma GroupsAreListed(nodes: seq<Ip>, w: nat, k: nat, p: nat, filter: bool, groups: seq<seq<Ip>>)
    requires AreGroups(nodes, w, k, p, filter, groups)
    ensures ListsGroups(nodes, w, nodes[p], filter, groups)
    ensures forall j | 0 <= j < |groups| :: nodes[p] in groups[j] <==> !filter
  {
    forall j: nat | j < |groups|
      ensures ListsStage(nodes, w, j, p, filter, groups[j]) && (nodes[p] in groups[j] <==> !filter)
    {
      StageIsListed(nodes, w, k, j, p);
      GroupIsClass(w, j, p, p);
      if filter {
        var all := Groups(nodes, w, k, p)[j];
        DropAscends(all, nodes[p]);
        forall q: nat | q < |nodes| ensures nodes[q] in groups[j] <==> SameGroup(w, j, p, q) && q != p {
          AscendingAt(nodes, q, p);
        }
      }
    }
  }

  /**
   Whenever the size check ends, the call ends in the fatal error exactly when the cluster size is not a
   power of the width; otherwise it returns one full group per stage, without the node itself if asked, and
   no group for a single node with width 1.
   */
  method ExtractSubGroups(localIp: Ip, treeWidth: nat, cluster: seq<Ip>, filterLocal: bool, ghost nodes: seq<Ip>)
    returns (r: Result<seq<seq<Ip>>>)
    requires Ascending(nodes) && multiset(cluster + [localIp]) == multiset(nodes) && CheckEnds(treeWidth, |nodes|)
    ensures r.Fatal? <==> !IsPower(treeWidth, |nodes|)
    ensures r.Ok? ==> if |nodes| == 1 then r.value == [] else IsGroupsOf(nodes, treeWidth, localIp, filterLocal, r.value)
    ensures r.Ok? && |nodes| > 1 ==> ListsGroups(nodes, treeWidth, localIp, filterLocal, r.value)
    ensures r.Ok? ==> forall j | 0 <= j < |r.value| :: localIp in r.value[j] <==> !filterLocal
  {
    ViewsAgree(nodes, cluster, localIp);
    assert localIp in multiset(cluster + [localIp]);
    assert localIp in nodes;
    var sorted := Sort(cluster + [localIp]);
    var ok := CheckClusterSize(|sorted|, treeWidth);
    if !ok {
      return Fatal;
    }
    ghost var k: nat :| k >= 1 && |sorted| == Pow(treeWidth, k);
    var locationIndex := Locate(sorted, localIp);
    var subGroups := ExtractAllGroups(sorted, treeWidth, locationIndex, k);
    if filterLocal {
      subGroups := DropLocalFromAll(subGroups, localIp);
    }
    if |nodes| > 1 {
      assert AreGroups(nodes, treeWidth, k, locationIndex, filterLocal, subGroups);
      GroupsAreListed(nodes, treeWidth, k, locationIndex, filterLocal, subGroups);
    }
    return Ok(subGroups);
  }

  ghost predicate AreGroups(nodes: seq<Ip>, w: nat, k: nat, p: nat, filter: bool, groups: seq<seq<Ip>>) {
    && IsCluster(nodes, w, k) && p < |nodes|
    && groups == if filter then DropFromAll(Groups(nodes, w, k, p), nodes[p]) else Groups(nodes, w, k, p)
  }

  ghost predicate IsGroupsOf(nodes: seq<Ip>, w: nat, local: Ip, filter: bool, groups: seq<seq<Ip>>) {
    exists k: nat, p: nat :: AreGroups(nodes, w, k, p, filter, groups) && nodes[p] == local
  }
}
