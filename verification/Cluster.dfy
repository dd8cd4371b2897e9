/**
 Node addresses as strings in lexicographic order, and the sorted list of all nodes that every node
 rebuilds from its own configuration.
 */
module Cluster {

  type Ip = string

  /** `std::string`'s order. */
  predicate Less(a: Ip, b: Ip) {
    b != [] && (a == [] || a[0] < b[0] || (a[0] == b[0] && Less(a[1..], b[1..])))
  }

  /** Proper prefixes come first; otherwise the first difference decides. */
  ghost predicate Precedes(a: Ip, b: Ip) {
    a < b || exists k: nat :: k < |a| && k < |b| && a[..k] == b[..k] && a[k] < b[k]
  }

  lemma {:induction false} LessIsLexicographic(a: Ip, b: Ip)
    ensures Less(a, b) <==> Precedes(a, b)
  {
    if a != [] && b != [] {
      LessIsLexicographic(a[1..], b[1..]);
      assert a == [a[0]] + a[1..] && b == [b[0]] + b[1..];
      if a[0] == b[0] {
        PrecedesTail(a, b);
      } else if a[0] < b[0] {
        assert a[..0] == b[..0];
      } else {
        assert forall k: nat | 0 < k < |a| && k < |b| :: a[..k][0] != b[..k][0];
      }
    }
  }

  lemma PrecedesTail(a: Ip, b: Ip)
    requires a != [] && b != [] && a[0] == b[0]
    ensures Precedes(a, b) <==> Precedes(a[1..], b[1..])
  {
    var a', b' := a[1..], b[1..];
    assert a == [a[0]] + a' && b == [b[0]] + b';
    if k: nat :| k < |a| && k < |b| && a[..k] == b[..k] && a[k] < b[k] {
      assert a'[..k - 1] == a[..k][1..] && b'[..k - 1] == b[..k][1..];
    }
    if k: nat :| k < |a'| && k < |b'| && a'[..k] == b'[..k] && a'[k] < b'[k] {
      assert a[..k + 1] == [a[0]] + a'[..k] && b[..k + 1] == [b[0]] + b'[..k];
    }
  }

  lemma {:induction false} LessTotal(a: Ip, b: Ip)
    ensures a != b ==> Less(a, b) || Less(b, a)
  {
    if a != [] && b != [] && a[0] == b[0] {
      LessTotal(a[1..], b[1..]);
      assert a == [a[0]] + a[1..] && b == [b[0]] + b[1..];
    }
  }

  lemma {:induction false} LessTransitive(a: Ip, b: Ip, c: Ip)
    requires Less(a, b) && Less(b, c)
    ensures Less(a, c)
  {
    if a != [] && a[0] == b[0] == c[0] {
      LessTransitive(a[1..], b[1..], c[1..]);
    }
  }

  lemma {:induction false} LessAsymmetric(a: Ip, b: Ip)
    requires Less(a, b)
    ensures !Less(b, a)
  {
    if a != [] && a[0] == b[0] {
      LessAsymmetric(a[1..], b[1..]);
    }
  }

  /** Strictly ascending, hence without repetition. */
  ghost predicate Ascending(s: seq<Ip>) {
    forall i, j | 0 <= i < j < |s| :: Less(s[i], s[j])
  }

  lemma AscendingAt(s: seq<Ip>, i: nat, j: nat)
    requires Ascending(s) && i < |s| && j < |s|
    ensures s[i] == s[j] <==> i == j
    ensures Less(s[i], s[j]) <==> i < j
  {
    if i < j {
      LessAsymmetric(s[i], s[j]);
    } else if j < i {
      LessAsymmetric(s[j], s[i]);
    } else if Less(s[i], s[i]) {
      LessAsymmetric(s[i], s[i]);
    }
  }

  function Insert(x: Ip, s: seq<Ip>): seq<Ip> {
    if s == [] || Less(x, s[0]) then [x] + s else [s[0]] + Insert(x, s[1..])
  }

  /** `std::sort` on the list. */
  function Sort(s: seq<Ip>): seq<Ip> {
    if s == [] then [] else Insert(s[0], Sort(s[1..]))
  }

  /** Sorted, with repetitions allowed. */
  ghost predicate Sorted(s: seq<Ip>) {
    forall i, j | 0 <= i < j < |s| :: s[i] == s[j] || Less(s[i], s[j])
  }

  lemma PutFirst(y: Ip, t: seq<Ip>)
    requires Sorted(t) && forall z | z in t :: y == z || Less(y, z)
    ensures Sorted([y] + t) && multiset([y] + t) == multiset(t) + multiset{y}
  {
    var s := [y] + t;
    forall i, j | 0 <= i < j < |s| ensures s[i] == s[j] || Less(s[i], s[j]) {
      assert s[j] == t[j - 1];
    }
  }

  lemma BelowAll(x: Ip, s: seq<Ip>)
    requires Sorted(s) && s != [] && Less(x, s[0])
    ensures forall z | z in s :: Less(x, z)
  {
    forall j | 0 <= j < |s| ensures Less(x, s[j]) {
      if s[0] != s[j] {
        LessTransitive(x, s[0], s[j]);
      }
    }
  }

  lemma {:induction false} InsertSorts(x: Ip, s: seq<Ip>)
    requires Sorted(s)
    ensures Sorted(Insert(x, s)) && multiset(Insert(x, s)) == multiset(s) + multiset{x}
  {
    if s != [] && Less(x, s[0]) {
      BelowAll(x, s);
    }
    if s == [] || Less(x, s[0]) {
      PutFirst(x, s);
    } else {
      var t := s[1..];
      assert s == [s[0]] + t;
      InsertSorts(x, t);
      LessTotal(x, s[0]);
      InsertHas(x, t);
      PutFirst(s[0], Insert(x, t));
    }
  }

  lemma InsertHas(x: Ip, t: seq<Ip>)
    requires multiset(Insert(x, t)) == multiset(t) + multiset{x}
    ensures forall y | y in Insert(x, t) :: y == x || y in t
  {
    forall y | y in Insert(x, t) ensures y == x || y in t {
      assert y in multiset(Insert(x, t));
    }
  }

  /** Every list is sorted, whatever it repeats. */
  lemma {:induction false} SortSorts(s: seq<Ip>)
    ensures Sorted(Sort(s)) && multiset(Sort(s)) == multiset(s)
  {
    if s != [] {
      assert s == [s[0]] + s[1..];
      SortSorts(s[1..]);
      InsertSorts(s[0], Sort(s[1..]));
    }
  }

  lemma SortAscends(s: seq<Ip>)
    requires forall i, j | 0 <= i < j < |s| :: s[i] != s[j]
    ensures Ascending(Sort(s)) && multiset(Sort(s)) == multiset(s)
  {
    SortSorts(s);
    SamePermutation(s, Sort(s));
  }

  /** A permutation of a list without repetition has none. */
  lemma SamePermutation(s: seq<Ip>, t: seq<Ip>)
    requires (forall i, j | 0 <= i < j < |s| :: s[i] != s[j]) && multiset(s) == multiset(t)
    ensures forall i, j | 0 <= i < j < |t| :: t[i] != t[j]
  {
    forall i, j | 0 <= i < j < |t| ensures t[i] != t[j] {
      if t[i] == t[j] {
        assert t == t[..i] + [t[i]] + t[i + 1..j] + [t[j]] + t[j + 1..];
        assert multiset(t)[t[i]] >= 2;
        OnceEach(s, t[i]);
      }
    }
  }

  lemma {:induction false} OnceEach(s: seq<Ip>, x: Ip)
    requires forall i, j | 0 <= i < j < |s| :: s[i] != s[j]
    ensures multiset(s)[x] <= 1
  {
    if s != [] {
      assert s == [s[0]] + s[1..];
      OnceEach(s[1..], x);
    }
  }

  lemma SameHead(a: seq<Ip>, b: seq<Ip>)
    requires a != [] && b != [] && Ascending(a) && Ascending(b) && multiset(a) == multiset(b)
    ensures a[0] == b[0]
  {
    assert b[0] in multiset(a) && a[0] in multiset(b);
    var i :| 0 <= i < |a| && a[i] == b[0];
    var j :| 0 <= j < |b| && b[j] == a[0];
    if i > 0 && j > 0 {
      LessAsymmetric(a[0], a[i]);
      assert false;
    }
  }

  lemma SameRest(a: seq<Ip>, b: seq<Ip>)
    requires a != [] && b != [] && a[0] == b[0] && multiset(a) == multiset(b)
    ensures multiset(a[1..]) == multiset(b[1..])
  {
    assert a == [a[0]] + a[1..] && b == [b[0]] + b[1..];
    assert multiset(a[1..]) == multiset(a) - multiset{a[0]};
  }

  /** An ascending list is determined by its elements. */
  lemma {:induction false} AscendingUnique(a: seq<Ip>, b: seq<Ip>)
    requires Ascending(a) && Ascending(b) && multiset(a) == multiset(b)
    ensures a == b
  {
    assert |a| == |multiset(a)| == |multiset(b)| == |b|;
    if a != [] {
      SameHead(a, b);
      SameRest(a, b);
      AscendingTail(a);
      AscendingTail(b);
      AscendingUnique(a[1..], b[1..]);
    }
  }

  lemma AscendingTail(s: seq<Ip>)
    requires s != [] && Ascending(s)
    ensures Ascending(s[1..])
  {
  }

  lemma NoRepetition(s: seq<Ip>, t: seq<Ip>)
    requires Ascending(t) && multiset(s) == multiset(t)
    ensures forall i, j | 0 <= i < j < |s| :: s[i] != s[j]
  {
    forall i, j | 0 <= i < j < |t| ensures t[i] != t[j] {
      AscendingAt(t, i, j);
    }
    SamePermutation(t, s);
  }

  /**
   Whatever order a node's configuration lists the other nodes in, sorting that list with the node
   itself gives the same list `nodes` at every node.
   */
  lemma ViewsAgree(nodes: seq<Ip>, list: seq<Ip>, local: Ip)
    requires Ascending(nodes) && multiset(list + [local]) == multiset(nodes)
    ensures Sort(list + [local]) == nodes
  {
    NoRepetition(list + [local], nodes);
    SortAscends(list + [local]);
    AscendingUnique(Sort(list + [local]), nodes);
  }

  /** What `add_to_cluster` leaves after the whole command line: everything but the node itself, sorted. */
  function OthersOf(args: seq<Ip>, local: Ip): seq<Ip> {
    if args == [] then []
    else
      var rest := OthersOf(args[..|args| - 1], local);
      Sort(if args[|args| - 1] != local then rest + [args[|args| - 1]] else rest)
  }

  method BuildCluster(args: seq<Ip>, local: Ip) returns (cluster: seq<Ip>)
    ensures cluster == OthersOf(args, local)
  {
    cluster := [];
    for k := 0 to |args|
      invariant cluster == OthersOf(args[..k], local)
    {
      assert args[..k + 1][..k] == args[..k];
      if local != args[k] {
        cluster := cluster + [args[k]];
      }
      cluster := Sort(cluster);
    }
    assert args[..|args|] == args;
  }

  /** Any command line, repetitions included: the node keeps every argument but itself, as often as it occurs, sorted. */
  lemma {:induction false} OthersInGeneral(args: seq<Ip>, local: Ip, x: Ip)
    ensures Sorted(OthersOf(args, local))
    ensures multiset(OthersOf(args, local))[x] == if x == local then 0 else multiset(args)[x]
  {
    if args != [] {
      var init, last := args[..|args| - 1], args[|args| - 1];
      assert args == init + [last];
      OthersInGeneral(init, local, x);
      var rest := OthersOf(init, local);
      SortSorts(if last != local then rest + [last] else rest);
    }
  }

  /** Everything in an ascending list but its `p`-th element. */
  function Without(nodes: seq<Ip>, p: nat): seq<Ip>
    requires p < |nodes|
  {
    nodes[..p] + nodes[p + 1..]
  }

  lemma {:induction false} OthersAscend(args: seq<Ip>, local: Ip)
    requires forall i, j | 0 <= i < j < |args| :: args[i] != args[j]
    ensures Ascending(OthersOf(args, local))
    ensures multiset(OthersOf(args, local)) == multiset(args) - multiset{local}
  {
    if args != [] {
      var init, x := args[..|args| - 1], args[|args| - 1];
      assert args == init + [x];
      OthersAscend(init, local);
      var rest := OthersOf(init, local);
      NoRepetition(rest, rest);
      if x != local {
        assert x !in multiset(rest);
        SortAscends(rest + [x]);
      } else {
        assert local !in multiset(init);
        SortAscends(rest);
      }
    }
  }

  /** For a command line naming every node once, in any order, the node keeps the sorted list of the others. */
  lemma OthersAreSorted(args: seq<Ip>, nodes: seq<Ip>, p: nat)
    requires Ascending(nodes) && multiset(args) == multiset(nodes) && p < |nodes|
    ensures OthersOf(args, nodes[p]) == Without(nodes, p)
  {
    NoRepetition(args, nodes);
    OthersAscend(args, nodes[p]);
    assert nodes == nodes[..p] + [nodes[p]] + nodes[p + 1..];
    AscendingUnique(OthersOf(args, nodes[p]), Without(nodes, p));
  }

  /** The nodes at the given positions. */
  function Names(order: seq<Ip>, positions: seq<nat>): (names: seq<Ip>)
    requires forall i | 0 <= i < |positions| :: positions[i] < |order|
    ensures |names| == |positions| && forall i | 0 <= i < |names| :: names[i] == order[positions[i]]
  {
    seq(|positions|, i requires 0 <= i < |positions| => order[positions[i]])
  }
}
