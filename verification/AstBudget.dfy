/** Serialising a syntax tree within a depth limit and a node budget. */
module AstBudget {
  import opened Common

  type Kind = string

  /** A parsed node: unnamed nodes (punctuation) are left out of the output. */
  datatype Node = Node(kind: Kind, named: bool, children: seq<Node>)

  datatype AstNode = AstNode(kind: Kind, children: seq<AstNode>)

  /** Nodes in preorder, each with its depth. Such a list determines the tree. */
  type Outline = seq<(Kind, nat)>

  /** The outline of what the depth limit leaves of a tree. */
  function Limited(n: Node, depth: nat, maxDepth: nat): (o: Outline)
    ensures |o| >= 1
    decreases n, 1
  {
    [(n.kind, depth)] + if depth < maxDepth then LimitedAll(n, |n.children|, depth + 1, maxDepth) else []
  }

  /** The outline of the first `k` children, unnamed ones left out. */
  function LimitedAll(n: Node, k: nat, depth: nat, maxDepth: nat): Outline
    requires k <= |n.children|
    decreases n, 0, k
  {
    if k == 0 then []
    else
      LimitedAll(n, k - 1, depth, maxDepth) +
      if n.children[k - 1].named then Limited(n.children[k - 1], depth, maxDepth) else []
  }

  /** The outline of an output tree. */
  function Shown(a: AstNode, depth: nat): (o: Outline)
    ensures |o| >= 1
    decreases a, 1
  {
    [(a.kind, depth)] + ShownAll(a, |a.children|, depth + 1)
  }

  function ShownAll(a: AstNode, k: nat, depth: nat): Outline
    requires k <= |a.children|
    decreases a, 0, k
  {
    if k == 0 then [] else ShownAll(a, k - 1, depth) + Shown(a.children[k - 1], depth)
  }

  function Min(a: nat, b: nat): nat { if a <= b then a else b }

  lemma {:induction false} ShownAllSame(a: AstNode, b: AstNode, k: nat, depth: nat)
    requires k <= |a.children| && k <= |b.children| && a.children[..k] == b.children[..k]
    ensures ShownAll(a, k, depth) == ShownAll(b, k, depth)
    decreases k
  {
    if k > 0 {
      assert a.children[..k][..k - 1] == a.children[..k - 1] && b.children[..k][..k - 1] == b.children[..k - 1];
      assert a.children[..k][k - 1] == b.children[..k][k - 1];
      ShownAllSame(a, b, k - 1, depth);
    }
  }

  lemma ShownMore(kind: Kind, children: seq<AstNode>, last: AstNode, depth: nat)
    ensures ShownAll(AstNode(kind, children + [last]), |children| + 1, depth) ==
            ShownAll(AstNode(kind, children), |children|, depth) + Shown(last, depth)
  {
    var a, b := AstNode(kind, children + [last]), AstNode(kind, children);
    assert a.children[..|children|] == b.children[..|children|];
    ShownAllSame(a, b, |children|, depth);
  }

  /** The output shows exactly the first nodes of the depth-limited tree, as many as the budget allows. */
  method SerializeNode(node: Node, depth: nat, maxDepth: nat, remaining: nat, total: nat)
    returns (r: Option<AstNode>, remaining': nat, total': nat)
    ensures r.None? <==> remaining == 0
    ensures var used := Min(remaining, |Limited(node, depth, maxDepth)|);
      && remaining' == remaining - used && total' == total + used
      && (r.Some? ==> Shown(r.value, depth) == Limited(node, depth, maxDepth)[..used])
    decreases node
  {
    remaining', total' := remaining, total;
    if remaining == 0 { return None, 0, total; }
    remaining', total' := remaining - 1, total + 1;
    var children: seq<AstNode> := [];
    if depth < maxDepth {
      children, remaining', total' := SerializeChildren(node, depth + 1, maxDepth, remaining', total');
    }
    r := Some(AstNode(node.kind, children));
  }

  /** The loop over a node's children. */
  method SerializeChildren(node: Node, depth: nat, maxDepth: nat, remaining: nat, total: nat)
    returns (children: seq<AstNode>, remaining': nat, total': nat)
    ensures var all := LimitedAll(node, |node.children|, depth, maxDepth);
      var used := Min(remaining, |all|);
      && remaining' == remaining - used && total' == total + used
      && ShownAll(AstNode(node.kind, children), |children|, depth) == all[..used]
    decreases node, 0
  {
    children, remaining', total' := [], remaining, total;
    for k := 0 to |node.children|
      invariant var done := LimitedAll(node, k, depth, maxDepth);
        var used := Min(remaining, |done|);
        && remaining' == remaining - used && total' == total + used
        && ShownAll(AstNode(node.kind, children), |children|, depth) == done[..used]
    {
      var child := node.children[k];
      if !child.named { continue; }
      if remaining' == 0 {
        AllStartsWith(node, k, depth, maxDepth);
        break;
      }
      var serialized;
      serialized, remaining', total' := SerializeNode(child, depth, maxDepth, remaining', total');
      ShownMore(node.kind, children, serialized.value, depth);
      PrefixOfBoth(LimitedAll(node, k, depth, maxDepth), Limited(child, depth, maxDepth), remaining);
      children := children + [serialized.value];
    }
  }

  /** A prefix of a concatenation that reaches into the second part. */
  lemma PrefixOfBoth(a: Outline, b: Outline, n: nat)
    requires |a| < n
    ensures (a + b)[..Min(n, |a| + |b|)] == a[..Min(n, |a|)] + b[..Min(n - |a|, |b|)]
  {}

  /** The outline of all children starts with that of the first ones. */
  lemma {:induction false} AllStartsWith(n: Node, k: nat, depth: nat, maxDepth: nat)
    requires k <= |n.children|
    ensures LimitedAll(n, k, depth, maxDepth) <= LimitedAll(n, |n.children|, depth, maxDepth)
    decreases |n.children| - k
  {
    if k < |n.children| { AllStartsWith(n, k + 1, depth, maxDepth); }
  }

  /** Every node but the first lies deeper. */
  ghost predicate Rooted(o: Outline, depth: nat) {
    |o| >= 1 && o[0].1 == depth && forall i | 0 < i < |o| :: o[i].1 > depth
  }

  ghost predicate Deep(o: Outline, depth: nat) {
    forall i | 0 <= i < |o| :: o[i].1 >= depth
  }

  lemma {:induction false} ShownRooted(a: AstNode, depth: nat)
    ensures Rooted(Shown(a, depth), depth)
    decreases a, 1
  {
    ShownAllDeep(a, |a.children|, depth + 1);
  }

  lemma {:induction false} ShownAllDeep(a: AstNode, k: nat, depth: nat)
    requires k <= |a.children|
    ensures Deep(ShownAll(a, k, depth), depth) && (k > 0 ==> ShownAll(a, k, depth) != [])
    decreases a, 0, k
  {
    if k > 0 {
      ShownAllDeep(a, k - 1, depth);
      ShownRooted(a.children[k - 1], depth);
    }
  }

  /** The last rooted part of a list is the same however the list is split. */
  lemma SplitUnique(u1: Outline, v1: Outline, u2: Outline, v2: Outline, depth: nat)
    requires Rooted(v1, depth) && Rooted(v2, depth) && u1 + v1 == u2 + v2
    ensures u1 == u2 && v1 == v2
  {
    var w := u1 + v1;
    assert w[|u1|].1 == depth && w[|u2|].1 == depth;
    assert forall i | |u1| < i < |w| :: w[i] == v1[i - |u1|] && w[i].1 > depth;
    assert forall i | |u2| < i < |w| :: w[i] == v2[i - |u2|] && w[i].1 > depth;
    assert u1 == w[..|u1|] && u2 == w[..|u2|];
  }

  lemma {:induction false} OutlineOfChildren(a: AstNode, j: nat, b: AstNode, k: nat, depth: nat)
    requires j <= |a.children| && k <= |b.children| && ShownAll(a, j, depth) == ShownAll(b, k, depth)
    ensures j == k && a.children[..j] == b.children[..k]
    decreases a, 0, j
  {
    ShownAllDeep(a, j, depth);
    ShownAllDeep(b, k, depth);
    if j > 0 && k > 0 {
      ShownRooted(a.children[j - 1], depth);
      ShownRooted(b.children[k - 1], depth);
      SplitUnique(ShownAll(a, j - 1, depth), Shown(a.children[j - 1], depth),
                  ShownAll(b, k - 1, depth), Shown(b.children[k - 1], depth), depth);
      OutlineOfChildren(a, j - 1, b, k - 1, depth);
      OutlineDetermines(a.children[j - 1], b.children[k - 1], depth);
    }
  }

  /** Two trees with the same outline are the same tree. */
  lemma {:induction false} OutlineDetermines(a: AstNode, b: AstNode, depth: nat)
    requires Shown(a, depth) == Shown(b, depth)
    ensures a == b
    decreases a, 1
  {
    assert Shown(a, depth)[1..] == ShownAll(a, |a.children|, depth + 1);
    assert Shown(b, depth)[1..] == ShownAll(b, |b.children|, depth + 1);
    assert Shown(a, depth)[0] == Shown(b, depth)[0];
    OutlineOfChildren(a, |a.children|, b, |b.children|, depth + 1);
    assert a.children[..|a.children|] == a.children && b.children[..|b.children|] == b.children;
  }

  // ---- which nodes are shown ----

  /** A node of the tree is named by the way to it: which child to take at each step. */
  type Path = seq<nat>

  /** The way exists, and all nodes on it but the root are named. */
  ghost predicate Leads(n: Node, p: Path) {
    p == [] || (p[0] < |n.children| && n.children[p[0]].named && Leads(n.children[p[0]], p[1..]))
  }

  ghost function KindAt(n: Node, p: Path): Kind
    requires Leads(n, p)
  {
    if p == [] then n.kind else KindAt(n.children[p[0]], p[1..])
  }

  /** Preorder: a node comes before those below it and before those to the right of it. */
  ghost predicate Earlier(p: Path, q: Path) {
    q != [] && (p == [] || p[0] < q[0] || (p[0] == q[0] && Earlier(p[1..], q[1..])))
  }

  /** The ways tell what the outline shows, in preorder, each once. */
  ghost predicate Tells(o: Outline, n: Node, depth: nat, ways: seq<Path>) {
    && |ways| == |o|
    && (forall i | 0 <= i < |o| :: Leads(n, ways[i]) && o[i] == (KindAt(n, ways[i]), depth + |ways[i]|))
    && (forall i, j | 0 <= i < j < |ways| :: Earlier(ways[i], ways[j]))
  }

  ghost predicate Has(ways: seq<Path>, p: Path) {
    exists i :: 0 <= i < |ways| && ways[i] == p
  }

  /** The ways into one child. */
  ghost function Below(c: nat, ways: seq<Path>): (r: seq<Path>)
    ensures |r| == |ways| && forall i | 0 <= i < |r| :: r[i] == [c] + ways[i]
  {
    seq(|ways|, i requires 0 <= i < |ways| => [c] + ways[i])
  }

  /** The outline is that of all ways of at most the given length through named nodes: none is longer, none is missing,
      and they stand in preorder. */
  ghost predicate ShowsAll(o: Outline, n: Node, depth: nat, length: nat, ways: seq<Path>) {
    Tells(o, n, depth, ways) && forall p {:trigger Has(ways, p)} :: Has(ways, p) <==> Leads(n, p) && |p| <= length
  }

  /** The same for the ways into the first `k` children. */
  ghost predicate ShowsChildren(o: Outline, n: Node, k: nat, depth: nat, length: nat, ways: seq<Path>) {
    Tells(o, n, depth, ways) && HasChildren(n, k, length, ways)
  }

  ghost predicate HasChildren(n: Node, k: nat, length: nat, ways: seq<Path>) {
    && (forall i | 0 <= i < |ways| :: ways[i] != [] && ways[i][0] < k)
    && (forall p {:trigger Has(ways, p)} :: Has(ways, p) <==> Leads(n, p) && p != [] && p[0] < k && |p| <= length)
  }

  /** What the depth limit leaves of a tree are the nodes down to that depth, unnamed ones and what is below them left
      out. */
  lemma {:induction false} LimitedShowsAll(n: Node, depth: nat, maxDepth: nat) returns (ways: seq<Path>)
    requires depth <= maxDepth
    ensures ShowsAll(Limited(n, depth, maxDepth), n, depth, maxDepth - depth, ways)
    decreases n, 1
  {
    var more, o: Outline := [], [];
    if depth < maxDepth {
      more := ChildrenShowAll(n, |n.children|, depth + 1, maxDepth);
      o := LimitedAll(n, |n.children|, depth + 1, maxDepth);
    } else {
      NoneShown(n, |n.children|, depth, 0);
    }
    ways := [[]] + more;
    RootFirst(o, n, depth, maxDepth - depth, more);
  }

  lemma {:induction false} ChildrenShowAll(n: Node, k: nat, depth: nat, maxDepth: nat) returns (ways: seq<Path>)
    requires k <= |n.children| && 1 <= depth <= maxDepth
    ensures ShowsChildren(LimitedAll(n, k, depth, maxDepth), n, k, depth - 1, maxDepth - depth + 1, ways)
    decreases n, 0, k
  {
    var length := maxDepth - depth + 1;
    if k == 0 {
      ways := [];
      NoneShown(n, 0, depth - 1, length);
    } else {
      var before := ChildrenShowAll(n, k - 1, depth, maxDepth);
      var child, o := n.children[k - 1], LimitedAll(n, k - 1, depth, maxDepth);
      if child.named {
        var inside := LimitedShowsAll(child, depth, maxDepth);
        ways := before + Below(k - 1, inside);
        NamedChild(o, Limited(child, depth, maxDepth), n, k, depth - 1, length, before, inside);
      } else {
        ways := before;
        UnnamedChild(o, n, k, depth - 1, length, before);
        assert o + [] == o;
      }
    }
  }

  lemma NoneShown(n: Node, k: nat, depth: nat, length: nat)
    requires k == 0 || length == 0
    ensures ShowsChildren([], n, k, depth, length, [])
  {}

  lemma RootFirst(o: Outline, n: Node, depth: nat, length: nat, more: seq<Path>)
    requires ShowsChildren(o, n, |n.children|, depth, length, more)
    ensures ShowsAll([(n.kind, depth)] + o, n, depth, length, [[]] + more)
  {
    RootTells(o, n, depth, more);
    forall p ensures Has([[]] + more, p) <==> Leads(n, p) && |p| <= length { RootHas(n, length, more, p); }
  }

  lemma UnnamedChild(o: Outline, n: Node, k: nat, depth: nat, length: nat, before: seq<Path>)
    requires 0 < k <= |n.children| && !n.children[k - 1].named && ShowsChildren(o, n, k - 1, depth, length, before)
    ensures ShowsChildren(o, n, k, depth, length, before)
  {
    forall p ensures Has(before, p) <==> Leads(n, p) && p != [] && p[0] < k && |p| <= length {}
  }

  lemma NamedChild(o1: Outline, o2: Outline, n: Node, k: nat, depth: nat, length: nat, before: seq<Path>,
                   inside: seq<Path>)
    requires 0 < k <= |n.children| && n.children[k - 1].named && length >= 1
    requires ShowsChildren(o1, n, k - 1, depth, length, before)
    requires ShowsAll(o2, n.children[k - 1], depth + 1, length - 1, inside)
    ensures ShowsChildren(o1 + o2, n, k, depth, length, before + Below(k - 1, inside))
  {
    TellsTogether(o1, o2, n, k - 1, depth + 1, before, inside);
    var lower := Below(k - 1, inside);
    var ways := before + lower;
    forall i | 0 <= i < |ways| ensures ways[i] != [] && ways[i][0] < k {
      if i >= |before| { assert ways[i] == lower[i - |before|]; }
    }
    forall p ensures Has(ways, p) <==> Leads(n, p) && p != [] && p[0] < k && |p| <= length {
      HasOneMore(n, k, length, before, inside, p);
    }
  }

  lemma HasOneMore(n: Node, k: nat, length: nat, before: seq<Path>, inside: seq<Path>, p: Path)
    requires 0 < k <= |n.children| && n.children[k - 1].named && length >= 1
    requires Has(before, p) <==> Leads(n, p) && p != [] && p[0] < k - 1 && |p| <= length
    requires p != [] ==> (Has(inside, p[1..]) <==> Leads(n.children[k - 1], p[1..]) && |p[1..]| <= length - 1)
    ensures Has(before + Below(k - 1, inside), p) <==> Leads(n, p) && p != [] && p[0] < k && |p| <= length
  {
    HasTogether(before, inside, k - 1, p);
  }

  lemma RootTells(o: Outline, n: Node, depth: nat, more: seq<Path>)
    requires Tells(o, n, depth, more) && forall i | 0 <= i < |more| :: more[i] != []
    ensures Tells([(n.kind, depth)] + o, n, depth, [[]] + more)
  {
    var ways: seq<Path>, all := [[]] + more, [(n.kind, depth)] + o;
    forall i | 0 <= i < |all| ensures Leads(n, ways[i]) && all[i] == (KindAt(n, ways[i]), depth + |ways[i]|) {
      if i > 0 { assert ways[i] == more[i - 1] && all[i] == o[i - 1]; }
    }
    forall i, j | 0 <= i < j < |ways| ensures Earlier(ways[i], ways[j]) {
      if i > 0 { assert Earlier(more[i - 1], more[j - 1]); }
    }
  }

  lemma RootHas(n: Node, length: nat, more: seq<Path>, p: Path)
    requires HasChildren(n, |n.children|, length, more)
    ensures Has([[]] + more, p) <==> Leads(n, p) && |p| <= length
  {
    var ways: seq<Path> := [[]] + more;
    assert ways[0] == [];
    if Has(more, p) {
      var i :| 0 <= i < |more| && more[i] == p;
      assert ways[i + 1] == p;
    }
    if p != [] && Has(ways, p) {
      var i :| 0 <= i < |ways| && ways[i] == p;
      assert more[i - 1] == p;
    }
  }

  lemma TellsTogether(o1: Outline, o2: Outline, n: Node, c: nat, depth: nat, before: seq<Path>, inside: seq<Path>)
    requires c < |n.children| && depth >= 1 && n.children[c].named
    requires Tells(o1, n, depth - 1, before) && (forall i | 0 <= i < |before| :: before[i] != [] && before[i][0] < c)
    requires Tells(o2, n.children[c], depth, inside)
    ensures Tells(o1 + o2, n, depth - 1, before + Below(c, inside))
  {
    var lower, o, ways := Below(c, inside), o1 + o2, before + Below(c, inside);
    OrderedTogether(before, inside, c);
    forall i | 0 <= i < |o| ensures Leads(n, ways[i]) && o[i] == (KindAt(n, ways[i]), depth - 1 + |ways[i]|) {
      if i >= |o1| {
        var j := i - |o1|;
        assert ways[i] == lower[j] && lower[j][1..] == inside[j] && Leads(n.children[c], inside[j]);
        assert o[i] == o2[j];
      }
    }
  }

  lemma OrderedTogether(before: seq<Path>, inside: seq<Path>, c: nat)
    requires forall i | 0 <= i < |before| :: before[i] != [] && before[i][0] < c
    requires forall i, j | 0 <= i < j < |before| :: Earlier(before[i], before[j])
    requires forall i, j | 0 <= i < j < |inside| :: Earlier(inside[i], inside[j])
    ensures var ways := before + Below(c, inside); forall i, j | 0 <= i < j < |ways| :: Earlier(ways[i], ways[j])
  {
    var lower := Below(c, inside);
    var ways := before + lower;
    forall i, j | 0 <= i < j < |ways| ensures Earlier(ways[i], ways[j]) {
      if i >= |before| {
        var x, y := i - |before|, j - |before|;
        assert lower[x][1..] == inside[x] && lower[y][1..] == inside[y];
        assert Earlier(inside[x], inside[y]);
      }
    }
  }

  lemma HasTogether(before: seq<Path>, inside: seq<Path>, c: nat, p: Path)
    ensures Has(before + Below(c, inside), p) <==> Has(before, p) || (p != [] && p[0] == c && Has(inside, p[1..]))
  {
    var lower := Below(c, inside);
    var ways := before + lower;
    if Has(before, p) {
      var i :| 0 <= i < |before| && before[i] == p;
      assert ways[i] == p;
    }
    if p != [] && p[0] == c && Has(inside, p[1..]) {
      var i :| 0 <= i < |inside| && inside[i] == p[1..];
      assert lower[i] == [c] + p[1..] == p;
      assert ways[|before| + i] == p;
    }
    if Has(ways, p) {
      var i :| 0 <= i < |ways| && ways[i] == p;
      if i >= |before| { assert lower[i - |before|] == p && p[1..] == inside[i - |before|]; }
    }
  }

  datatype Built = LimitExceeded | Built(root: AstNode, totalNodes: nat, truncated: bool)

  /** Building a tree fails only on an empty budget. The flag is raised exactly when the budget is used up,
      so that without it nothing within the depth limit was dropped. */
  method BuildAst(root: Node, maxDepth: nat, maxNodes: nat) returns (b: Built)
    ensures b.LimitExceeded? <==> maxNodes == 0
    ensures b.Built? ==> var all := Limited(root, 0, maxDepth);
      && Shown(b.root, 0) == all[..Min(maxNodes, |all|)] && b.totalNodes == Min(maxNodes, |all|)
      && (b.truncated <==> maxNodes <= |all|)
      && (!b.truncated ==> Shown(b.root, 0) == all)
  {
    var r, remaining, total := SerializeNode(root, 0, maxDepth, maxNodes, 0);
    if r.None? { return LimitExceeded; }
    return Built(r.value, total, remaining == 0);
  }
}
