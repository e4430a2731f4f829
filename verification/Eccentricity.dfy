/** `centerEstimate`, `networkWidth` and `findParentNode`, and the laws that tie them to distances. */
module Eccentricity {
  import opened Graphs

  /** The largest number of hops in the row of `u`, over the listed nodes. */
  function RowMax(t: Table, u: Id, nodes: seq<Id>): nat {
    if nodes == [] then 0
    else
      var d, rest := Value(Lookup(t, u, nodes[0])), RowMax(t, u, nodes[1..]);
      if d > rest then d else rest
  }

  /** `m` is the largest value among the cells that `keys` names, 0 if none is positive. */
  ghost predicate MaxOver(t: Table, keys: set<(Id, Id)>, m: nat) {
    && (forall k :: k in keys ==> Value(Lookup(t, k.0, k.1)) <= m)
    && (m == 0 || exists k :: k in keys && Value(Lookup(t, k.0, k.1)) == m)
  }

  lemma {:induction false} RowMaxIsMax(t: Table, u: Id, nodes: seq<Id>)
    ensures forall v :: v in nodes ==> Value(Lookup(t, u, v)) <= RowMax(t, u, nodes)
    ensures RowMax(t, u, nodes) == 0 || exists v :: v in nodes && Value(Lookup(t, u, v)) == RowMax(t, u, nodes)
  {
    if nodes != [] {
      RowMaxIsMax(t, u, nodes[1..]);
      assert nodes == [nodes[0]] + nodes[1..];
    }
  }

  /** Walk the row of `node` in whatever order its keys come. */
  method CenterEstimate(t: Table, ghost nodes: seq<Id>, node: Id) returns (max: nat)
    requires KeysIn(t, nodes)
    ensures max == RowMax(t, node, nodes)
  {
    max := 0;
    var row := set k | k in t.Keys && k.0 == node;
    ghost var all := row;
    while row != {}
      invariant row <= all
      invariant MaxOver(t, all - row, max)
    {
      var k :| k in row;
      assert Value(Lookup(t, k.0, k.1)) == Value(t[k]);
      if t[k].Hops? && t[k].n > max {
        max := t[k].n;
      }
      row := row - {k};
    }
    assert all - row == all;
    RowIsWalked(t, node, nodes, all, max);
  }

  /** The largest cell of the row's keys is the largest over the nodes. */
  lemma RowIsWalked(t: Table, u: Id, nodes: seq<Id>, row: set<(Id, Id)>, max: nat)
    requires KeysIn(t, nodes) && row == (set k | k in t.Keys && k.0 == u) && MaxOver(t, row, max)
    ensures max == RowMax(t, u, nodes)
  {
    RowMaxIsMax(t, u, nodes);
    forall v | v in nodes ensures Value(Lookup(t, u, v)) <= max {
      assert (u, v) in t ==> (u, v) in row;
    }
    if max > 0 {
      var k :| k in row && Value(Lookup(t, k.0, k.1)) == max;
      assert k == (u, k.1) && k.1 in nodes;
    }
  }

  /** Walk the whole table; the outcome is the largest centre estimate. */
  method NetworkWidth(t: Table, ghost nodes: seq<Id>) returns (max: nat)
    requires KeysIn(t, nodes)
    ensures forall u :: u in nodes ==> RowMax(t, u, nodes) <= max
    ensures max == 0 || exists u :: u in nodes && RowMax(t, u, nodes) == max
  {
    max := 0;
    var cells := t.Keys;
    while cells != {}
      invariant cells <= t.Keys
      invariant MaxOver(t, t.Keys - cells, max)
    {
      var k :| k in cells;
      assert Value(Lookup(t, k.0, k.1)) == Value(t[k]);
      if t[k].Hops? && t[k].n > max {
        max := t[k].n;
      }
      cells := cells - {k};
    }
    forall u | u in nodes ensures RowMax(t, u, nodes) <= max {
      RowMaxIsMax(t, u, nodes);
      assert forall v :: v in nodes && (u, v) in t ==> Value(Lookup(t, u, v)) <= max;
    }
    if max > 0 {
      ghost var k :| k in t.Keys && Value(Lookup(t, k.0, k.1)) == max;
      RowMaxIsMax(t, k.0, nodes);
      assert k == (k.0, k.1) && k.1 in nodes && RowMax(t, k.0, nodes) == max;
    }
  }

  // ---------- laws of eccentricity ----------

  /** Any two nodes that `u` can reach are within twice the estimate of `u`, so the estimate is between
      half the diameter of its component and the diameter. */
  lemma {:induction false} DiameterAtMostTwice(nodes: seq<Id>, links: seq<Link>, t: Table, u: Id, a: Id, b: Id)
    requires Exact(nodes, links, t) && u in nodes && a in nodes && b in nodes
    requires Lookup(t, u, a).Hops? && Lookup(t, u, b).Hops?
    ensures Lookup(t, a, b).Hops? && Lookup(t, a, b).n <= 2 * RowMax(t, u, nodes)
    ensures RowMax(t, a, nodes) <= 2 * RowMax(t, u, nodes)
  {
    RowMaxIsMax(t, u, nodes);
    HalfWay(nodes, links, t, u, a, b);
    RowMaxIsMax(t, a, nodes);
    if RowMax(t, a, nodes) > 0 {
      var v :| v in nodes && Value(Lookup(t, a, v)) == RowMax(t, a, nodes);
      ExactTriangle(nodes, links, t, u, a, v);
      HalfWay(nodes, links, t, u, a, v);
    }
  }

  lemma HalfWay(nodes: seq<Id>, links: seq<Link>, t: Table, u: Id, a: Id, b: Id)
    requires Exact(nodes, links, t) && u in nodes && a in nodes && b in nodes
    requires Lookup(t, u, a).Hops? && Lookup(t, u, b).Hops?
    ensures Lookup(t, a, b).Hops? && Lookup(t, a, b).n <= Lookup(t, u, a).n + Lookup(t, u, b).n
  {
    ExactSymmetric(nodes, links, t, u, a);
    ExactTriangle(nodes, links, t, a, u, b);
  }

  /** When every pair is connected, the network width, being the largest estimate, is the diameter: no two
      nodes are farther apart, and some two are that far apart. Each estimate is at least half of it. */
  lemma {:induction false} WidthBounds(nodes: seq<Id>, links: seq<Link>, t: Table, width: nat, u: Id)
    requires Exact(nodes, links, t) && u in nodes
    requires forall v :: v in nodes ==> Lookup(t, u, v).Hops?
    requires forall v :: v in nodes ==> RowMax(t, v, nodes) <= width
    requires width == 0 || exists v :: v in nodes && RowMax(t, v, nodes) == width
    ensures forall a, b :: a in nodes && b in nodes ==> Lookup(t, a, b).Hops? && Lookup(t, a, b).n <= width
    ensures exists a, b :: a in nodes && b in nodes && Lookup(t, a, b) == Hops(width)
    ensures RowMax(t, u, nodes) <= width <= 2 * RowMax(t, u, nodes)
  {
    forall a, b | a in nodes && b in nodes ensures Lookup(t, a, b).Hops? && Lookup(t, a, b).n <= width {
      HalfWay(nodes, links, t, u, a, b);
      RowMaxIsMax(t, a, nodes);
    }
    if width > 0 {
      var v :| v in nodes && RowMax(t, v, nodes) == width;
      DiameterAtMostTwice(nodes, links, t, u, v, v);
      RowMaxIsMax(t, v, nodes);
    } else {
      assert Lookup(t, u, u) == Hops(0);
    }
  }

  lemma {:induction false} NeighbourEstimates(nodes: seq<Id>, links: seq<Link>, t: Table, u: Id, v: Id)
    requires Exact(nodes, links, t) && u in nodes && v in nodes && Adjacent(links, u, v)
    ensures -1 <= RowMax(t, u, nodes) - RowMax(t, v, nodes) <= 1
    ensures RowMax(t, u, nodes) >= 1
  {
    AtMostOneMore(nodes, links, t, u, v);
    AdjacentSymmetric(links, u, v);
    AtMostOneMore(nodes, links, t, v, u);
  }

  lemma AtMostOneMore(nodes: seq<Id>, links: seq<Link>, t: Table, u: Id, v: Id)
    requires Exact(nodes, links, t) && u in nodes && v in nodes && Adjacent(links, u, v)
    ensures 1 <= RowMax(t, u, nodes) <= RowMax(t, v, nodes) + 1
  {
    RowMaxIsMax(t, u, nodes);
    RowMaxIsMax(t, v, nodes);
    ExactAdjacent(nodes, links, t, u, v);
    var w :| w in nodes && Value(Lookup(t, u, w)) == RowMax(t, u, nodes);
    ExactTriangle(nodes, links, t, v, u, w);
    ExactTriangle(nodes, links, t, u, v, w);
  }

  // ---------- parents ----------

  type Values = map<Id, nat>

  /** The value assigned to every node before layout. */
  function Estimates(t: Table, nodes: seq<Id>): Values {
    map u | u in nodes :: RowMax(t, u, nodes)
  }

  /** The end of `l` that could be the parent of `node`, or `node` itself. */
  function Offered(l: Link, node: Id, value: Values): Id
    requires node in value && l.source in value && l.target in value
  {
    if l.source == node then (if value[l.target] < value[node] then l.target else node)
    else if l.target == node then (if value[l.source] < value[node] then l.source else node)
    else node
  }

  /** The first parent any link offers. */
  function ParentOf(node: Id, links: seq<Link>, value: Values): (p: Id)
    requires node in value && forall l :: l in links ==> l.source in value && l.target in value
    ensures p in value
  {
    if links == [] then node
    else
      var p := Offered(links[0], node, value);
      if p != node then p else ParentOf(node, links[1..], value)
  }

  /** It is what the first link to offer any parent offers. */
  lemma {:induction false} ParentIsFirstOffer(node: Id, links: seq<Link>, value: Values) returns (k: nat)
    requires node in value && forall l :: l in links ==> l.source in value && l.target in value
    ensures k <= |links| && forall i :: 0 <= i < k ==> Offered(links[i], node, value) == node
    ensures k == |links| ==> ParentOf(node, links, value) == node
    ensures k < |links| ==>
              var p := ParentOf(node, links, value);
              && p == Offered(links[k], node, value) && p != node
              && Joins(links[k], node, p) && value[p] < value[node]
  {
    if links == [] {
      k := 0;
    } else if Offered(links[0], node, value) != node {
      k := 0;
    } else {
      var m := ParentIsFirstOffer(node, links[1..], value);
      k := m + 1;
      assert forall i :: 0 < i < |links| ==> links[i] == links[1..][i - 1];
    }
  }

  /** A link offers its other end when that is smaller. */
  lemma OfferedIff(l: Link, node: Id, value: Values)
    requires node in value && l.source in value && l.target in value
    ensures Offered(l, node, value) != node <==> exists w :: w in value && Joins(l, node, w) && value[w] < value[node]
  {
    if Offered(l, node, value) != node {
      assert Joins(l, node, Offered(l, node, value));
    }
  }

  method FindParentNode(node: Id, links: seq<Link>, value: Values) returns (parent: Id)
    requires node in value && forall l :: l in links ==> l.source in value && l.target in value
    ensures parent == ParentOf(node, links, value)
  {
    for i := 0 to |links|
      invariant ParentOf(node, links, value) == ParentOf(node, links[i..], value)
    {
      var l := links[i];
      assert links[i..][1..] == links[i + 1..];
      if l.source == node {
        if value[l.target] < value[node] {
          return l.target;
        }
      } else if l.target == node {
        if value[l.source] < value[node] {
          return l.source;
        }
      }
    }
    return node;
  }

  /** A node is its own parent exactly when no neighbour has a smaller value; any other parent is a
      neighbour with a strictly smaller value, so chains of parents descend and end. */
  lemma {:induction false} ParentIsSmallerNeighbour(node: Id, links: seq<Link>, value: Values)
    requires node in value && forall l :: l in links ==> l.source in value && l.target in value
    ensures var p := ParentOf(node, links, value);
            && (p == node <==> forall w :: w in value && Adjacent(links, node, w) ==> value[w] >= value[node])
            && (p != node ==> Adjacent(links, node, p) && value[p] < value[node])
  {
    if links != [] {
      ParentIsSmallerNeighbour(node, links[1..], value);
      assert links == [links[0]] + links[1..];
      forall w ensures Adjacent(links, node, w) == (Joins(links[0], node, w) || Adjacent(links[1..], node, w)) {
      }
      var p := Offered(links[0], node, value);
      if p != node {
        assert Joins(links[0], node, p) && Adjacent(links, node, p);
      }
    }
  }

  /** Chains of parents end: following them from any node reaches a root. */
  function RootOf(node: Id, links: seq<Link>, value: Values): (root: Id)
    requires node in value && forall l :: l in links ==> l.source in value && l.target in value
    ensures root in value && ParentOf(root, links, value) == root && value[root] <= value[node]
    decreases value[node]
  {
    ParentIsSmallerNeighbour(node, links, value);
    var p := ParentOf(node, links, value);
    if p == node then node else RootOf(p, links, value)
  }
}
