/** On a tree, the roots of the parent forest are the centre: the nodes of least eccentricity. */
module TreeCentre {
  import opened Graphs
  import opened Eccentricity

  /** Connected, and simple walks between two nodes are unique. */
  ghost predicate IsTree(nodes: seq<Id>, links: seq<Link>) {
    && nodes != [] && WellFormed(nodes, links)
    && (forall u :: u in nodes ==> !Adjacent(links, u, u))
    && (forall u, v {:trigger Connected(links, u, v)} :: u in nodes && v in nodes ==> Connected(links, u, v))
    && (forall u, v, p, q :: Walk(links, p, u, v) && Walk(links, q, u, v) && Simple(p) && Simple(q) ==> p == q)
  }

  /** A tree together with its table of distances. */
  ghost predicate Measured(nodes: seq<Id>, links: seq<Link>, t: Table) {
    IsTree(nodes, links) && Exact(nodes, links, t)
  }

  /** Distance in hops. */
  function D(t: Table, u: Id, v: Id): nat {
    Value(Lookup(t, u, v))
  }

  ghost predicate Root(nodes: seq<Id>, links: seq<Link>, t: Table, u: Id)
    requires WellFormed(nodes, links) && u in nodes
  {
    ParentOf(u, links, Estimates(t, nodes)) == u
  }

  ghost predicate Central(nodes: seq<Id>, t: Table, u: Id) {
    u in nodes && forall v :: v in nodes ==> RowMax(t, u, nodes) <= RowMax(t, v, nodes)
  }

  // ---------- distances in a tree ----------

  lemma Reachable(nodes: seq<Id>, links: seq<Link>, t: Table, u: Id, v: Id)
    requires Measured(nodes, links, t) && u in nodes && v in nodes
    ensures Lookup(t, u, v).Hops? && D(t, u, v) == D(t, v, u)
    ensures D(t, u, v) == 0 <==> u == v
  {
    ExactMeansMinHops(nodes, links, t, u, v);
    ExactSymmetric(nodes, links, t, u, v);
    if u == v {
      assert Counted(links, [u], u, u);
    }
    var p :| Counted(links, p, u, v) && |p| == D(t, u, v) + 1;
  }

  lemma Triangle(nodes: seq<Id>, links: seq<Link>, t: Table, u: Id, v: Id, w: Id)
    requires Measured(nodes, links, t) && u in nodes && v in nodes && w in nodes
    ensures D(t, u, w) <= D(t, u, v) + D(t, v, w)
  {
    Reachable(nodes, links, t, u, v);
    Reachable(nodes, links, t, v, w);
    ExactTriangle(nodes, links, t, u, v, w);
  }

  /** Stepping to a neighbour changes a distance by at most one. */
  lemma OneStep(nodes: seq<Id>, links: seq<Link>, t: Table, u: Id, w: Id, v: Id)
    requires Measured(nodes, links, t) && u in nodes && w in nodes && v in nodes && Adjacent(links, u, w)
    ensures D(t, w, v) <= D(t, u, v) + 1 && D(t, u, v) <= D(t, w, v) + 1
  {
    ExactAdjacent(nodes, links, t, u, w);
    Triangle(nodes, links, t, w, u, v);
    Triangle(nodes, links, t, u, w, v);
  }

  /** A shortest walk exists and repeats no node. */
  lemma ShortestWalk(nodes: seq<Id>, links: seq<Link>, t: Table, u: Id, v: Id) returns (p: seq<Id>)
    requires Measured(nodes, links, t) && u in nodes && v in nodes
    ensures Walk(links, p, u, v) && |p| == D(t, u, v) + 1 && Simple(p)
  {
    Reachable(nodes, links, t, u, v);
    p :| Counted(links, p, u, v) && |p| == D(t, u, v) + 1;
    forall i, j | 0 <= i < j < |p| ensures p[i] != p[j] {
      if p[i] == p[j] {
        SubWalk(links, p, u, v, 0, i);
        SubWalk(links, p, u, v, j, |p| - 1);
        JoinWalks(links, p[0..i + 1], p[j..|p|], u, p[i], v);
        assert Counted(links, p[0..i + 1] + p[j..|p|][1..], u, v);
      }
    }
  }

  /** A node other than `v` has one neighbour that is no farther from `v` than itself. */
  lemma {:induction false} OneWayTowards(nodes: seq<Id>, links: seq<Link>, t: Table, u: Id, v: Id, w: Id, x: Id)
    requires Measured(nodes, links, t) && u in nodes && v in nodes && w in nodes && x in nodes
    requires u != v && Adjacent(links, u, w) && Adjacent(links, u, x)
    requires D(t, w, v) <= D(t, u, v) && D(t, x, v) <= D(t, u, v)
    ensures w == x
  {
    var p := SimpleFrom(nodes, links, t, u, v, w);
    var q := SimpleFrom(nodes, links, t, u, v, x);
    assert p == q;
  }

  /** From `u`, going first to a neighbour that is no farther from `v`, and on without coming back. */
  lemma SimpleFrom(nodes: seq<Id>, links: seq<Link>, t: Table, u: Id, v: Id, w: Id) returns (p: seq<Id>)
    requires Measured(nodes, links, t) && u in nodes && v in nodes && w in nodes
    requires Adjacent(links, u, w) && D(t, w, v) <= D(t, u, v)
    ensures Walk(links, p, u, v) && Simple(p) && |p| > 1 && p[1] == w
  {
    var q := ShortestWalk(nodes, links, t, w, v);
    forall i | 0 <= i < |q| ensures q[i] != u {
      Avoids(nodes, links, t, q, w, v, u, i);
    }
    p := StepFirst(links, q, u, w, v);
  }

  /** A shortest walk from `w` does not pass through another node that is as far off as `w`. */
  lemma Avoids(nodes: seq<Id>, links: seq<Link>, t: Table, q: seq<Id>, w: Id, v: Id, u: Id, i: nat)
    requires Exact(nodes, links, t) && u in nodes && v in nodes && !Adjacent(links, u, u) && u != w
    requires Walk(links, q, w, v) && |q| == D(t, w, v) + 1 && D(t, w, v) <= D(t, u, v) && i < |q|
    ensures q[i] != u
  {
    if q[i] == u {
      SubWalk(links, q, w, v, i, |q| - 1);
      assert Counted(links, q[i..|q|], u, v);
    }
  }

  lemma StepFirst(links: seq<Link>, q: seq<Id>, u: Id, w: Id, v: Id) returns (p: seq<Id>)
    requires Walk(links, q, w, v) && Simple(q) && Adjacent(links, u, w)
    requires forall i :: 0 <= i < |q| ==> q[i] != u
    ensures Walk(links, p, u, v) && Simple(p) && |p| > 1 && p[1] == w
  {
    p := [u] + q;
    forall i | 0 <= i < |p| - 1 ensures Adjacent(links, p[i], p[i + 1]) {
      if i > 0 { assert p[i] == q[i - 1] && p[i + 1] == q[i - 1 + 1]; }
    }
  }

  /** Some neighbour is one hop nearer. */
  lemma NearerNeighbour(nodes: seq<Id>, links: seq<Link>, t: Table, u: Id, c: Id) returns (w: Id)
    requires Measured(nodes, links, t) && u in nodes && c in nodes && u != c
    ensures w in nodes && Adjacent(links, u, w) && D(t, w, c) + 1 == D(t, u, c)
  {
    Reachable(nodes, links, t, u, c);
    var p := ShortestWalk(nodes, links, t, u, c);
    w := p[1];
    assert Adjacent(links, p[0], p[0 + 1]);
    WalkStaysInside(nodes, links, p, u, c, 1);
    SubWalk(links, p, u, c, 1, |p| - 1);
    assert Counted(links, p[1..|p|], w, c);
    OneStep(nodes, links, t, u, w, c);
  }

  /** Walking on towards `c` after a step that moved away from `v` keeps moving away from `v`. */
  lemma {:induction false} Away(nodes: seq<Id>, links: seq<Link>, t: Table, prev: Id, cur: Id, c: Id, v: Id)
    requires Measured(nodes, links, t) && prev in nodes && cur in nodes && c in nodes && v in nodes
    requires Adjacent(links, prev, cur) && D(t, cur, c) + 1 == D(t, prev, c)
    requires D(t, cur, v) == D(t, prev, v) + 1
    ensures D(t, c, v) == D(t, cur, v) + D(t, cur, c)
    decreases D(t, cur, c)
  {
    Reachable(nodes, links, t, cur, c);
    Reachable(nodes, links, t, cur, v);
    if cur != c {
      var next := NearerNeighbour(nodes, links, t, cur, c);
      OneStep(nodes, links, t, cur, next, v);
      AdjacentSymmetric(links, prev, cur);
      if D(t, next, v) <= D(t, cur, v) {
        OneWayTowards(nodes, links, t, cur, v, next, prev);
      }
      Away(nodes, links, t, cur, next, c, v);
    }
  }

  /** If `c` is at least as central as `u`, and either strictly more central or two hops off, then the
      neighbour of `u` towards `c` is strictly more central than `u`. */
  lemma {:induction false} DownhillNeighbour(nodes: seq<Id>, links: seq<Link>, t: Table, u: Id, c: Id) returns (w: Id)
    requires Measured(nodes, links, t) && u in nodes && c in nodes && u != c
    requires RowMax(t, c, nodes) <= RowMax(t, u, nodes)
    requires RowMax(t, c, nodes) < RowMax(t, u, nodes) || D(t, u, c) >= 2
    ensures w in nodes && Adjacent(links, u, w) && RowMax(t, w, nodes) < RowMax(t, u, nodes)
  {
    w := NearerNeighbour(nodes, links, t, u, c);
    RowMaxIsMax(t, u, nodes);
    RowMaxIsMax(t, c, nodes);
    RowMaxIsMax(t, w, nodes);
    Reachable(nodes, links, t, u, c);
    forall v | v in nodes ensures D(t, w, v) < RowMax(t, u, nodes) {
      Reachable(nodes, links, t, u, v);
      OneStep(nodes, links, t, u, w, v);
      if D(t, w, v) == D(t, u, v) + 1 {
        Away(nodes, links, t, u, w, c, v);
      } else if u != v {
        var x := NearerNeighbour(nodes, links, t, u, v);
        OneWayTowards(nodes, links, t, u, v, w, x);
      }
    }
    assert u in nodes && D(t, w, u) < RowMax(t, u, nodes);
  }

  // ---------- the centre ----------

  /** A node with a strictly more central neighbour has a parent. */
  lemma NotRoot(nodes: seq<Id>, links: seq<Link>, t: Table, u: Id, w: Id)
    requires WellFormed(nodes, links) && u in nodes && w in nodes
    requires Adjacent(links, u, w) && RowMax(t, w, nodes) < RowMax(t, u, nodes)
    ensures !Root(nodes, links, t, u)
  {
    ParentIsSmallerNeighbour(u, links, Estimates(t, nodes));
  }

  lemma CentralIsRoot(nodes: seq<Id>, links: seq<Link>, t: Table, u: Id)
    requires WellFormed(nodes, links) && Central(nodes, t, u)
    ensures Root(nodes, links, t, u)
  {
    ParentIsSmallerNeighbour(u, links, Estimates(t, nodes));
  }

  /** The nodes that `findParentNode` leaves without a parent are exactly the nodes of least
      eccentricity. */
  lemma {:induction false} RootsAreCentral(nodes: seq<Id>, links: seq<Link>, t: Table, u: Id)
    requires Measured(nodes, links, t) && u in nodes
    ensures Root(nodes, links, t, u) <==> Central(nodes, t, u)
  {
    if Central(nodes, t, u) {
      CentralIsRoot(nodes, links, t, u);
    } else {
      var c :| c in nodes && RowMax(t, c, nodes) < RowMax(t, u, nodes);
      var w := DownhillNeighbour(nodes, links, t, u, c);
      NotRoot(nodes, links, t, u, w);
    }
  }

  /** Two central nodes are adjacent. */
  lemma {:induction false} CentralNodesTouch(nodes: seq<Id>, links: seq<Link>, t: Table, a: Id, b: Id)
    requires Measured(nodes, links, t) && Central(nodes, t, a) && Central(nodes, t, b) && a != b
    ensures Adjacent(links, a, b)
  {
    Reachable(nodes, links, t, a, b);
    if D(t, a, b) >= 2 {
      var w := DownhillNeighbour(nodes, links, t, a, b);
    }
    var p := ShortestWalk(nodes, links, t, a, b);
    assert Adjacent(links, p[0], p[0 + 1]);
  }

  lemma LeastExists(t: Table, nodes: seq<Id>, some: seq<Id>) returns (u: Id)
    requires some != []
    ensures u in some && forall v :: v in some ==> RowMax(t, u, nodes) <= RowMax(t, v, nodes)
  {
    u := some[0];
    if |some| > 1 {
      assert some == [some[0]] + some[1..];
      var w := LeastExists(t, nodes, some[1..]);
      u := if RowMax(t, w, nodes) < RowMax(t, some[0], nodes) then w else some[0];
    }
  }

  /** There is no triangle in a tree. */
  lemma {:induction false} NoTriangle(nodes: seq<Id>, links: seq<Link>, t: Table, a: Id, b: Id, c: Id)
    requires Measured(nodes, links, t) && a in nodes && b in nodes && c in nodes && a != b && b != c
    requires Adjacent(links, a, b) && Adjacent(links, a, c)
    ensures !Adjacent(links, b, c)
  {
    if Adjacent(links, b, c) {
      ExactAdjacent(nodes, links, t, b, c);
      ExactAdjacent(nodes, links, t, a, b);
      Reachable(nodes, links, t, b, b);
      OneWayTowards(nodes, links, t, a, b, b, c);
    }
  }

  /** The nodes without a parent. */
  ghost function Roots(nodes: seq<Id>, links: seq<Link>, t: Table): set<Id>
    requires WellFormed(nodes, links)
  {
    set u | u in nodes && Root(nodes, links, t, u)
  }

  lemma RootsTouch(nodes: seq<Id>, links: seq<Link>, t: Table, a: Id, b: Id)
    requires Measured(nodes, links, t) && a in Roots(nodes, links, t) && b in Roots(nodes, links, t) && a != b
    ensures Adjacent(links, a, b)
  {
    RootsAreCentral(nodes, links, t, a);
    RootsAreCentral(nodes, links, t, b);
    CentralNodesTouch(nodes, links, t, a, b);
  }

  lemma SomeRoot(nodes: seq<Id>, links: seq<Link>, t: Table) returns (a: Id)
    requires Measured(nodes, links, t)
    ensures a in Roots(nodes, links, t)
  {
    a := LeastExists(t, nodes, nodes);
    RootsAreCentral(nodes, links, t, a);
  }

  /** Three different members, if there are that many. */
  lemma ThreeOf(s: set<Id>) returns (a: Id, b: Id, c: Id)
    requires |s| > 2
    ensures a in s && b in s && c in s && a != b && b != c && a != c
  {
    a :| a in s;
    assert |s - {a}| == |s| - 1;
    b :| b in s - {a};
    assert |s - {a} - {b}| == |s| - 2;
    c :| c in s - {a} - {b};
  }

  /** A tree has one root, or two that are adjacent. */
  lemma {:induction false} OneOrTwoRoots(nodes: seq<Id>, links: seq<Link>, t: Table)
    requires Measured(nodes, links, t)
    ensures 1 <= |Roots(nodes, links, t)| <= 2
    ensures forall a, b :: a in Roots(nodes, links, t) && b in Roots(nodes, links, t) && a != b ==>
              Adjacent(links, a, b)
  {
    var roots := Roots(nodes, links, t);
    var a := SomeRoot(nodes, links, t);
    assert |roots| > 0;
    if |roots| > 2 {
      var x, y, z := ThreeOf(roots);
      RootsTouch(nodes, links, t, x, y);
      RootsTouch(nodes, links, t, x, z);
      RootsTouch(nodes, links, t, y, z);
      NoTriangle(nodes, links, t, x, y, z);
    }
    forall a, b | a in roots && b in roots && a != b ensures Adjacent(links, a, b) {
      RootsTouch(nodes, links, t, a, b);
    }
  }
}
