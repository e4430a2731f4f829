/** Walks in the topology graph, and what the hop-count table is meant to hold. */
module Graphs {

  type Id = string

  datatype Link = Link(source: Id, target: Id)

  /** A table cell; `Undefined` is also what reading a missing cell gives. */
  datatype Dist = Undefined | Hops(n: nat)

  /** The nested `arr[u][v]` object. */
  type Table = map<(Id, Id), Dist>

  function Lookup(t: Table, u: Id, v: Id): Dist {
    if (u, v) in t then t[(u, v)] else Undefined
  }

  /** Only known nodes have cells. */
  ghost predicate KeysIn(t: Table, nodes: seq<Id>) {
    forall u, v :: (u, v) in t ==> u in nodes && v in nodes
  }

  /** The number a defined cell holds; an undefined one never exceeds anything. */
  function Value(d: Dist): nat {
    if d.Hops? then d.n else 0
  }

  function Ids(nodes: seq<Id>): set<Id> {
    set x | x in nodes
  }

  predicate Joins(l: Link, u: Id, v: Id) {
    (l.source == u && l.target == v) || (l.source == v && l.target == u)
  }

  predicate Adjacent(links: seq<Link>, u: Id, v: Id) {
    exists l :: l in links && Joins(l, u, v)
  }

  /** Every link ends at known nodes; the source throws otherwise. */
  predicate WellFormed(nodes: seq<Id>, links: seq<Link>) {
    forall l :: l in links ==> l.source in nodes && l.target in nodes
  }

  ghost predicate Walk(links: seq<Link>, p: seq<Id>, u: Id, v: Id) {
    && p != [] && p[0] == u && p[|p| - 1] == v
    && forall i :: 0 <= i < |p| - 1 ==> Adjacent(links, p[i], p[i + 1])
  }

  ghost predicate Connected(links: seq<Link>, u: Id, v: Id) {
    exists p :: Walk(links, p, u, v)
  }

  ghost predicate Simple(p: seq<Id>) {
    forall i, j :: 0 <= i < j < |p| ==> p[i] != p[j]
  }

  /** `d` is the least number of hops from `u` to `v`. */
  ghost predicate MinHops(links: seq<Link>, u: Id, v: Id, d: nat) {
    && (exists p :: Walk(links, p, u, v) && |p| == d + 1)
    && (forall p :: Walk(links, p, u, v) ==> |p| >= d + 1)
  }

  /** The walks the table accounts for: a link from a node to itself overwrites the zero on the
      diagonal, so staying put there no longer counts as zero hops. */
  ghost predicate Counted(links: seq<Link>, p: seq<Id>, u: Id, v: Id) {
    Walk(links, p, u, v) && (|p| == 1 ==> !Adjacent(links, u, u))
  }

  ghost predicate InteriorIn(p: seq<Id>, s: set<Id>) {
    forall i :: 0 < i < |p| - 1 ==> p[i] in s
  }

  /** Defined cells are lengths of counted walks. */
  ghost predicate Sound(nodes: seq<Id>, links: seq<Link>, t: Table) {
    forall u, v | u in nodes && v in nodes && Lookup(t, u, v).Hops? ::
      exists p :: Counted(links, p, u, v) && |p| == Lookup(t, u, v).n + 1
  }

  /** No counted walk whose interior stays in `s` is shorter than its cell says. */
  ghost predicate Complete(nodes: seq<Id>, links: seq<Link>, t: Table, s: set<Id>) {
    forall p, u, v | u in nodes && v in nodes && Counted(links, p, u, v) && InteriorIn(p, s) ::
      Lookup(t, u, v).Hops? && Lookup(t, u, v).n + 1 <= |p|
  }

  /** Every cell is the length of a shortest counted walk, and undefined when there is none. */
  ghost predicate Exact(nodes: seq<Id>, links: seq<Link>, t: Table) {
    && Sound(nodes, links, t)
    && forall p, u, v | u in nodes && v in nodes && Counted(links, p, u, v) ::
         Lookup(t, u, v).Hops? && Lookup(t, u, v).n + 1 <= |p|
  }

  // ---------- walks ----------

  lemma AdjacentSymmetric(links: seq<Link>, u: Id, v: Id)
    ensures Adjacent(links, u, v) == Adjacent(links, v, u)
  {
    forall l | l in links ensures Joins(l, u, v) == Joins(l, v, u) {
    }
  }

  function Reverse(p: seq<Id>): (r: seq<Id>)
    ensures |r| == |p| && forall i :: 0 <= i < |p| ==> r[i] == p[|p| - 1 - i]
  {
    if p == [] then [] else Reverse(p[1..]) + [p[0]]
  }

  lemma ReverseWalk(links: seq<Link>, p: seq<Id>, u: Id, v: Id)
    requires Counted(links, p, u, v)
    ensures Counted(links, Reverse(p), v, u)
  {
    var r := Reverse(p);
    forall i | 0 <= i < |r| - 1 ensures Adjacent(links, r[i], r[i + 1]) {
      AdjacentSymmetric(links, p[|p| - 2 - i], p[|p| - 1 - i]);
      assert Adjacent(links, p[|p| - 2 - i], p[|p| - 2 - i + 1]);
    }
  }

  lemma JoinWalks(links: seq<Link>, p: seq<Id>, q: seq<Id>, u: Id, v: Id, w: Id)
    requires Walk(links, p, u, v) && Walk(links, q, v, w)
    ensures Walk(links, p + q[1..], u, w)
  {
    var r := p + q[1..];
    forall i | 0 <= i < |r| - 1 ensures Adjacent(links, r[i], r[i + 1]) {
      if i >= |p| - 1 {
        assert r[i] == q[i - (|p| - 1)] && r[i + 1] == q[i - (|p| - 1) + 1];
      }
    }
  }

  lemma SubWalk(links: seq<Link>, p: seq<Id>, u: Id, v: Id, a: nat, b: nat)
    requires Walk(links, p, u, v) && a <= b < |p|
    ensures Walk(links, p[a..b + 1], p[a], p[b])
  {
  }

  /** All the nodes of a walk from a known node are known. */
  lemma WalkStaysInside(nodes: seq<Id>, links: seq<Link>, p: seq<Id>, u: Id, v: Id, i: nat)
    requires WellFormed(nodes, links) && u in nodes && Walk(links, p, u, v) && i < |p|
    ensures p[i] in nodes
  {
    if i > 0 {
      assert Adjacent(links, p[i - 1], p[i - 1 + 1]);
    }
  }

  // ---------- what an exact table says ----------

  /** Off the diagonal, and on it away from self-links, a cell is the minimum number of hops. A cell
      falls short of that exactly on the diagonal of a node linked to itself, where it is 1. */
  lemma {:induction false} ExactMeansMinHops(nodes: seq<Id>, links: seq<Link>, t: Table, u: Id, v: Id)
    requires Exact(nodes, links, t) && u in nodes && v in nodes
    ensures Lookup(t, u, v).Undefined? <==> !Connected(links, u, v)
    ensures Lookup(t, u, v).Hops? ==>
              (MinHops(links, u, v, Lookup(t, u, v).n) <==> !(u == v && Adjacent(links, u, u)))
    ensures u == v && Adjacent(links, u, u) ==> Lookup(t, u, u) == Hops(1)
  {
    if u == v && Adjacent(links, u, u) {
      assert Walk(links, [u], u, u);
      assert Counted(links, [u, u], u, u);
    } else {
      forall p | Walk(links, p, u, v) ensures Counted(links, p, u, v) {
      }
    }
  }

  /** A node of one's own: the code's table for a single self-linked node says one hop, not zero. */
  lemma {:induction false} SelfLinkExample(t: Table)
    requires Exact(["a"], [Link("a", "a")], t)
    ensures Lookup(t, "a", "a") == Hops(1) && MinHops([Link("a", "a")], "a", "a", 0)
  {
    var links := [Link("a", "a")];
    assert Joins(links[0], "a", "a");
    ExactMeansMinHops(["a"], links, t, "a", "a");
    assert Walk(links, ["a"], "a", "a");
  }

  lemma {:induction false} ExactSymmetric(nodes: seq<Id>, links: seq<Link>, t: Table, u: Id, v: Id)
    requires Exact(nodes, links, t) && u in nodes && v in nodes
    ensures Lookup(t, u, v) == Lookup(t, v, u)
  {
    if Lookup(t, u, v).Hops? { AtMostReversed(nodes, links, t, u, v); }
    if Lookup(t, v, u).Hops? { AtMostReversed(nodes, links, t, v, u); }
  }

  lemma AtMostReversed(nodes: seq<Id>, links: seq<Link>, t: Table, u: Id, v: Id)
    requires Exact(nodes, links, t) && u in nodes && v in nodes && Lookup(t, u, v).Hops?
    ensures Lookup(t, v, u).Hops? && Lookup(t, v, u).n <= Lookup(t, u, v).n
  {
    var p :| Counted(links, p, u, v) && |p| == Lookup(t, u, v).n + 1;
    ReverseWalk(links, p, u, v);
  }

  lemma {:induction false} ExactTriangle(nodes: seq<Id>, links: seq<Link>, t: Table, u: Id, v: Id, w: Id)
    requires Exact(nodes, links, t) && u in nodes && v in nodes && w in nodes
    requires Lookup(t, u, v).Hops? && Lookup(t, v, w).Hops?
    ensures Lookup(t, u, w).Hops? && Lookup(t, u, w).n <= Lookup(t, u, v).n + Lookup(t, v, w).n
  {
    var p :| Counted(links, p, u, v) && |p| == Lookup(t, u, v).n + 1;
    var q :| Counted(links, q, v, w) && |q| == Lookup(t, v, w).n + 1;
    JoinWalks(links, p, q, u, v, w);
    assert Counted(links, p + q[1..], u, w);
  }

  lemma {:induction false} ExactAdjacent(nodes: seq<Id>, links: seq<Link>, t: Table, u: Id, v: Id)
    requires Exact(nodes, links, t) && u in nodes && v in nodes && Adjacent(links, u, v)
    ensures Lookup(t, u, v) == Hops(1) && Lookup(t, v, u) == Hops(1)
  {
    assert Counted(links, [u, v], u, v);
    ExactSymmetric(nodes, links, t, u, v);
    var p :| Counted(links, p, u, v) && |p| == Lookup(t, u, v).n + 1;
  }
}
