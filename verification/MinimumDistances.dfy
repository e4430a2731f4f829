/** `iris.minimumDistances`: the in-place Floyd-Warshall over the table of hop counts. */
module MinimumDistances {
  import opened Graphs

  function Sum(a: Dist, b: Dist): Dist {
    if a.Undefined? || b.Undefined? then Undefined else Hops(a.n + b.n)
  }

  function Min(a: Dist, b: Dist): Dist {
    if a.Undefined? then b else if b.Undefined? then a else if a.n <= b.n then a else b
  }

  /** What round `k` should make of cell (u, v), read from the table `t` as the round began. */
  function Relaxed(t: Table, k: Id, u: Id, v: Id): Dist {
    Min(Lookup(t, u, v), Sum(Lookup(t, u, k), Lookup(t, k, v)))
  }

  /** Every cell is as `t` had it or already relaxed. */
  ghost predicate PartlyRelaxed(t: Table, k: Id, now: Table) {
    forall u, v :: Lookup(now, u, v) == Lookup(t, u, v) || Lookup(now, u, v) == Relaxed(t, k, u, v)
  }

  method MinimumDistances(nodes: seq<Id>, links: seq<Link>) returns (arr: Table)
    requires WellFormed(nodes, links)
    ensures Exact(nodes, links, arr)
    ensures KeysIn(arr, nodes)
  {
    arr := Initialize(nodes, links);
    InitialSound(nodes, links, arr);
    InitialComplete(nodes, links, arr);
    assert Ids(nodes[..0]) == {};
    for k := 0 to |nodes|
      invariant KeysIn(arr, nodes)
      invariant Sound(nodes, links, arr)
      invariant Complete(nodes, links, arr, Ids(nodes[..k]))
    {
      var t := arr;
      arr := Round(nodes, arr, nodes[k]);
      RoundSound(nodes, links, t, nodes[k], arr);
      RoundComplete(nodes, links, t, nodes[k], arr, Ids(nodes[..k]));
      assert nodes[..k + 1] == nodes[..k] + [nodes[k]];
      assert Ids(nodes[..k + 1]) == Ids(nodes[..k]) + {nodes[k]};
    }
    CompleteIsExact(nodes, links, arr, Ids(nodes[..|nodes|]));
  }

  /** Zero on the diagonal, then one both ways for every link. */
  method Initialize(nodes: seq<Id>, links: seq<Link>) returns (arr: Table)
    requires WellFormed(nodes, links)
    ensures KeysIn(arr, nodes)
    ensures Initial(nodes, links, arr)
  {
    arr := map[];
    for i := 0 to |nodes|
      invariant KeysIn(arr, nodes)
      invariant forall u, v :: Lookup(arr, u, v) == if u == v && u in nodes[..i] then Hops(0) else Undefined
    {
      assert nodes[..i + 1] == nodes[..i] + [nodes[i]];
      ghost var before := arr;
      arr := arr[(nodes[i], nodes[i]) := Hops(0)];
      assert forall u, v :: Lookup(arr, u, v) == if u == v == nodes[i] then Hops(0) else Lookup(before, u, v);
    }
    assert nodes[..|nodes|] == nodes;
    for i := 0 to |links|
      invariant KeysIn(arr, nodes)
      invariant Initial(nodes, links[..i], arr)
    {
      assert links[i] in links;
      arr := SetLink(nodes, links[..i], arr, links[i]);
      assert links[..i + 1] == links[..i] + [links[i]];
    }
    assert links[..|links|] == links;
  }

  method SetLink(nodes: seq<Id>, ghost before: seq<Link>, t: Table, l: Link) returns (arr: Table)
    requires l.source in nodes && l.target in nodes
    requires KeysIn(t, nodes) && Initial(nodes, before, t)
    ensures KeysIn(arr, nodes) && Initial(nodes, before + [l], arr)
  {
    arr := t[(l.source, l.target) := Hops(1)];
    arr := arr[(l.target, l.source) := Hops(1)];
    forall u, v ensures Adjacent(before + [l], u, v) == (Adjacent(before, u, v) || Joins(l, u, v)) {
      assert l in before + [l];
    }
    assert forall u, v :: Lookup(arr, u, v) == if Joins(l, u, v) then Hops(1) else Lookup(t, u, v);
  }

  /** One round of the two inner loops, which update the table they read. Row and column `k` keep their
      values throughout, so the result is as if every cell had been relaxed at once. */
  method Round(nodes: seq<Id>, t: Table, k: Id) returns (arr: Table)
    requires k in nodes
    requires KeysIn(t, nodes)
    ensures KeysIn(arr, nodes)
    ensures forall u, v | u in nodes && v in nodes :: Lookup(arr, u, v) == Relaxed(t, k, u, v)
  {
    arr := t;
    for i := 0 to |nodes|
      invariant KeysIn(arr, nodes)
      invariant PartlyRelaxed(t, k, arr)
      invariant forall u, v | u in nodes[..i] && v in nodes :: Lookup(arr, u, v) == Relaxed(t, k, u, v)
    {
      for j := 0 to |nodes|
        invariant KeysIn(arr, nodes)
        invariant PartlyRelaxed(t, k, arr)
        invariant forall u, v | u in nodes[..i] && v in nodes :: Lookup(arr, u, v) == Relaxed(t, k, u, v)
        invariant forall v | v in nodes[..j] :: Lookup(arr, nodes[i], v) == Relaxed(t, k, nodes[i], v)
      {
        PivotUnchanged(t, k, arr, nodes[i], nodes[j]);
        arr := arr[(nodes[i], nodes[j]) :=
          Min(Lookup(arr, nodes[i], nodes[j]), Sum(Lookup(arr, nodes[i], k), Lookup(arr, k, nodes[j])))];
      }
      assert nodes[..|nodes|] == nodes;
    }
    assert nodes[..|nodes|] == nodes;
  }

  /** Within a round the cells of row and column `k` never change, and relaxing twice is relaxing once. */
  lemma PivotUnchanged(t: Table, k: Id, now: Table, u: Id, v: Id)
    requires PartlyRelaxed(t, k, now)
    ensures Lookup(now, u, k) == Lookup(t, u, k) && Lookup(now, k, v) == Lookup(t, k, v)
    ensures Min(Lookup(now, u, v), Sum(Lookup(now, u, k), Lookup(now, k, v))) == Relaxed(t, k, u, v)
  {
    assert Relaxed(t, k, u, k) == Lookup(t, u, k);
    assert Relaxed(t, k, k, v) == Lookup(t, k, v);
  }

  // ---------- the mathematics of a round ----------

  ghost predicate Initial(nodes: seq<Id>, links: seq<Link>, t: Table) {
    forall u, v | u in nodes && v in nodes ::
      Lookup(t, u, v) == if Adjacent(links, u, v) then Hops(1) else if u == v then Hops(0) else Undefined
  }

  lemma InitialSound(nodes: seq<Id>, links: seq<Link>, t: Table)
    requires Initial(nodes, links, t)
    ensures Sound(nodes, links, t)
  {
    forall u, v | u in nodes && v in nodes && Lookup(t, u, v).Hops?
      ensures exists p :: Counted(links, p, u, v) && |p| == Lookup(t, u, v).n + 1
    {
      var p := if Adjacent(links, u, v) then [u, v] else [u];
      assert Counted(links, p, u, v);
    }
  }

  lemma SecondIsInterior(p: seq<Id>, s: set<Id>)
    requires |p| > 2 && InteriorIn(p, s)
    ensures p[1] in s
  {
  }

  lemma InitialComplete(nodes: seq<Id>, links: seq<Link>, t: Table)
    requires Initial(nodes, links, t)
    ensures Complete(nodes, links, t, {})
  {
    forall p, u, v | u in nodes && v in nodes && Counted(links, p, u, v) && InteriorIn(p, {})
      ensures Lookup(t, u, v).Hops? && Lookup(t, u, v).n + 1 <= |p|
    {
      if |p| > 2 { SecondIsInterior(p, {}); }
      if |p| == 2 { assert Adjacent(links, p[0], p[0 + 1]); }
    }
  }

  lemma RoundSound(nodes: seq<Id>, links: seq<Link>, t: Table, k: Id, t': Table)
    requires k in nodes && Sound(nodes, links, t)
    requires forall u, v | u in nodes && v in nodes :: Lookup(t', u, v) == Relaxed(t, k, u, v)
    ensures Sound(nodes, links, t')
  {
    forall u, v | u in nodes && v in nodes && Lookup(t', u, v).Hops?
      ensures exists p :: Counted(links, p, u, v) && |p| == Lookup(t', u, v).n + 1
    {
      if Lookup(t', u, v) != Lookup(t, u, v) {
        var p :| Counted(links, p, u, k) && |p| == Lookup(t, u, k).n + 1;
        var q :| Counted(links, q, k, v) && |q| == Lookup(t, k, v).n + 1;
        JoinWalks(links, p, q, u, k, v);
        assert Counted(links, p + q[1..], u, v);
      }
    }
  }

  lemma RoundComplete(nodes: seq<Id>, links: seq<Link>, t: Table, k: Id, t': Table, s: set<Id>)
    requires k in nodes && Complete(nodes, links, t, s)
    requires forall u, v | u in nodes && v in nodes :: Lookup(t', u, v) == Relaxed(t, k, u, v)
    ensures Complete(nodes, links, t', s + {k})
  {
    forall p, u, v | u in nodes && v in nodes && Counted(links, p, u, v) && InteriorIn(p, s + {k})
      ensures Lookup(t', u, v).Hops? && Lookup(t', u, v).n + 1 <= |p|
    {
      if !InteriorIn(p, s) {
        SplitAtPivot(nodes, links, t, k, s, p, u, v);
      }
    }
  }

  lemma First(p: seq<Id>, k: Id, m: nat) returns (a: nat)
    requires 0 < m < |p| && p[m] == k
    ensures 0 < a <= m && p[a] == k && forall i :: 0 < i < a ==> p[i] != k
  {
    a := 1;
    while p[a] != k
      invariant 0 < a <= m && forall i :: 0 < i < a ==> p[i] != k
      decreases m - a
    {
      a := a + 1;
    }
  }

  lemma Last(p: seq<Id>, k: Id, m: nat) returns (b: nat)
    requires m < |p| - 1 && p[m] == k
    ensures m <= b < |p| - 1 && p[b] == k && forall i :: b < i < |p| - 1 ==> p[i] != k
  {
    b := |p| - 2;
    while p[b] != k
      invariant m <= b < |p| - 1 && forall i :: b < i < |p| - 1 ==> p[i] != k
      decreases b
    {
      b := b - 1;
    }
  }

  /** A walk that passes through `k` is no shorter than its part up to the first `k` together with its
      part from the last `k`; neither of these has `k` inside. */
  lemma SplitAtPivot(nodes: seq<Id>, links: seq<Link>, t: Table, k: Id, s: set<Id>, p: seq<Id>, u: Id, v: Id)
    requires k in nodes && u in nodes && v in nodes && Complete(nodes, links, t, s)
    requires Counted(links, p, u, v) && InteriorIn(p, s + {k}) && !InteriorIn(p, s)
    ensures Lookup(t, u, k).Hops? && Lookup(t, k, v).Hops? && Lookup(t, u, k).n + Lookup(t, k, v).n + 1 <= |p|
  {
    var m :| 0 < m < |p| - 1 && p[m] !in s;
    assert p[m] == k;
    var a := First(p, k, m);
    var b := Last(p, k, m);
    SubWalk(links, p, u, v, 0, a);
    SubWalk(links, p, u, v, b, |p| - 1);
    assert InteriorIn(p[0..a + 1], s) && Counted(links, p[0..a + 1], u, k);
    assert InteriorIn(p[b..|p|], s) && Counted(links, p[b..|p|], k, v);
  }

  lemma CompleteIsExact(nodes: seq<Id>, links: seq<Link>, t: Table, s: set<Id>)
    requires WellFormed(nodes, links) && Sound(nodes, links, t) && Complete(nodes, links, t, s)
    requires forall u :: u in nodes ==> u in s
    ensures Exact(nodes, links, t)
  {
    forall p, u, v | u in nodes && v in nodes && Counted(links, p, u, v)
      ensures Lookup(t, u, v).Hops? && Lookup(t, u, v).n + 1 <= |p|
    {
      forall i | 0 < i < |p| - 1 ensures p[i] in s {
        WalkStaysInside(nodes, links, p, u, v, i);
      }
      assert InteriorIn(p, s);
    }
  }
}
