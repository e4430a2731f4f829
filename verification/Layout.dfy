/** `iris.adjustXandY`: angles and positions are handed out from parents to children in order of value.
    `turn[p]` stands for 360 / p.weight, and `unit(a)` for the cosine and sine of `a` degrees. */
module Layout {
  import opened Graphs
  import opened Eccentricity

  /** What `_.sortBy` returns: the nodes in ascending order of value. */
  ghost predicate SortedByValue(ns: seq<Id>, value: Values) {
    && (forall i, j :: 0 <= i < j < |ns| ==> ns[i] != ns[j])
    && (forall n :: n in ns ==> n in value)
    && forall i, j | 0 <= i < j < |ns| :: value[ns[i]] <= value[ns[j]]
  }

  /** Link ends are among the sorted nodes and have a positive value. */
  predicate Placeable(ns: seq<Id>, links: seq<Link>, value: Values) {
    forall l :: l in links ==>
      && l.source in ns && l.target in ns && l.source in value && l.target in value
      && value[l.source] >= 1 && value[l.target] >= 1
  }

  lemma InOrder(ns: seq<Id>, value: Values, i: nat, j: nat)
    requires SortedByValue(ns, value) && i < j < |ns|
    ensures value[ns[i]] <= value[ns[j]]
  {
  }

  /** A parent comes before its children in the sorted traversal, is linked to them, and can be divided by. */
  lemma ParentComesFirst(ns: seq<Id>, links: seq<Link>, value: Values, k: nat) returns (j: nat)
    requires SortedByValue(ns, value) && Placeable(ns, links, value) && k < |ns|
    requires ParentOf(ns[k], links, value) != ns[k]
    ensures j < k && ns[j] == ParentOf(ns[k], links, value) && 1 <= value[ns[j]] < value[ns[k]]
  {
    var p := ParentOf(ns[k], links, value);
    ParentIsSmallerNeighbour(ns[k], links, value);
    var l :| l in links && Joins(l, ns[k], p);
    assert p in ns;
    j :| 0 <= j < |ns| && ns[j] == p;
    if j > k {
      InOrder(ns, value, k, j);
    }
  }

  /** A parent is one of the nodes, with a value that can be divided by. */
  lemma ParentCounts(ns: seq<Id>, links: seq<Link>, value: Values, k: nat)
    requires SortedByValue(ns, value) && Placeable(ns, links, value) && k < |ns|
    requires ParentOf(ns[k], links, value) != ns[k]
    ensures var p := ParentOf(ns[k], links, value); p in ns && value[p] >= 1
  {
    var j := ParentComesFirst(ns, links, value, k);
  }

  /** How far from its parent a child is put. */
  function NDistance(value: nat): (d: real)
    requires value >= 1
    ensures 0.0 < d <= 250.0 && d * value as real == 250.0
  {
    250.0 / value as real
  }

  /** The length a link is drawn with: the radius that the end of smaller value gives its children. */
  function Distance(l: Link, value: Values): (d: real)
    requires l.source in value && l.target in value && value[l.source] >= 1 && value[l.target] >= 1
    ensures 0.0 < d <= 250.0
    ensures d == NDistance(value[l.source]) || d == NDistance(value[l.target])
    ensures d >= NDistance(value[l.source]) && d >= NDistance(value[l.target])
  {
    var x := if value[l.source] <= value[l.target] then value[l.source] else value[l.target];
    RadiusShrinks(x, value[l.source]);
    RadiusShrinks(x, value[l.target]);
    NDistance(x)
  }

  lemma RadiusShrinks(x: nat, y: nat)
    requires 1 <= x <= y
    ensures NDistance(x) >= NDistance(y)
  {
    var a, b := x as real, y as real;
    assert 250.0 / a >= 250.0 / b;
  }

  // ---------- the forest ----------

  type Parents = map<Id, Id>

  /** The parent of every node. */
  function ParentsOf(ns: seq<Id>, links: seq<Link>, value: Values): (up: Parents)
    requires (forall n :: n in ns ==> n in value) && Placeable(ns, links, value)
    ensures forall n :: n in ns ==> n in up
    ensures forall n {:trigger up[n]} :: n in ns ==> up[n] == ParentOf(n, links, value)
  {
    map n | n in ns :: ParentOf(n, links, value)
  }

  /** Every node is its own parent or comes after its parent. */
  ghost predicate Forest(ns: seq<Id>, up: Parents) {
    && (forall i, j :: 0 <= i < j < |ns| ==> ns[i] != ns[j])
    && (forall n :: n in ns ==> n in up)
    && (forall k {:trigger up[ns[k]]} :: 0 <= k < |ns| ==> up[ns[k]] == ns[k] || up[ns[k]] in ns[..k])
  }

  lemma {:induction false} SortedIsForest(ns: seq<Id>, links: seq<Link>, value: Values)
    requires SortedByValue(ns, value) && Placeable(ns, links, value)
    ensures Forest(ns, ParentsOf(ns, links, value))
  {
    forall k | 0 <= k < |ns| && ParentOf(ns[k], links, value) != ns[k]
      ensures ParentOf(ns[k], links, value) in ns[..k]
    {
      var j := ParentComesFirst(ns, links, value, k);
      assert ns[..k][j] == ns[j];
    }
  }

  /** How many of the first `k` nodes are children of `p`. */
  function Children(ns: seq<Id>, k: nat, p: Id, up: Parents): nat
    requires k <= |ns| && forall n :: n in ns ==> n in up
  {
    if k == 0 then 0
    else Children(ns, k - 1, p, up) + if ns[k - 1] != p && up[ns[k - 1]] == p then 1 else 0
  }

  /** That is the number of places below `k` that hold a child of `p`. */
  lemma {:induction false} ChildrenAre(ns: seq<Id>, k: nat, p: Id, up: Parents)
    requires k <= |ns| && forall n :: n in ns ==> n in up
    ensures Children(ns, k, p, up) == |set i: nat | i < k && ns[i] != p && up[ns[i]] == p|
  {
    var s := set i: nat | i < k && ns[i] != p && up[ns[i]] == p;
    if k == 0 {
      assert s == {};
    } else {
      ChildrenAre(ns, k - 1, p, up);
      var t := set i: nat | i < k - 1 && ns[i] != p && up[ns[i]] == p;
      assert s == if ns[k - 1] != p && up[ns[k - 1]] == p then t + {k - 1} else t;
    }
  }

  type Angles = map<Id, real>

  /** `turn` added up `count` times. */
  function Turns(count: nat, turn: real): real {
    if count == 0 then 0.0 else Turns(count - 1, turn) + turn
  }

  lemma {:induction false} TurnsAre(count: nat, turn: real)
    ensures Turns(count, turn) == count as real * turn
  {
    if count > 0 { TurnsAre(count - 1, turn); }
  }

  /** Node `k` has its final angle: -45 for a root, and otherwise half a turn back from its parent plus
      one `turn` for each of the parent's children up to and including itself. */
  ghost predicate Placed(ns: seq<Id>, k: nat, up: Parents, turn: Angles, angle: Angles)
    requires k < |ns| && forall n :: n in ns ==> n in up
  {
    var n, p := ns[k], up[ns[k]];
    && n in angle
    && if p == n then angle[n] == -45.0
       else p in angle && p in turn && angle[n] == angle[p] - 180.0 + Turns(Children(ns, k + 1, p, up), turn[p])
  }

  /** `degree` holds the angle given to the last child of `p` so far, and nothing before the first. */
  ghost predicate Handed(ns: seq<Id>, k: nat, p: Id, up: Parents, turn: Angles, angle: Angles, degree: Angles)
    requires k <= |ns| && forall n :: n in ns ==> n in up
  {
    var c := Children(ns, k, p, up);
    && (p in degree <==> c > 0)
    && (c > 0 ==> p in angle && p in turn && degree[p] == angle[p] - 180.0 + Turns(c, turn[p]))
  }

  /** The state after the first `k` nodes: exactly they have angles, all of them final, and `degree` is
      up to date. */
  ghost predicate Progress(ns: seq<Id>, k: nat, up: Parents, turn: Angles, angle: Angles, degree: Angles)
    requires k <= |ns| && forall n :: n in ns ==> n in up
  {
    && (forall i :: 0 <= i < |ns| ==> (ns[i] in angle <==> i < k))
    && (forall i | 0 <= i < k :: Placed(ns, i, up, turn, angle))
    && (forall p | p in ns :: Handed(ns, k, p, up, turn, angle, degree))
  }

  // ---------- positions ----------

  type Positions = map<Id, (real, real)>

  /** The point at distance `r` from `centre` in the direction `dir`. */
  function Polar(centre: (real, real), r: real, dir: (real, real)): (real, real) {
    (centre.0 + r * dir.0, centre.1 + r * dir.1)
  }

  /** It lies straight in that direction: to the east or the north for the axes, and at that distance from
      the centre for every direction of length one. */
  lemma PolarIsThere(centre: (real, real), r: real, dir: (real, real))
    ensures var p := Polar(centre, r, dir);
            && (dir.0 == 1.0 && dir.1 == 0.0 ==> p.0 == centre.0 + r && p.1 == centre.1)
            && (dir.0 == 0.0 && dir.1 == 1.0 ==> p.0 == centre.0 && p.1 == centre.1 + r)
            && (dir.0 * dir.0 + dir.1 * dir.1 == 1.0 ==>
                  (p.0 - centre.0) * (p.0 - centre.0) + (p.1 - centre.1) * (p.1 - centre.1) == r * r)
  {
    var p := Polar(centre, r, dir);
    assert p.0 - centre.0 == r * dir.0 && p.1 - centre.1 == r * dir.1;
    SquaresScale(r, dir.0, dir.1);
  }

  lemma SquaresScale(r: real, x: real, y: real)
    ensures (r * x) * (r * x) + (r * y) * (r * y) == r * r * (x * x + y * y)
  {
  }

  /** A root is where it was; any other node is off its parent, at the radius its parent's value gives
      and in the direction of its own angle. */
  ghost predicate Positioned(n: Id, up: Parents, value: Values, unit: real -> (real, real),
                             start: Positions, angle: Angles, pos: Positions)
  {
    && n in up && n in angle && n in pos && n in start
    && if up[n] == n then pos[n] == start[n]
       else up[n] in pos && up[n] in value && value[up[n]] >= 1
            && pos[n] == Polar(pos[up[n]], NDistance(value[up[n]]), unit(angle[n]))
  }

  /** The first `k` nodes are in place, and the others have not moved. */
  ghost predicate InPlace(ns: seq<Id>, k: nat, up: Parents, value: Values, unit: real -> (real, real),
                          start: Positions, angle: Angles, pos: Positions)
    requires k <= |ns|
  {
    && (forall i {:trigger Positioned(ns[i], up, value, unit, start, angle, pos)} | 0 <= i < k ::
          Positioned(ns[i], up, value, unit, start, angle, pos))
    && (forall i | k <= i < |ns| :: ns[i] in pos && ns[i] in start && pos[ns[i]] == start[ns[i]])
  }

  /** Placing a later node leaves earlier ones where they are: their parents came earlier still. */
  lemma {:induction false} PlaceOne(ns: seq<Id>, k: nat, up: Parents, value: Values, unit: real -> (real, real),
                                    start: Positions, angle: Angles, pos: Positions, a: real, at: (real, real))
    requires Forest(ns, up) && k < |ns| && InPlace(ns, k, up, value, unit, start, angle, pos)
    requires Positioned(ns[k], up, value, unit, start, angle[ns[k] := a], pos[ns[k] := at])
    ensures InPlace(ns, k + 1, up, value, unit, start, angle[ns[k] := a], pos[ns[k] := at])
  {
    forall i | 0 <= i < k ensures Positioned(ns[i], up, value, unit, start, angle[ns[k] := a], pos[ns[k] := at]) {
      assert Positioned(ns[i], up, value, unit, start, angle, pos);
      ParentPlacedBefore(ns, up, i, k);
      assert ns[i] != ns[k];
    }
  }

  /** An earlier node's parent is not node `k`. */
  lemma ParentPlacedBefore(ns: seq<Id>, up: Parents, i: nat, k: nat)
    requires Forest(ns, up) && i < k < |ns|
    ensures up[ns[i]] != ns[k]
  {
    if up[ns[i]] != ns[i] {
      var j :| 0 <= j < i && ns[..i][j] == up[ns[i]];
      assert ns[j] == up[ns[i]] != ns[k];
    }
  }

  lemma ChildInPlace(ns: seq<Id>, k: nat, up: Parents, value: Values, unit: real -> (real, real),
                     start: Positions, angle: Angles, pos: Positions, a: real)
    requires Forest(ns, up) && k < |ns| && InPlace(ns, k, up, value, unit, start, angle, pos)
    requires up[ns[k]] != ns[k] && up[ns[k]] in value && value[up[ns[k]]] >= 1
    ensures var p := up[ns[k]];
            && p in pos
            && InPlace(ns, k + 1, up, value, unit, start,
                       angle[ns[k] := a], pos[ns[k] := Polar(pos[p], NDistance(value[p]), unit(a))])
  {
    var p := up[ns[k]];
    var j :| 0 <= j < k && ns[..k][j] == p;
    assert ns[j] == p && Positioned(ns[j], up, value, unit, start, angle, pos);
    PlaceOne(ns, k, up, value, unit, start, angle, pos, a, Polar(pos[p], NDistance(value[p]), unit(a)));
  }

  lemma RootInPlace(ns: seq<Id>, k: nat, up: Parents, value: Values, unit: real -> (real, real),
                    start: Positions, angle: Angles, pos: Positions)
    requires Forest(ns, up) && k < |ns| && InPlace(ns, k, up, value, unit, start, angle, pos) && up[ns[k]] == ns[k]
    ensures InPlace(ns, k + 1, up, value, unit, start, angle[ns[k] := -45.0], pos)
  {
    var n := ns[k];
    assert n in pos && pos[n := pos[n]] == pos;
    PlaceOne(ns, k, up, value, unit, start, angle, pos, -45.0, pos[n]);
  }

  // ---------- the traversal ----------

  /** Every read of a parent's angle or position is of the final one, and each node gets the angle that
      its rank among its parent's children calls for. */
  method AdjustXandY(ns: seq<Id>, links: seq<Link>, value: Values, turn: Angles,
                     unit: real -> (real, real), start: Positions)
    returns (angle: Angles, pos: Positions)
    requires SortedByValue(ns, value) && Placeable(ns, links, value)
    requires forall n :: n in ns ==> n in turn && n in start
    ensures forall k | 0 <= k < |ns| :: Placed(ns, k, ParentsOf(ns, links, value), turn, angle)
    ensures forall k | 0 <= k < |ns| ::
              Positioned(ns[k], ParentsOf(ns, links, value), value, unit, start, angle, pos)
  {
    angle, pos := map[], start;
    var degree: Angles := map[];
    ghost var up := ParentsOf(ns, links, value);
    SortedIsForest(ns, links, value);
    for k := 0 to |ns|
      invariant Progress(ns, k, up, turn, angle, degree)
      invariant InPlace(ns, k, up, value, unit, start, angle, pos)
    {
      var parent := FindParentNode(ns[k], links, value);
      if parent != ns[k] {
        ParentCounts(ns, links, value, k);
        angle, degree, pos := PutChild(ns, k, parent, value, turn, unit, angle, degree, pos, up, start);
      } else {
        angle := PutRoot(ns, k, value, turn, unit, angle, degree, pos, up, start);
      }
    }
    Finished(ns, up, value, turn, unit, start, angle, degree, pos);
  }

  /** With every node dealt with, all are placed. */
  lemma Finished(ns: seq<Id>, up: Parents, value: Values, turn: Angles, unit: real -> (real, real), start: Positions,
                 angle: Angles, degree: Angles, pos: Positions)
    requires Forest(ns, up)
    requires Progress(ns, |ns|, up, turn, angle, degree) && InPlace(ns, |ns|, up, value, unit, start, angle, pos)
    ensures forall k | 0 <= k < |ns| :: Placed(ns, k, up, turn, angle)
    ensures forall k | 0 <= k < |ns| :: Positioned(ns[k], up, value, unit, start, angle, pos)
  {
  }

  /** Give node `k`, a root, its angle. */
  method PutRoot(ns: seq<Id>, k: nat, ghost value: Values, ghost turn: Angles, ghost unit: real -> (real, real),
                 angle: Angles, ghost degree: Angles, ghost pos: Positions, ghost up: Parents, ghost start: Positions)
    returns (angle': Angles)
    requires Forest(ns, up) && k < |ns| && up[ns[k]] == ns[k]
    requires Progress(ns, k, up, turn, angle, degree) && InPlace(ns, k, up, value, unit, start, angle, pos)
    ensures Progress(ns, k + 1, up, turn, angle', degree)
    ensures InPlace(ns, k + 1, up, value, unit, start, angle', pos)
  {
    RootStep(ns, k, up, turn, angle, degree);
    RootInPlace(ns, k, up, value, unit, start, angle, pos);
    angle' := angle[ns[k] := -45.0];
  }

  /** Put node `k` a turn on from the last child of its parent. */
  method PutChild(ns: seq<Id>, k: nat, parent: Id, value: Values, turn: Angles, unit: real -> (real, real),
                  angle: Angles, degree: Angles, pos: Positions, ghost up: Parents, ghost start: Positions)
    returns (angle': Angles, degree': Angles, pos': Positions)
    requires Forest(ns, up) && k < |ns| && parent == up[ns[k]] != ns[k]
    requires parent in turn && parent in value && value[parent] >= 1
    requires Progress(ns, k, up, turn, angle, degree) && InPlace(ns, k, up, value, unit, start, angle, pos)
    ensures Progress(ns, k + 1, up, turn, angle', degree')
    ensures InPlace(ns, k + 1, up, value, unit, start, angle', pos')
  {
    ChildStep(ns, k, up, turn, angle, degree);
    ChildInPlace(ns, k, up, value, unit, start, angle, pos, NextAngle(parent, angle, turn, degree));
    degree' := TurnOnce(parent, angle, turn, degree);
    var a := degree'[parent];
    angle' := angle[ns[k] := a];
    pos' := pos[ns[k] := Polar(pos[parent], NDistance(value[parent]), unit(a))];
  }

  /** The parent's running angle, moved on by one child. */
  function NextAngle(parent: Id, angle: Angles, turn: Angles, degree: Angles): real
    requires parent in angle && parent in turn
  {
    if parent in degree then degree[parent] + turn[parent] else angle[parent] - 180.0 + turn[parent]
  }

  method TurnOnce(parent: Id, angle: Angles, turn: Angles, degree: Angles) returns (after: Angles)
    requires parent in angle && parent in turn
    ensures after == degree[parent := NextAngle(parent, angle, turn, degree)]
  {
    if parent !in degree {
      after := degree[parent := angle[parent] - 180.0 + turn[parent]];
    } else {
      after := degree[parent := degree[parent] + turn[parent]];
    }
  }

  lemma {:induction false} RootStep(ns: seq<Id>, k: nat, up: Parents, turn: Angles, angle: Angles, degree: Angles)
    requires Forest(ns, up) && k < |ns| && up[ns[k]] == ns[k] && Progress(ns, k, up, turn, angle, degree)
    ensures Progress(ns, k + 1, up, turn, angle[ns[k] := -45.0], degree)
  {
    var angle' := angle[ns[k] := -45.0];
    forall i | 0 <= i < k ensures Placed(ns, i, up, turn, angle') {
      PlacedStays(ns, i, k, up, turn, angle, -45.0);
    }
    forall p | p in ns ensures Handed(ns, k + 1, p, up, turn, angle', degree) {
      assert Handed(ns, k, p, up, turn, angle, degree);
      NoChildrenYet(ns, up, k);
    }
  }

  lemma {:induction false} ChildStep(ns: seq<Id>, k: nat, up: Parents, turn: Angles, angle: Angles, degree: Angles)
    requires Forest(ns, up) && k < |ns| && up[ns[k]] != ns[k] && up[ns[k]] in turn
    requires Progress(ns, k, up, turn, angle, degree)
    ensures up[ns[k]] in angle
    ensures var parent := up[ns[k]];
            var d := NextAngle(parent, angle, turn, degree);
            Progress(ns, k + 1, up, turn, angle[ns[k] := d], degree[parent := d])
  {
    var parent := up[ns[k]];
    var j :| 0 <= j < k && ns[..k][j] == parent;
    assert ns[j] == parent;
    var d := NextAngle(parent, angle, turn, degree);
    var angle', degree' := angle[ns[k] := d], degree[parent := d];
    ChildAngle(ns, k, up, turn, angle, degree);
    forall i | 0 <= i < k ensures Placed(ns, i, up, turn, angle') {
      PlacedStays(ns, i, k, up, turn, angle, d);
    }
    assert Placed(ns, k, up, turn, angle');
    forall p | p in ns ensures Handed(ns, k + 1, p, up, turn, angle', degree') {
      HandedStep(ns, k, p, up, turn, angle, degree);
    }
  }

  /** The angle of the next child is what its rank calls for. */
  lemma {:induction false} ChildAngle(ns: seq<Id>, k: nat, up: Parents, turn: Angles, angle: Angles, degree: Angles)
    requires Forest(ns, up) && k < |ns| && up[ns[k]] != ns[k] && up[ns[k]] in turn && up[ns[k]] in angle
    requires Handed(ns, k, up[ns[k]], up, turn, angle, degree)
    ensures var parent := up[ns[k]]; var c := Children(ns, k + 1, parent, up);
            c > 0 && NextAngle(parent, angle, turn, degree) == angle[parent] - 180.0 + Turns(c, turn[parent])
  {
    var parent := up[ns[k]];
    var c := Children(ns, k, parent, up);
    assert Children(ns, k + 1, parent, up) == c + 1;
    assert Turns(c + 1, turn[parent]) == Turns(c, turn[parent]) + turn[parent];
  }

  lemma {:induction false} HandedStep(ns: seq<Id>, k: nat, p: Id, up: Parents,
                                      turn: Angles, angle: Angles, degree: Angles)
    requires Forest(ns, up) && k < |ns| && up[ns[k]] != ns[k] && up[ns[k]] in turn && up[ns[k]] in angle
    requires p in ns && Handed(ns, k, p, up, turn, angle, degree)
    ensures var parent := up[ns[k]];
            var d := NextAngle(parent, angle, turn, degree);
            Handed(ns, k + 1, p, up, turn, angle[ns[k] := d], degree[parent := d])
  {
    if p == up[ns[k]] {
      ChildAngle(ns, k, up, turn, angle, degree);
    } else {
      assert Children(ns, k + 1, p, up) == Children(ns, k, p, up);
      NoChildrenYet(ns, up, k);
    }
  }

  /** Giving a later node its angle leaves earlier ones placed. */
  lemma PlacedStays(ns: seq<Id>, i: nat, k: nat, up: Parents, turn: Angles, angle: Angles, d: real)
    requires Forest(ns, up) && i < k < |ns| && Placed(ns, i, up, turn, angle)
    ensures Placed(ns, i, up, turn, angle[ns[k] := d])
  {
    if up[ns[i]] != ns[i] {
      var j :| 0 <= j < i && ns[..i][j] == up[ns[i]];
      assert ns[j] == up[ns[i]] != ns[k];
    }
  }

  /** No child of a node is visited before the node. */
  lemma {:induction false} NoChildrenYet(ns: seq<Id>, up: Parents, k: nat)
    requires Forest(ns, up) && k < |ns|
    ensures Children(ns, k, ns[k], up) == 0
  {
    NoChildrenUpTo(ns, up, k, k);
  }

  lemma {:induction false} NoChildrenUpTo(ns: seq<Id>, up: Parents, k: nat, m: nat)
    requires Forest(ns, up) && m <= k < |ns|
    ensures Children(ns, m, ns[k], up) == 0
  {
    if m > 0 {
      NoChildrenUpTo(ns, up, k, m - 1);
      assert ns[k] !in ns[..m - 1];
    }
  }

  /** Estimates computed from an exact table are fit for layout: both ends of a link have value at
      least 1, so no division is by zero. */
  lemma {:induction false} EstimatesArePlaceable(nodes: seq<Id>, ns: seq<Id>, links: seq<Link>, t: Table)
    requires WellFormed(nodes, links) && Exact(nodes, links, t)
    requires forall n :: n in nodes <==> n in ns
    ensures Placeable(ns, links, Estimates(t, nodes))
  {
    forall l | l in links
      ensures RowMax(t, l.source, nodes) >= 1 && RowMax(t, l.target, nodes) >= 1
    {
      assert Joins(l, l.source, l.target) && Joins(l, l.target, l.source);
      NeighbourEstimates(nodes, links, t, l.source, l.target);
      NeighbourEstimates(nodes, links, t, l.target, l.source);
    }
  }
}
