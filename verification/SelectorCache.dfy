/** Sizzle's compiled selectors: the ancestor/sibling match cache gives the answers of the uncached walk.
    Outermost matcher, document context, HTML documents; filters are pure. */
module SelectorCache {
  import opened Wrappers

  /** Nodes are numbered in document order. */
  type Node = nat

  datatype Dir = ParentNode | PreviousSibling

  /** `first` is set for the child and adjacent-sibling combinators. */
  datatype Combinator = Combinator(dir: Dir, first: bool)

  datatype Dom = Dom(parent: map<Node, Node>, previous: map<Node, Node>, elements: set<Node>) {
    /** Parents and previous siblings come earlier in the document. */
    ghost predicate Ordered() {
      && (forall n :: n in parent ==> parent[n] < n)
      && (forall n :: n in previous ==> previous[n] < n)
    }

    /** `elem[dir]`. */
    function Step(n: Node, dir: Dir): (r: Option<Node>)
      requires Ordered()
      ensures r.Some? ==> r.value < n
    {
      match dir
      case ParentNode => if n in parent then Some(parent[n]) else None
      case PreviousSibling => if n in previous then Some(previous[n]) else None
    }
  }

  /** A compiled selector: a compound of filters, behind a combinator and another selector unless it is
      the leftmost one. `name` is the combinator's `doneName`. */
  datatype Matcher =
    | Leftmost(filters: seq<Node -> bool>)
    | After(filters: seq<Node -> bool>, name: nat, comb: Combinator, inner: Matcher)

  predicate Passes(filters: seq<Node -> bool>, n: Node) {
    forall i :: 0 <= i < |filters| ==> filters[i](n)
  }

  // ---------- the uncached meaning ----------

  ghost predicate Matches(dom: Dom, m: Matcher, n: Node)
    requires dom.Ordered()
    decreases m, 0
  {
    Passes(m.filters, n) && (m.After? ==> Above(dom, m.comb, m.inner, n))
  }

  /** Walk from `n` with nothing remembered: the nearest element decides for a `first` combinator, any
      element on the way for the others. */
  ghost predicate Above(dom: Dom, comb: Combinator, inner: Matcher, n: Node)
    requires dom.Ordered()
    decreases inner, 1, n
  {
    match dom.Step(n, comb.dir)
    case None => false
    case Some(x) =>
      if x !in dom.elements then Above(dom, comb, inner, x)
      else if comb.first then Matches(dom, inner, x)
      else Matches(dom, inner, x) || Above(dom, comb, inner, x)
  }

  /** `x` is one or more steps from `n`. */
  ghost predicate Beyond(dom: Dom, dir: Dir, n: Node, x: Node)
    requires dom.Ordered()
    decreases n
  {
    var s := dom.Step(n, dir);
    s.Some? && (s.value == x || Beyond(dom, dir, s.value, x))
  }

  /** A descendant or general-sibling combinator asks for some matching ancestor or earlier sibling. */
  lemma {:induction false} AboveMeansSome(dom: Dom, dir: Dir, inner: Matcher, n: Node)
    requires dom.Ordered()
    ensures Above(dom, Combinator(dir, false), inner, n)
       <==> exists x :: Beyond(dom, dir, n, x) && x in dom.elements && Matches(dom, inner, x)
    decreases n
  {
    var s := dom.Step(n, dir);
    if s.Some? {
      AboveMeansSome(dom, dir, inner, s.value);
      assert forall x :: Beyond(dom, dir, n, x) <==> (x == s.value || Beyond(dom, dir, s.value, x));
    }
  }

  /** `x` is the closest element in the direction. */
  ghost predicate Closest(dom: Dom, dir: Dir, n: Node, x: Node)
    requires dom.Ordered()
  {
    && Beyond(dom, dir, n, x) && x in dom.elements
    && forall y :: Beyond(dom, dir, n, y) && y in dom.elements ==> y == x || Beyond(dom, dir, x, y)
  }

  /** A child or adjacent-sibling combinator asks the closest element, past any text and comments. */
  lemma {:induction false} AboveMeansClosest(dom: Dom, dir: Dir, inner: Matcher, n: Node)
    requires dom.Ordered()
    ensures Above(dom, Combinator(dir, true), inner, n)
       <==> exists x :: Closest(dom, dir, n, x) && Matches(dom, inner, x)
    decreases n
  {
    var s := dom.Step(n, dir);
    if s.Some? {
      var m := s.value;
      AboveMeansClosest(dom, dir, inner, m);
      if m in dom.elements {
        assert Closest(dom, dir, n, m);
        forall x | Closest(dom, dir, n, x) ensures x == m {
          if x != m { BeyondIsBefore(dom, dir, x, m); BeyondIsBefore(dom, dir, m, x); }
        }
      } else {
        forall x ensures Closest(dom, dir, n, x) <==> Closest(dom, dir, m, x) {
        }
      }
    }
  }

  lemma {:induction false} BeyondIsBefore(dom: Dom, dir: Dir, n: Node, x: Node)
    requires dom.Ordered()
    ensures Beyond(dom, dir, n, x) ==> x < n
    decreases n
  {
    var s := dom.Step(n, dir);
    if s.Some? { BeyondIsBefore(dom, dir, s.value, x); }
  }

  /** The nodes a combinator asks: the closest element, or every one in its direction. */
  ghost predicate Asks(dom: Dom, comb: Combinator, n: Node, x: Node)
    requires dom.Ordered()
  {
    if comb.first then Closest(dom, comb.dir, n, x) else Beyond(dom, comb.dir, n, x) && x in dom.elements
  }

  /** What a selector means, without the walk. */
  lemma {:induction false} MatchesMeans(dom: Dom, m: Matcher, n: Node)
    requires dom.Ordered()
    ensures Matches(dom, m, n) <==>
              && (forall f :: f in m.filters ==> f(n))
              && (m.After? ==> exists x :: Asks(dom, m.comb, n, x) && Matches(dom, m.inner, x))
  {
    if m.After? {
      if m.comb.first { AboveMeansClosest(dom, m.comb.dir, m.inner, n); }
      else { AboveMeansSome(dom, m.comb.dir, m.inner, n); }
    }
  }

  /** A division (0) that holds a heading (1), white space (2) and a paragraph (3). */
  const PAGE: Dom := Dom(map[1 := 0, 2 := 0, 3 := 0], map[2 := 1, 3 := 2], {0, 1, 3})

  function Only(k: Node): Matcher {
    Leftmost([n => n == k])
  }

  /** `div > p` and `div p` find the paragraph, and `h1 + p` and `h1 ~ p` find it over the white space;
      `h1 > p` and `div + p` do not. */
  lemma {:induction false} CombinatorsExample()
    ensures PAGE.Ordered()
    ensures Above(PAGE, Combinator(ParentNode, true), Only(0), 3)
    ensures Above(PAGE, Combinator(ParentNode, false), Only(0), 3)
    ensures Above(PAGE, Combinator(PreviousSibling, true), Only(1), 3)
    ensures Above(PAGE, Combinator(PreviousSibling, false), Only(1), 3)
    ensures !Above(PAGE, Combinator(ParentNode, true), Only(1), 3)
    ensures !Above(PAGE, Combinator(PreviousSibling, true), Only(0), 3)
  {
    assert PAGE.Step(3, ParentNode) == Some(0);
    assert PAGE.Step(3, PreviousSibling) == Some(2) && PAGE.Step(2, PreviousSibling) == Some(1);
    forall k, n ensures Matches(PAGE, Only(k), n) == (n == k) {
      assert Only(k).filters[0](n) == (n == k);
    }
    forall first, k ensures Above(PAGE, Combinator(PreviousSibling, first), Only(k), 3)
                         == Above(PAGE, Combinator(PreviousSibling, first), Only(k), 2) {
    }
  }

  // ---------- the cache ----------

  /** What `cache[1]` holds: nothing yet, `true`, or the `cachedruns` of the query that found no match. */
  datatype Data = Unset | Yes | NoIn(query: nat)

  /** `dirruns` and `doneName` make up the key string. */
  datatype Slot = Slot(run: nat, name: nat, data: Data)

  type Cache = map<(Node, Dir), Slot>

  /** What each `doneName` stands for. */
  type Names = map<nat, (Combinator, Matcher)>

  /** Every combinator of `m` is registered, and inner ones were numbered before outer ones. */
  ghost predicate Registered(names: Names, m: Matcher, bound: nat) {
    m.After? ==>
      && m.name < bound
      && m.name in names && names[m.name] == (m.comb, m.inner)
      && Registered(names, m.inner, m.name)
  }

  /** A slot of the current run tells the truth about its own node. */
  ghost predicate Truthful(dom: Dom, names: Names, query: nat, k: (Node, Dir), s: Slot)
    requires dom.Ordered()
  {
    s.name in names && names[s.name].0.dir == k.1 && !names[s.name].0.first
    && (s.data.Yes? ==> Matches(dom, names[s.name].1, k.0))
    && (s.data.NoIn? ==> s.data.query <= query && !Matches(dom, names[s.name].1, k.0))
  }

  /** A slot written in the current query also tells that nothing beyond its node matches. */
  ghost predicate Conclusive(dom: Dom, names: Names, query: nat, k: (Node, Dir), s: Slot)
    requires dom.Ordered()
  {
    s.name in names && s.data == NoIn(query) ==> !Above(dom, names[s.name].0, names[s.name].1, k.0)
  }

  class Sizzle {
    const dom: Dom
    ghost const names: Names
    var dirruns: nat
    var cachedruns: nat
    var matcherCachedRuns: nat
    var cache: Cache

    /** Slots of the current run are truthful, and those of combinators numbered below `bound`, none of
        which is being evaluated, have been filled in. */
    ghost predicate Truth(bound: nat)
      requires dom.Ordered()
      reads this
    {
      && (forall k :: k in cache ==> cache[k].run <= dirruns)
      && forall k :: k in cache && cache[k].run == dirruns ==>
        && Truthful(dom, names, cachedruns, k, cache[k])
        && (cache[k].name < bound ==> !cache[k].data.Unset?)
    }

    /** Slots of combinators numbered below `bound` are conclusive. */
    ghost predicate Settled(bound: nat)
      requires dom.Ordered()
      reads this
    {
      forall k :: k in cache && cache[k].run == dirruns && cache[k].name < bound ==>
        Conclusive(dom, names, cachedruns, k, cache[k])
    }

    /** Only nodes before `n` were written to, and only for combinators numbered below `bound`. */
    twostate predicate Frame(n: Node, bound: nat)
      reads this
    {
      && (forall k: (Node, Dir) :: k.0 >= n ==>
            (k in cache <==> k in old(cache)) && (k in cache ==> cache[k] == old(cache)[k]))
      && (forall k :: k in cache && cache[k].run == dirruns && cache[k].name >= bound ==>
            k in old(cache) && cache[k] == old(cache)[k])
    }

    /** elementMatcher over the filters, last to first, then the combinator. */
    method Match(m: Matcher, n: Node, ghost bound: nat) returns (b: bool)
      requires dom.Ordered() && Registered(names, m, bound) && Truth(bound) && Settled(bound)
      modifies this`cache
      ensures b == Matches(dom, m, n)
      ensures Truth(bound) && Frame(n, bound) && (!b ==> Settled(bound))
      decreases m, 0, 0
    {
      var i := |m.filters|;
      while i > 0
        invariant 0 <= i <= |m.filters|
        invariant forall j :: i <= j < |m.filters| ==> m.filters[j](n)
      {
        i := i - 1;
        if !m.filters[i](n) {
          return false;
        }
      }
      if m.Leftmost? {
        return true;
      }
      if m.comb.first {
        b := Nearest(m.comb, m.name, m.inner, n, bound);
      } else {
        b := Walk(m.comb, m.name, m.inner, n, bound);
      }
    }

    /** The closest element in the direction decides. */
    method Nearest(comb: Combinator, ghost name: nat, inner: Matcher, n: Node, ghost bound: nat) returns (b: bool)
      requires dom.Ordered() && comb.first && name < bound
      requires name in names && names[name] == (comb, inner) && Registered(names, inner, name)
      requires Truth(bound) && Settled(bound)
      modifies this`cache
      ensures b == Above(dom, comb, inner, n)
      ensures Truth(bound) && Frame(n, bound) && (!b ==> Settled(bound))
      decreases inner, 1
    {
      var cur: Option<Node> := dom.Step(n, comb.dir);
      while cur.Some?
        invariant cache == old(cache)
        invariant cur.Some? ==> cur.value < n
        invariant Above(dom, comb, inner, n) ==
          (cur.Some? && if cur.value in dom.elements then Matches(dom, inner, cur.value)
                        else Above(dom, comb, inner, cur.value))
        decreases if cur.Some? then cur.value + 1 else 0
      {
        if cur.value in dom.elements {
          b := Match(inner, cur.value, name);
          return;
        }
        cur := dom.Step(cur.value, comb.dir);
      }
      return false;
    }

    /** All elements in the direction, through the cache. */
    method Walk(comb: Combinator, name: nat, inner: Matcher, n: Node, ghost bound: nat) returns (b: bool)
      requires dom.Ordered() && !comb.first && name < bound
      requires name in names && names[name] == (comb, inner) && Registered(names, inner, name)
      requires Truth(bound) && Settled(bound)
      modifies this`cache
      ensures b == Above(dom, comb, inner, n)
      ensures Truth(bound) && Frame(n, bound) && (!b ==> Settled(bound))
      decreases inner, 1
    {
      var at: Node := n;
      ghost var visited: set<Node> := {};
      var cur: Option<Node> := dom.Step(n, comb.dir);
      while cur.Some?
        invariant at <= n && cur == dom.Step(at, comb.dir)
        invariant Above(dom, comb, inner, n) == Above(dom, comb, inner, at)
        invariant forall y :: y in visited ==> at <= y < n && Above(dom, comb, inner, y) == Above(dom, comb, inner, at)
        invariant Truth(bound) && Frame(n, bound)
        invariant SettledBut(name, bound, visited)
        decreases at
      {
        var x := cur.value;
        if x in dom.elements {
          var k := (x, comb.dir);
          if k in cache && cache[k].run == dirruns && cache[k].name == name {
            if cache[k].data.Yes? || cache[k].data == NoIn(cachedruns) {
              b := cache[k].data.Yes?;
              return;
            }
          } else {
            b := Fill(comb, name, inner, x, bound, visited);
            if b {
              return;
            }
          }
          visited := visited + {x};
        }
        at := x;
        cur := dom.Step(at, comb.dir);
      }
      return false;
    }

    /** Settled, except for the slots that the walk of `name` in progress has left at `visited`. */
    ghost predicate SettledBut(name: nat, bound: nat, visited: set<Node>)
      requires dom.Ordered()
      reads this
    {
      forall k :: k in cache && cache[k].run == dirruns && cache[k].name < bound
                  && !(cache[k].name == name && k.0 in visited) ==>
        Conclusive(dom, names, cachedruns, k, cache[k])
    }

    /** Claim the slot, evaluate, and store the answer. */
    method Fill(comb: Combinator, name: nat, inner: Matcher, x: Node, ghost bound: nat, ghost visited: set<Node>)
      returns (b: bool)
      requires dom.Ordered() && !comb.first && name < bound
      requires name in names && names[name] == (comb, inner) && Registered(names, inner, name)
      requires Truth(bound) && SettledBut(name, bound, visited)
      modifies this`cache
      ensures b == Matches(dom, inner, x)
      ensures Truth(bound) && Frame(x + 1, bound)
      ensures !b ==> SettledBut(name, bound, visited + {x})
      decreases inner, 0, 1
    {
      Claim((x, comb.dir), name, bound, visited);
      b := Match(inner, x, name);
      cache := cache[(x, comb.dir) := Slot(dirruns, name, if b then Yes else NoIn(cachedruns))];
    }

    /** Mark the slot as under evaluation. Only what inner combinators wrote is relied on meanwhile. */
    method Claim(k: (Node, Dir), name: nat, ghost bound: nat, ghost visited: set<Node>)
      requires dom.Ordered() && name < bound && name in names
      requires names[name].0.dir == k.1 && !names[name].0.first
      requires Truth(bound) && SettledBut(name, bound, visited)
      modifies this`cache
      ensures cache == old(cache)[k := Slot(dirruns, name, Unset)]
      ensures Truth(name) && Settled(name)
    {
      cache := cache[k := Slot(dirruns, name, Unset)];
    }

    /** The element loop of superMatcher: a new run, and a new query for every element. */
    method SuperMatcher(elems: seq<Node>, groups: seq<Matcher>, ghost bound: nat) returns (results: seq<Node>)
      requires dom.Ordered() && forall i :: 0 <= i < |groups| ==> Registered(names, groups[i], bound)
      requires forall k :: k in cache ==> cache[k].run <= dirruns
      modifies this
      ensures results == Selected(dom, groups, elems)
      ensures forall k :: k in cache ==> cache[k].run <= dirruns
    {
      dirruns := dirruns + 1;
      cachedruns := matcherCachedRuns;
      results := [];
      for i := 0 to |elems|
        invariant Truth(bound) && Settled(bound)
        invariant cachedruns == matcherCachedRuns
        invariant results == Selected(dom, groups, elems[..i])
      {
        var matched := AnyGroup(groups, elems[i], bound);
        SelectedOneMore(dom, groups, elems, i);
        if matched {
          results := results + [elems[i]];
        }
        matcherCachedRuns := matcherCachedRuns + 1;
        cachedruns := matcherCachedRuns;
      }
      assert elems[..|elems|] == elems;
    }

    /** The comma-separated alternatives, until one matches. */
    method AnyGroup(groups: seq<Matcher>, n: Node, ghost bound: nat) returns (b: bool)
      requires dom.Ordered() && forall i :: 0 <= i < |groups| ==> Registered(names, groups[i], bound)
      requires Truth(bound) && Settled(bound)
      modifies this`cache
      ensures b == Chosen(dom, groups, n)
      ensures Truth(bound)
    {
      for j := 0 to |groups|
        invariant Truth(bound) && Settled(bound)
        invariant forall i :: 0 <= i < j ==> !Matches(dom, groups[i], n)
      {
        b := Match(groups[j], n, bound);
        if b {
          return;
        }
      }
      b := false;
    }
  }

  /** The elements that the naive matcher accepts, in order. */
  ghost function Selected(dom: Dom, groups: seq<Matcher>, elems: seq<Node>): seq<Node>
    requires dom.Ordered()
  {
    if elems == [] then []
    else
      var n := elems[|elems| - 1];
      Selected(dom, groups, elems[..|elems| - 1])
      + if Chosen(dom, groups, n) then [n] else []
  }

  ghost predicate Chosen(dom: Dom, groups: seq<Matcher>, n: Node)
    requires dom.Ordered()
  {
    exists i :: 0 <= i < |groups| && Matches(dom, groups[i], n)
  }

  lemma SelectedOneMore(dom: Dom, groups: seq<Matcher>, elems: seq<Node>, i: nat)
    requires dom.Ordered() && i < |elems|
    ensures Selected(dom, groups, elems[..i + 1]) ==
            Selected(dom, groups, elems[..i]) + if Chosen(dom, groups, elems[i]) then [elems[i]] else []
  {
    assert elems[..i + 1][..i] == elems[..i];
  }

  /** They are the elements at these places, ascending, and at no others. */
  lemma {:induction false} SelectedAre(dom: Dom, groups: seq<Matcher>, elems: seq<Node>) returns (places: seq<nat>)
    requires dom.Ordered()
    ensures Picks(places, Selected(dom, groups, elems), elems)
    ensures forall k :: 0 <= k < |elems| ==> (k in places <==> Chosen(dom, groups, elems[k]))
  {
    if elems == [] {
      places := [];
    } else {
      var last := |elems| - 1;
      var before := SelectedAre(dom, groups, elems[..last]);
      SelectedOneMore(dom, groups, elems, last);
      assert elems[..last + 1] == elems;
      if Chosen(dom, groups, elems[last]) {
        places := before + [last];
      } else {
        places := before;
        assert Selected(dom, groups, elems[..last]) + [] == Selected(dom, groups, elems[..last]);
      }
      forall k | 0 <= k < |elems| ensures k in places <==> Chosen(dom, groups, elems[k]) {
        if k < last { assert elems[..last][k] == elems[k]; }
      }
    }
  }

  /** `part` is what stands in `whole` at the ascending `places`. */
  ghost predicate Picks(places: seq<nat>, part: seq<Node>, whole: seq<Node>) {
    && |places| == |part|
    && (forall i, j :: 0 <= i < j < |places| ==> places[i] < places[j])
    && (forall i :: 0 <= i < |places| ==> places[i] < |whole| && part[i] == whole[places[i]])
  }
}
