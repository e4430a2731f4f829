/** Sizzle's `:nth-child` and `:nth-last-child`: the sibling index remembered on the parent, or on each
    child, against a plain count. HTML documents, without `of-type`. */
module NthChild {
  import opened Wrappers

  /** What is left on the parent: the run, the position of the child found last, and its index. */
  datatype ForwardSlot = ForwardSlot(run: nat, nodeIndex: nat, diff: nat)

  /** What is left on a child: the run and its index from the end. */
  datatype BackwardSlot = BackwardSlot(run: nat, diff: nat)

  /** The number of elements among `children`; text and comment nodes are false. */
  function Elements(children: seq<bool>): nat {
    if children == [] then 0 else Elements(children[..|children| - 1]) + if children[|children| - 1] then 1 else 0
  }

  /** The 1-based index of a child among the element children. */
  function IndexOf(children: seq<bool>, i: nat): nat
    requires i < |children|
  {
    Elements(children[..i + 1])
  }

  /** The same counted from the last child. */
  function IndexFromEnd(children: seq<bool>, i: nat): nat
    requires i < |children|
    decreases |children| - i
  {
    (if i + 1 < |children| then IndexFromEnd(children, i + 1) else 0) + if children[i] then 1 else 0
  }

  lemma {:induction false} IndexStep(children: seq<bool>, i: nat)
    requires i + 1 < |children|
    ensures IndexOf(children, i + 1) == IndexOf(children, i) + if children[i + 1] then 1 else 0
  {
    assert children[..i + 2][..i + 1] == children[..i + 1];
  }

  lemma FirstIndex(children: seq<bool>)
    requires children != []
    ensures IndexOf(children, 0) == if children[0] then 1 else 0
  {
    var one := children[..1];
    assert one[..|one| - 1] == [] && one[|one| - 1] == children[0];
    assert Elements(one) == Elements([]) + if children[0] then 1 else 0;
  }

  lemma {:induction false} ElementsConcat(a: seq<bool>, b: seq<bool>)
    ensures Elements(a + b) == Elements(a) + Elements(b)
  {
    if b == [] {
      assert a + b == a;
    } else {
      assert (a + b)[..|a + b| - 1] == a + b[..|b| - 1];
      ElementsConcat(a, b[..|b| - 1]);
    }
  }

  /** The two counts meet: an element's index from the front and from the end add up to one more than
      the number of elements. */
  lemma {:induction false} FrontAndEnd(children: seq<bool>, i: nat)
    requires i < |children| && children[i]
    ensures IndexOf(children, i) + IndexFromEnd(children, i) == Elements(children) + 1
  {
    RestCount(children, i);
    assert children[..i + 1] + children[i + 1..] == children;
    ElementsConcat(children[..i + 1], children[i + 1..]);
    ElementsConcat([children[i]], children[i + 1..]);
    assert [children[i]] + children[i + 1..] == children[i..];
    assert Elements([children[i]]) == 1 by { assert [children[i]][..0] == []; }
  }

  lemma {:induction false} RestCount(children: seq<bool>, i: nat)
    requires i < |children|
    ensures IndexFromEnd(children, i) == Elements(children[i..])
    decreases |children| - i
  {
    var head, tail := [children[i]], children[i + 1..];
    assert head + tail == children[i..];
    ElementsConcat(head, tail);
    assert head[..0] == [];
    if i + 1 < |children| {
      RestCount(children, i + 1);
    }
  }

  // ---------- the final test ----------

  /** JavaScript's `%` on integers: the sign of the dividend, NaN (nothing) for a zero divisor. */
  function Remainder(a: int, b: int): Option<int> {
    if b == 0 then None
    else
      var m := (if a < 0 then -a else a) % (if b < 0 then -b else b);
      Some(if a < 0 then -m else m)
  }

  /** `diff -= last; return diff === first || ( diff % first === 0 && diff / first >= 0 )`. */
  predicate Accepts(index: int, first: int, last: int) {
    var diff := index - last;
    diff == first || (Remainder(diff, first) == Some(0) && ((diff >= 0 && first > 0) || (diff <= 0 && first < 0)))
  }

  /** The test accepts exactly the indices of the form first*n + last with n >= 0. */
  lemma {:induction false} AcceptsExactly(index: int, first: int, last: int)
    ensures Accepts(index, first, last) <==> exists n: nat :: index == Term(first, n, last)
  {
    if n: nat :| index == Term(first, n, last) {
      TermIsAccepted(first, n, last);
    } else if Accepts(index, first, last) {
      var n := AcceptedIsTerm(index, first, last);
    }
  }

  lemma {:induction false} TermIsAccepted(first: int, n: nat, last: int)
    ensures Accepts(Term(first, n, last), first, last)
  {
    SameSign(first, n);
    if first > 0 {
      DivideBack(n, first);
    } else if first < 0 {
      DivideBack(n, -first);
    }
  }

  lemma {:induction false} AcceptedIsTerm(index: int, first: int, last: int) returns (n: nat)
    requires Accepts(index, first, last)
    ensures index == Term(first, n, last)
  {
    var diff := index - last;
    if diff == first {
      n := 1;
    } else {
      var a, b := if diff < 0 then -diff else diff, if first < 0 then -first else first;
      n := a / b;
      Quotient(a, b);
      SameSign(first, n);
    }
  }

  lemma Quotient(a: nat, b: int)
    requires b > 0 && a % b == 0
    ensures a == b * (a / b)
  {
  }

  function Term(first: int, n: nat, last: int): int {
    first * n + last
  }

  /** The terms start at `last` and go up by `first`. */
  lemma TermSteps(first: int, n: nat, last: int)
    ensures Term(first, 0, last) == last && Term(first, n + 1, last) == Term(first, n, last) + first
  {
  }

  lemma DivideBack(n: nat, b: int)
    requires b > 0
    ensures (b * n) % b == 0
  {
    var q, r := b * n / b, b * n % b;
    assert r == b * n - b * q == b * (n - q);
    NoSmallMultiple(n - q, b);
  }

  lemma NoSmallMultiple(k: int, b: int)
    requires 0 <= b * k < b
    ensures b * k == 0
  {
  }

  lemma SameSign(first: int, n: nat)
    ensures first > 0 ==> first * n >= 0
    ensures first < 0 ==> first * n <= 0 && -(first * n) == (-first) * n
  {
  }

  // ---------- the caches ----------

  /** One parent, during a sequence of selector runs; the children may change between runs. */
  class Siblings {
    var children: seq<bool>
    var dirruns: nat
    var forward: Option<ForwardSlot>
    var backward: map<nat, BackwardSlot>

    /** A slot of the current run is right about the current children. */
    ghost predicate Valid()
      reads this
    {
      && (forward.Some? ==>
            && forward.value.run <= dirruns
            && (forward.value.run == dirruns ==>
                  && forward.value.nodeIndex < |children|
                  && forward.value.diff == IndexOf(children, forward.value.nodeIndex)))
      && (forall i :: i in backward ==>
            && backward[i].run <= dirruns
            && (backward[i].run == dirruns ==> i < |children| && backward[i].diff == IndexFromEnd(children, i)))
    }

    constructor (children: seq<bool>)
      ensures Valid() && this.children == children
    {
      this.children, dirruns, forward, backward := children, 0, None, map[];
    }

    /** The document changes and a new run begins; whatever was remembered is out of date. */
    method NewRun(now: seq<bool>)
      requires Valid()
      modifies this
      ensures Valid() && children == now
    {
      dirruns := dirruns + 1;
      children := now;
    }

    /** `elem`'s index from the front, seeking from where the last search ended and falling back to the
        first child. */
    method SeekForward(elem: nat) returns (diff: nat)
      requires Valid() && elem < |children| && children[elem]
      modifies this`forward
      ensures Valid() && diff == IndexOf(children, elem)
    {
      var current := forward.Some? && forward.value.run == dirruns;
      var nodeIndex := if current then forward.value.nodeIndex else 0;
      diff := if current then forward.value.diff else 0;
      var node: Option<nat> := if nodeIndex != 0 then Some(nodeIndex) else None;
      var popped := false;
      while true
        invariant node.Some? ==> nodeIndex == node.value < |children| && diff == IndexOf(children, node.value)
        invariant popped ==> node.Some? && node.value < elem
        decreases !popped, if node.Some? then |children| - node.value else 0
      {
        nodeIndex := nodeIndex + 1;
        if node.Some? && node.value + 1 < |children| {
          IndexStep(children, node.value);
          node := Some(node.value + 1);
        } else {
          assert !popped;  // `start` holds one node, and it is enough
          diff, nodeIndex := 0, 0;
          node, popped := Some(0), true;
          FirstIndex(children);
        }
        if children[node.value] {
          diff := diff + 1;
          if node.value == elem {
            forward := Some(ForwardSlot(dirruns, nodeIndex, diff));
            return;
          }
        }
      }
    }

    /** `elem`'s index from the end, remembering it for every element passed. */
    method SeekBackward(elem: nat) returns (diff: nat)
      requires Valid() && elem < |children| && children[elem]
      modifies this`backward
      ensures Valid() && diff == IndexFromEnd(children, elem)
    {
      if elem in backward && backward[elem].run == dirruns {
        return backward[elem].diff;
      }
      diff := 0;
      var node := |children|;
      while node > elem
        invariant elem <= node <= |children| && Valid()
        invariant diff == if node < |children| then IndexFromEnd(children, node) else 0
      {
        node := node - 1;
        if children[node] {
          diff := diff + 1;
          backward := backward[node := BackwardSlot(dirruns, diff)];
        }
      }
    }

    /** `:nth-child(first n + last)`. */
    method IsNthChild(elem: nat, first: int, last: int) returns (b: bool)
      requires Valid() && elem < |children| && children[elem]
      modifies this`forward
      ensures Valid()
      ensures b <==> exists n: nat :: IndexOf(children, elem) == Term(first, n, last)
    {
      if first == 1 && last == 0 {
        assert IndexOf(children, elem) == Term(1, IndexOf(children, elem), 0);
        return true;
      }
      var diff := SeekForward(elem);
      b := Accepts(diff, first, last);
      AcceptsExactly(diff, first, last);
    }

    /** `:nth-last-child(first n + last)`. */
    method IsNthLastChild(elem: nat, first: int, last: int) returns (b: bool)
      requires Valid() && elem < |children| && children[elem]
      modifies this`backward
      ensures Valid()
      ensures b <==> exists n: nat :: IndexFromEnd(children, elem) == Term(first, n, last)
    {
      if first == 1 && last == 0 {
        assert IndexFromEnd(children, elem) == Term(1, IndexFromEnd(children, elem), 0);
        return true;
      }
      var diff := SeekBackward(elem);
      b := Accepts(diff, first, last);
      AcceptsExactly(diff, first, last);
    }
  }
}
