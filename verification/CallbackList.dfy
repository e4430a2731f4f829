/** jQuery.Callbacks as written: a list edited while an index runs through it. Every operation has the
    effect that CallbackQueue gives it. */
module CallbackList {
  import opened Wrappers
  import Q = CallbackQueue
  import opened CallbackQueue

  class Callbacks {
    const options: Options
    var firing: bool
    var memory: Option<Args>
    var fired: bool
    var firingLength: nat
    var firingIndex: int
    var firingStart: nat
    var list: Option<seq<Entry>>       // None once disabled
    var stack: Option<seq<Args>>       // None for "once" and locked lists
    var data: Args                     // what the current, or last, firing passes on
    var tickets: nat
    ghost var calls: seq<(Entry, Args)>
    ghost var gone: set<nat>

    /** While a callback runs, the index is at it and the firing reaches to the end of the list. */
    ghost predicate Valid()
      reads this
    {
      && (firing ==> fired)
      && firingStart == 0
      && (firing && list.Some? ==> -1 <= firingIndex < |list.value| == firingLength)
      && (list.None? ==> memory.None? && stack.None?)
    }

    /** The queue this list stands for; `passed` entries are behind the index. */
    ghost function ViewAt(passed: int): Queue
      reads this
    {
      var l := if list.Some? then list.value else [];
      var at := if firing && 0 <= passed <= |l| then passed else 0;
      Queue(options, list.None?, firing, data, l[..at], l[at..], memory, fired, stack, calls, tickets, gone)
    }

    ghost function View(): Queue
      reads this
    {
      ViewAt(firingIndex + 1)
    }

    constructor (options: Options)
      ensures Valid() && View() == Empty(options)
    {
      this.options := options;
      firing, memory, fired, firingLength, firingIndex, firingStart := false, None, false, 0, 0, 0;
      list, stack := Some([]), if options.once then None else Some([]);
      data, tickets, calls, gone := [], 0, [], {};
    }

    ghost function Left(): nat
      reads this
    {
      if stack.Some? then |stack.value| else 0
    }

    method Fire(args: Args)
      requires !firing && list.Some? && firingStart <= |list.value|
      modifies this
      ensures Valid() && View() == Start(old(View()), args, old(firingStart))
      decreases Left(), 2
    {
      ghost var q, start := View(), firingStart;
      assert q.ahead == list.value;
      memory := if options.memory then Some(args) else None;
      fired, data := true, args;
      firingIndex := firingStart;
      firingStart := 0;
      firingLength := |list.value|;
      firing := true;
      assert ViewAt(firingIndex) == Begun(q, args, start);
      Proceed();
    }

    /** The loop test of `fire`, and the call it lets through. */
    method Proceed()
      requires firing && fired && firingStart == 0
      requires list.Some? ==> 0 <= firingIndex <= |list.value| == firingLength
      requires list.None? ==> memory.None? && stack.None?
      modifies this
      ensures Valid() && View() == Loop(old(ViewAt(firingIndex)))
      decreases Left(), 1
    {
      if list.Some? && firingIndex < firingLength {
        calls := calls + [(list.value[firingIndex], data)];
      } else {
        Finish(firingIndex);
      }
    }

    /** After the loop. */
    method Finish(ghost passed: int)
      requires firing && fired && firingStart == 0
      requires list.Some? ==> 0 <= passed <= |list.value|
      requires list.None? ==> memory.None? && stack.None?
      modifies this
      ensures Valid() && View() == Q.Finish(old(ViewAt(passed)))
      decreases Left(), 0
    {
      ghost var q := ViewAt(passed);
      ghost var idle := q.(firing := false, behind := [], ahead := q.behind + q.ahead);
      assert list.Some? ==> q.behind + q.ahead == list.value;
      firing := false;
      assert View() == idle;
      if list.Some? {
        if stack.Some? {
          if |stack.value| > 0 {
            FinishNext(q);
            var next := stack.value[0];
            stack := Some(stack.value[1..]);
            assert View() == idle.(stack := Some(q.stack.value[1..]));
            Fire(next);
          } else {
            FinishIdle(q);
          }
        } else if memory.Some? {
          FinishOnce(q);
          gone := gone + TicketSet(q.ahead);
          list := Some([]);
        } else {
          FinishOnce(q);
          gone := gone + TicketSet(q.ahead);
          list, stack, memory := None, None, None;
        }
      } else {
        FinishIdle(q);
      }
    }

    /** The running callback returns. */
    method Return(stop: bool)
      requires Valid()
      modifies this
      ensures Valid() && View() == Q.Return(old(View()), stop)
    {
      ghost var q := View();
      ReturnCases(q, stop);
      if firing {
        if stop && options.stopOnFalse {
          memory := None;
          assert ViewAt(firingIndex + 1) == q.(memory := None);
          Finish(firingIndex + 1);
        } else {
          firingIndex := firingIndex + 1;
          assert ViewAt(firingIndex) == q;
          Proceed();
        }
      }
    }

    method FireWith(args: Args)
      requires Valid()
      modifies this
      ensures Valid() && View() == Q.FireWith(old(View()), args)
    {
      if list.Some? && (!fired || stack.Some?) {
        if firing {
          Postpone(args);
        } else {
          Fire(args);
        }
      }
    }

    /** Data for a firing list wait their turn. */
    method Postpone(args: Args)
      requires Valid() && firing && list.Some? && (!fired || stack.Some?)
      modifies `stack
      ensures Valid() && View() == old(View()).(stack := Some(old(stack.value) + [args]))
    {
      stack := Some(stack.value + [args]);
    }

    method Disable()
      requires Valid()
      modifies this
      ensures Valid() && View() == Q.Disable(old(View()))
    {
      gone := gone + TicketSet(View().ahead);
      list, stack, memory := None, None, None;
    }

    method Lock()
      requires Valid()
      modifies this
      ensures Valid() && View() == Q.Lock(old(View()))
    {
      stack := None;
      if memory.None? {
        Disable();
      }
    }

    method Add(fns: seq<Fn>)
      requires Valid()
      modifies this
      ensures Valid() && View() == Q.Add(old(View()), fns)
    {
      if list.Some? {
        var start := |list.value|;
        ghost var q := View();
        assert !firing ==> q.ahead == list.value;
        PushAll(fns);
        if firing {
          firingLength := |list.value|;
          assert View() == Push(q, fns);
        } else if memory.Some? {
          firingStart := start;
          assert View() == Push(q, fns);
          Fire(memory.value);
        }
      }
    }

    /** Append the functions, leaving the end of a current firing where it was. */
    method PushAll(fns: seq<Fn>)
      requires Aligned() && list.Some?
      modifies `list, `tickets
      ensures Aligned() && list.Some? && |old(list.value)| <= |list.value|
      ensures View() == Push(old(View()), fns)
    {
      for i := 0 to |fns|
        invariant Aligned() && list.Some? && |old(list.value)| <= |list.value|
        invariant Push(old(View()), fns) == Push(View(), fns[i..])
      {
        assert fns[i..][0] == fns[i] && fns[i..][1..] == fns[i + 1..];
        PushFn(fns[i]);
      }
    }

    /** The index is within the list. */
    ghost predicate Aligned()
      reads this
    {
      firing && list.Some? ==> -1 <= firingIndex < |list.value|
    }

    method PushFn(fn: Fn)
      requires Aligned() && list.Some?
      modifies `list, `tickets
      ensures Aligned() && list.Some? && |old(list.value)| <= |list.value|
      ensures View() == PushOne(old(View()), fn)
    {
      HasInView(fn);
      if !options.unique || !HasFn(fn) {
        list := Some(list.value + [Entry(fn, tickets)]);
        tickets := tickets + 1;
        assert View().ahead == old(View()).ahead + [Entry(fn, old(tickets))];
      }
    }

    lemma HasInView(fn: Fn)
      requires list.Some?
      ensures HasFn(fn) == Has(View().behind + View().ahead, fn)
    {
      assert View().behind + View().ahead == list.value;
      if Has(list.value, fn) {
        var e :| e in list.value && e.fn == fn;
      }
    }

    /** `has`. */
    predicate HasFn(fn: Fn)
      reads this
    {
      list.Some? && exists i :: 0 <= i < |list.value| && list.value[i].fn == fn
    }

    /** `jQuery.inArray`. */
    method IndexOf(fn: Fn, from: nat) returns (index: int)
      requires list.Some? && from <= |list.value|
      ensures index >= -1
      ensures index == -1 ==> NextAt(list.value, from, |list.value|, fn)
      ensures index != -1 ==> index < |list.value| && list.value[index].fn == fn && NextAt(list.value, from, index, fn)
    {
      index := from;
      while index < |list.value|
        invariant from <= index <= |list.value|
        invariant forall i :: from <= i < index ==> list.value[i].fn != fn
      {
        if list.value[index].fn == fn {
          return;
        }
        index := index + 1;
      }
      index := -1;
    }

    /** Take every registration of `fn` out, during a firing or not. */
    method Remove(fn: Fn)
      requires Valid()
      modifies this
      ensures Valid() && View() == Q.Remove(old(View()), fn)
    {
      if list.Some? {
        ghost var q := View();
        SpliceAll(fn, if firing then firingIndex + 1 else 0);
        gone := gone + (TicketSet(q.ahead) - TicketSet(Without(q.ahead, fn)));
        assert View().behind == Without(q.behind, fn) && View().ahead == Without(q.ahead, fn);
      }
    }

    /** Splice out the registrations one by one, moving the running index and the end of the firing. */
    method SpliceAll(fn: Fn, ghost at: nat)
      requires Valid() && list.Some? && at == if firing then firingIndex + 1 else 0
      modifies `list, `firingLength, `firingIndex
      ensures Valid()
      ensures var l := old(list.value);
              list == Some(Without(l[..at], fn) + Without(l[at..], fn))
              && (firing ==> firingIndex + 1 == |Without(l[..at], fn)|)
    {
      ghost var l := list.value;
      ghost var p: nat := 0;
      assert l[..0] == [];
      var index := IndexOf(fn, 0);
      while index >= 0
        invariant Dealt(l, p, at, fn)
        invariant if index < 0 then NextAt(list.value, |Without(l[..p], fn)|, |list.value|, fn)
                  else Found(l, p, index, fn)
        decreases |list.value|, index
      {
        p, index := SpliceNext(fn, index, l, p, at);
      }
      RemovedAll(l, p, at, list.value, fn);
    }

    /** The first `p` entries of the original `l` have been dealt with. */
    ghost predicate Dealt(l: seq<Entry>, p: nat, at: nat, fn: Fn)
      reads this
    {
      && Valid() && list.Some? && p <= |l| && at <= |l|
      && list.value == Without(l[..p], fn) + l[p..]
      && (firing ==> firingIndex + 1 == Passed(l, p, at, fn))
    }

    /** The next registration to take out is at `index`. */
    ghost predicate Found(l: seq<Entry>, p: nat, index: int, fn: Fn)
      requires p <= |l| && list.Some?
      reads this
    {
      0 <= index < |list.value| && list.value[index].fn == fn && NextAt(list.value, |Without(l[..p], fn)|, index, fn)
    }

    method SpliceNext(fn: Fn, index: nat, ghost l: seq<Entry>, ghost p: nat, ghost at: nat)
      returns (ghost p': nat, next: int)
      requires Dealt(l, p, at, fn) && Found(l, p, index, fn)
      modifies `list, `firingLength, `firingIndex
      ensures Dealt(l, p', at, fn) && |list.value| < |old(list.value)|
      ensures if next < 0 then NextAt(list.value, |Without(l[..p'], fn)|, |list.value|, fn) else Found(l, p', next, fn)
    {
      RemoveOne(l, p, list.value, index, at, fn);
      p' := p + index - |Without(l[..p], fn)| + 1;
      Splice(index);
      next := IndexOf(fn, index);
    }

    /** Take out one entry. */
    method Splice(index: nat)
      requires Valid() && list.Some? && index < |list.value|
      modifies `list, `firingLength, `firingIndex
      ensures Valid() && list == Some(old(list.value)[..index] + old(list.value)[index + 1..])
      ensures firing ==> firingIndex == old(firingIndex) - if index <= old(firingIndex) then 1 else 0
    {
      list := Some(list.value[..index] + list.value[index + 1..]);
      if firing {
        if index <= firingLength {
          firingLength := firingLength - 1;
        }
        if index <= firingIndex {
          firingIndex := firingIndex - 1;
        }
      }
    }
  }

  // ---------- removing while firing ----------

  /** How many entries are behind the index when the first `p` of `l` have been searched for `fn`, if
      `at` of them were to begin with. */
  function Passed(l: seq<Entry>, p: nat, at: nat, fn: Fn): nat
    requires p <= |l| && at <= |l|
  {
    if p <= at then |Without(l[..p], fn)| + at - p else |Without(l[..at], fn)|
  }

  lemma {:induction false} WithoutNone(s: seq<Entry>, fn: Fn)
    requires forall i :: 0 <= i < |s| ==> s[i].fn != fn
    ensures Without(s, fn) == s
  {
    if s != [] {
      WithoutNone(s[..|s| - 1], fn);
      assert s == s[..|s| - 1] + [s[|s| - 1]];
    }
  }

  /** A stretch free of `fn` is kept as it is. */
  lemma KeepStretch(l: seq<Entry>, p: nat, e: nat, fn: Fn)
    requires p <= e <= |l| && forall i :: p <= i < e ==> l[i].fn != fn
    ensures Without(l[..e], fn) == Without(l[..p], fn) + l[p..e]
  {
    assert l[..e] == l[..p] + l[p..e];
    WithoutConcat(l[..p], l[p..e], fn);
    WithoutNone(l[p..e], fn);
  }

  /** Nothing from `from` up to `index` is a registration of `fn`. */
  predicate NextAt(l: seq<Entry>, from: nat, index: nat, fn: Fn) {
    from <= index <= |l| && forall i :: from <= i < index ==> l[i].fn != fn
  }

  /** With `p` entries dealt with, `list` is what is kept of them and the rest as it was. */
  lemma Shifted(l: seq<Entry>, p: nat, list: seq<Entry>, index: nat, fn: Fn)
    requires p <= |l| && list == Without(l[..p], fn) + l[p..]
    requires NextAt(list, |Without(l[..p], fn)|, index, fn)
    ensures var e := p + index - |Without(l[..p], fn)|;
            p <= e <= |l| && list[..index] == Without(l[..p], fn) + l[p..e] && list[index..] == l[e..]
            && forall i :: p <= i < e ==> l[i].fn != fn
  {
    var kept := |Without(l[..p], fn)|;
    forall i | p <= i < p + index - kept ensures l[i].fn != fn {
      assert list[kept + (i - p)] == l[i];
    }
  }

  /** The next registration to go is at `index`: whether the running index moves back is decided by
      whether that entry is behind it. */
  lemma {:induction false} RemoveOne(l: seq<Entry>, p: nat, list: seq<Entry>, index: nat, at: nat, fn: Fn)
    requires p <= |l| && at <= |l| && list == Without(l[..p], fn) + l[p..]
    requires NextAt(list, |Without(l[..p], fn)|, index, fn) && index < |list| && list[index].fn == fn
    ensures var p' := p + index - |Without(l[..p], fn)| + 1;
            && p < p' <= |l| && |Without(l[..p'], fn)| == index
            && list[..index] + list[index + 1..] == Without(l[..p'], fn) + l[p'..]
            && Passed(l, p', at, fn) == Passed(l, p, at, fn) - if index < Passed(l, p, at, fn) then 1 else 0
  {
    var e := p + index - |Without(l[..p], fn)|;
    Shifted(l, p, list, index, fn);
    assert list[index..][0] == l[e..][0] == l[e];
    KeepStretch(l, p, e, fn);
    DropOne(l, e, fn);
    assert list[index + 1..] == list[index..][1..] == l[e + 1..];
    PassedMoves(l, p, e, at, fn);
  }

  lemma DropOne(l: seq<Entry>, e: nat, fn: Fn)
    requires e < |l| && l[e].fn == fn
    ensures Without(l[..e + 1], fn) == Without(l[..e], fn)
  {
    assert l[..e + 1][..e] == l[..e];
  }

  lemma PassedMoves(l: seq<Entry>, p: nat, e: nat, at: nat, fn: Fn)
    requires p <= e < |l| && at <= |l| && l[e].fn == fn
    requires forall i :: p <= i < e ==> l[i].fn != fn
    ensures var index := |Without(l[..p], fn)| + e - p;
            Passed(l, e + 1, at, fn) == Passed(l, p, at, fn) - if index < Passed(l, p, at, fn) then 1 else 0
  {
    KeepStretch(l, p, e, fn);
    DropOne(l, e, fn);
    if p <= at <= e {
      KeepStretch(l, p, at, fn);
    } else if at < p {
      assert l[..p] == l[..at] + l[at..p];
      WithoutConcat(l[..at], l[at..p], fn);
    }
  }

  lemma {:induction false} RemovedAll(l: seq<Entry>, p: nat, at: nat, list: seq<Entry>, fn: Fn)
    requires p <= |l| && at <= |l| && list == Without(l[..p], fn) + l[p..]
    requires NextAt(list, |Without(l[..p], fn)|, |list|, fn)
    ensures list == Without(l[..at], fn) + Without(l[at..], fn)
    ensures Passed(l, p, at, fn) == |Without(l[..at], fn)|
  {
    Shifted(l, p, list, |list|, fn);
    KeepStretch(l, p, |l|, fn);
    assert l[..|l|] == l == l[..at] + l[at..];
    WithoutConcat(l[..at], l[at..], fn);
    if p <= at {
      KeepStretch(l, p, at, fn);
    }
  }
}
