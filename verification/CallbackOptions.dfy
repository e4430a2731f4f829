/** What the other options of a callback list promise: `unique`, `stopOnFalse`, and `once` without
    `memory`. */
module CallbackOptions {
  import opened Wrappers
  import opened CallbackQueue

  // ---------- unique ----------

  ghost predicate NoRepeats(es: seq<Entry>) {
    forall i, j :: 0 <= i < j < |es| ==> es[i].fn != es[j].fn
  }

  /** All entries of the list. */
  function All(q: Queue): seq<Entry> {
    q.behind + q.ahead
  }

  lemma {:induction false} PushOneUnique(q: Queue, fn: Fn)
    requires q.options.unique && NoRepeats(All(q))
    ensures NoRepeats(All(PushOne(q, fn))) && Has(All(PushOne(q, fn)), fn)
    ensures forall f :: Has(All(q), f) ==> Has(All(PushOne(q, fn)), f)
  {
    var r := PushOne(q, fn);
    if r != q {
      var e := Entry(fn, q.tickets);
      assert All(r) == All(q) + [e];
      assert e in All(r);
      forall f | Has(All(q), f) ensures Has(All(r), f) {
        var d :| d in All(q) && d.fn == f;
        assert d in All(r);
      }
    }
  }

  /** Every function added is on the list, once. */
  lemma {:induction false} PushUnique(q: Queue, fns: seq<Fn>)
    requires q.options.unique && NoRepeats(All(q))
    ensures NoRepeats(All(Push(q, fns)))
    ensures forall f :: f in fns || Has(All(q), f) ==> Has(All(Push(q, fns)), f)
    decreases |fns|
  {
    if fns != [] {
      PushOneUnique(q, fns[0]);
      PushUnique(PushOne(q, fns[0]), fns[1..]);
      assert fns == [fns[0]] + fns[1..];
    }
  }

  /** Firing moves the cursor over the entries, or drops them all. */
  ghost predicate SameEntries(q: Queue, r: Queue) {
    (All(r) == All(q) || All(r) == []) && r.options == q.options
  }

  lemma {:induction false} LoopKeepsEntries(q: Queue)
    ensures SameEntries(q, Loop(q))
    decreases if q.stack.Some? then |q.stack.value| else 0, 1
  {
    if q.disabled || q.ahead == [] {
      FinishKeepsEntries(q);
    } else {
      assert q.behind + [q.ahead[0]] + q.ahead[1..] == All(q);
    }
  }

  lemma {:induction false} FinishKeepsEntries(q: Queue)
    ensures SameEntries(q, Finish(q))
    decreases if q.stack.Some? then |q.stack.value| else 0, 0
  {
    assert [] + All(q) == All(q);
    if q.disabled || q.stack == Some([]) {
      FinishIdle(q);
    } else if q.stack.None? {
      FinishOnce(q);
    } else {
      FinishNext(q);
      var idle := q.(firing := false, behind := [], ahead := All(q), stack := Some(q.stack.value[1..]));
      BegunKeepsEntries(idle, q.stack.value[0], 0);
      LoopKeepsEntries(Begun(idle, q.stack.value[0], 0));
    }
  }

  lemma BegunKeepsEntries(q: Queue, data: Args, start: nat)
    requires q.behind == []
    ensures All(Begun(q, data, start)) == All(q) && Begun(q, data, start).options == q.options
  {
  }

  lemma {:induction false} StepUnique(q: Queue, a: Action)
    requires q.options.unique && NoRepeats(All(q)) && (!q.firing ==> q.behind == [])
    ensures var r := Step(q, a); r.options == q.options && NoRepeats(All(r))
  {
    match a
    case DoAdd(fns) =>
      PushUnique(q, fns);
      if !q.disabled && !q.firing && q.memory.Some? {
        BegunKeepsEntries(Push(q, fns), q.memory.value, |q.ahead|);
        LoopKeepsEntries(Begun(Push(q, fns), q.memory.value, |q.ahead|));
      }
    case DoRemove(fn) => RemoveUnique(q, fn);
    case DoFire(args) =>
      if !q.firing {
        BegunKeepsEntries(q, args, 0);
        LoopKeepsEntries(Begun(q, args, 0));
      }
    case DoReturn(stop) =>
      ReturnCases(q, stop);
      LoopKeepsEntries(q);
      FinishKeepsEntries(q.(memory := None));
    case _ =>
  }

  lemma {:induction false} WithoutSubsequence(es: seq<Entry>, fn: Fn)
    requires NoRepeats(es)
    ensures NoRepeats(Without(es, fn))
  {
    if es != [] {
      var init, last := es[..|es| - 1], es[|es| - 1];
      WithoutSubsequence(init, fn);
      WithoutMembers(init, fn);
      forall i | 0 <= i < |Without(init, fn)| ensures Without(init, fn)[i].fn != last.fn {
        var j :| 0 <= j < |init| && init[j] == Without(init, fn)[i];
        assert es[j].fn != es[|es| - 1].fn;
      }
    }
  }

  lemma {:induction false} RemoveUnique(q: Queue, fn: Fn)
    requires NoRepeats(All(q))
    ensures NoRepeats(All(Remove(q, fn))) && Remove(q, fn).options == q.options
  {
    WithoutSubsequence(All(q), fn);
    WithoutConcat(q.behind, q.ahead, fn);
  }

  lemma {:induction false} LoopIdles(q: Queue)
    requires q.firing
    ensures !Loop(q).firing ==> Loop(q).behind == []
    ensures !Finish(q).firing ==> Finish(q).behind == []
    decreases if q.stack.Some? then |q.stack.value| else 0
  {
    if !q.disabled && q.stack.Some? && q.stack.value != [] {
      FinishNext(q);
      var idle := q.(firing := false, behind := [], ahead := All(q), stack := Some(q.stack.value[1..]));
      LoopIdles(Begun(idle, q.stack.value[0], 0));
    }
  }

  lemma {:induction false} StepIdles(q: Queue, a: Action)
    requires !q.firing ==> q.behind == []
    ensures !Step(q, a).firing ==> Step(q, a).behind == []
  {
    match a
    case DoAdd(fns) =>
      if !q.disabled && !q.firing && q.memory.Some? { LoopIdles(Begun(Push(q, fns), q.memory.value, |q.ahead|)); }
    case DoFire(args) => LoopIdles(Begun(q, args, 0));
    case DoReturn(stop) =>
      ReturnCases(q, stop);
      if q.firing { LoopIdles(q); LoopIdles(q.(memory := None)); }
    case _ =>
  }

  /** No run puts a function on a `unique` list twice. */
  lemma {:induction false} UniqueAlways(q: Queue, actions: seq<Action>)
    requires q.options.unique && NoRepeats(All(q)) && (!q.firing ==> q.behind == [])
    ensures NoRepeats(All(Run(q, actions)))
    decreases |actions|
  {
    if actions != [] {
      StepUnique(q, actions[0]);
      StepIdles(q, actions[0]);
      UniqueAlways(Step(q, actions[0]), actions[1..]);
    }
  }

  // ---------- stopOnFalse ----------

  /** A callback that returns false ends the firing: nobody behind it is called with its data, and what is
      added later is not called with it either. Data fired meanwhile start over at the first entry. */
  lemma {:induction false} FalseStops(q: Queue, fns: seq<Fn>)
    requires q.firing && !q.disabled && q.options.stopOnFalse
    ensures var r := Return(q, true);
            if q.stack.None? then r.disabled && r.calls == q.calls
            else if q.stack.value == [] then !r.firing && r.calls == q.calls && Add(r, fns).calls == q.calls
            else All(q) != [] ==> r.calls == q.calls + [(All(q)[0], q.stack.value[0])]
  {
    ReturnCases(q, true);
    var p := q.(memory := None);
    if q.stack.None? {
      FinishOnce(p);
    } else if q.stack.value == [] {
      FinishIdle(p);
    } else {
      FinishNext(p);
      var idle := p.(firing := false, behind := [], ahead := All(q), stack := Some(q.stack.value[1..]));
      assert idle.ahead[0..] == All(q) && idle.ahead[..0] == [];
    }
  }

  /** Elsewhere it does not matter what a callback returns. */
  lemma FalseIsIgnored(q: Queue)
    requires !q.options.stopOnFalse
    ensures Return(q, true) == Return(q, false)
  {
    ReturnCases(q, true);
    ReturnCases(q, false);
  }

  // ---------- once, without memory ----------

  /** Such a list is over when its firing is, and all its calls are made with the data of that firing. */
  ghost predicate OnceOnly(q: Queue) {
    && q.options.once && !q.options.memory && q.stack.None? && q.memory.None?
    && (!q.fired ==> q.calls == [] && !q.firing)
    && (q.fired && !q.firing ==> q.disabled)
    && (forall i :: 0 <= i < |q.calls| ==> q.calls[i].1 == q.data)
  }

  lemma {:induction false} OnceOnlyStep(q: Queue, a: Action)
    requires OnceOnly(q)
    ensures var r := Step(q, a); OnceOnly(r) && (q.fired ==> r.fired && r.data == q.data)
    ensures q.fired && !q.firing ==> Step(q, a).calls == q.calls
  {
    match a
    case DoFire(args) =>
      if !q.disabled && !q.fired { OnceOnlyLoop(Begun(q, args, 0)); }
    case DoReturn(stop) =>
      ReturnCases(q, stop);
      if q.firing {
        OnceOnlyLoop(q);
        assert q.(memory := None) == q;
      }
    case _ =>
  }

  lemma OnceOnlyLoop(q: Queue)
    requires q.options.once && !q.options.memory && q.stack.None? && q.memory.None? && q.fired && q.firing
    requires forall i :: 0 <= i < |q.calls| ==> q.calls[i].1 == q.data
    ensures OnceOnly(Loop(q)) && Loop(q).fired && Loop(q).data == q.data
    ensures OnceOnly(Finish(q)) && Finish(q).fired && Finish(q).data == q.data
  {
  }

  lemma {:induction false} OnceOnlyAlways(q: Queue, actions: seq<Action>)
    requires OnceOnly(q)
    ensures OnceOnly(Run(q, actions)) && (q.fired ==> Run(q, actions).data == q.data)
    ensures q.fired && !q.firing ==> Run(q, actions).calls == q.calls
    decreases |actions|
  {
    if actions != [] {
      OnceOnlyStep(q, actions[0]);
      if q.fired && !q.firing { OverIsOver(q, actions[0]); }
      OnceOnlyAlways(Step(q, actions[0]), actions[1..]);
    }
  }

  lemma OverIsOver(q: Queue, a: Action)
    requires OnceOnly(q) && q.fired && !q.firing
    ensures !Step(q, a).firing
  {
  }
}
