/** A function added to a Deferred from outside: when it is called, and that it is. */
module Listeners {
  import opened Wrappers
  import opened CallbackQueue
  import opened D = Deferreds

  /** Registration `t` of the list has been called. */
  predicate Heard(q: Queue, t: nat) {
    t in TicketSet(Called(q))
  }

  /** Registration `t` was made, unless the list took no registrations any more. */
  predicate Ticketed(q: Queue, t: nat) {
    t < q.tickets || q.disabled
  }

  /** A list that calls at once what is added to it: one that has fired and is idle. A list that is still
      firing does not. */
  predicate Answering(q: Queue) {
    !q.disabled && !q.firing && q.memory.Some?
  }

  /** Add a function that makes no calls of its own to the list: if it is called at once it has returned
      when `add` does. */
  function Registering(q: Queue, fn: Fn): Queue {
    if Answering(q) then Return(Add(q, [fn]), false) else Add(q, [fn])
  }

  /** `d.done(f)` or `d.fail(f)` for such a function. */
  function Signed(d: Deferred, win: bool, id: nat): Deferred {
    var e := D.Step(d, if win then Done([id]) else Fail([id]));
    if Answering(List(d, win)) then D.Step(e, Returns(win)) else e
  }

  /** `d.progress(f)`. */
  function SignedProgress(d: Deferred, id: nat): Deferred {
    var e := D.Step(d, Progress([id]));
    if Answering(d.progress) then D.Step(e, ProgressReturns) else e
  }

  /** Registered with all three, as `when` does. */
  function Listened(d: Deferred, id: nat): Deferred {
    SignedProgress(Signed(Signed(d, true, id), false, id), id)
  }

  // ---------- one list ----------

  lemma SignedIs(d: Deferred, win: bool, id: nat)
    ensures Signed(d, win, id) == WithList(d, win, Registering(List(d, win), User(id)))
  {
    assert [id][1..] == [] && UserFns([id]) == [User(id)];
  }

  lemma AddOne(q: Queue, fn: Fn)
    requires !q.options.unique
    ensures Push(q, [fn]) == q.(ahead := q.ahead + [Entry(fn, q.tickets)], tickets := q.tickets + 1)
  {
    assert [fn][1..] == [];
    assert Push(q, [fn]) == Push(PushOne(q, fn), []);
  }

  /** What adding one function does: nothing to a disabled list; a call, made and finished, on a list that
      has fired and is idle; and a place at the end of the line otherwise. */
  lemma {:induction false} RegisteringEffect(q: Queue, fn: Fn)
    requires OnceMemory(q) && !q.options.unique
    ensures var e, r := Entry(fn, q.tickets), Registering(q, fn);
            if q.disabled then r == q
            else if Answering(q) then r == q.(tickets := q.tickets + 1, calls := q.calls + [(e, q.data)])
            else r == q.(ahead := q.ahead + [e], tickets := q.tickets + 1)
  {
    if !q.disabled {
      AddOne(q, fn);
      if Answering(q) { AnsweredAtOnce(q, fn); }
    }
  }

  lemma AnsweredAtOnce(q: Queue, fn: Fn)
    requires OnceMemory(q) && !q.options.unique && Answering(q)
    ensures Registering(q, fn) == q.(tickets := q.tickets + 1, calls := q.calls + [(Entry(fn, q.tickets), q.data)])
  {
    var e := Entry(fn, q.tickets);
    AddOne(q, fn);
    assert q.ahead == [] && q.behind == [] && q.memory == Some(q.data);
    var p := q.(ahead := [e], tickets := q.tickets + 1);
    assert Add(q, [fn]) == Start(p, q.data, 0);
    assert p.ahead[0..] == [e] && p.ahead[..0] == [];
    var b := p.(firing := true);
    assert Begun(p, q.data, 0) == b;
    var running := b.(behind := [e], ahead := [], calls := q.calls + [(e, q.data)]);
    assert Loop(b) == running;
    ReturnCases(running, false);
    FinishOnce(running);
    assert q.gone + TicketSet([]) == q.gone;
  }

  /** Who has been called after an addition. */
  lemma {:induction false} RegisteringHeard(q: Queue, fn: Fn, t: nat)
    requires OnceMemory(q) && !q.options.unique
    ensures Heard(Registering(q, fn), t) <==> Heard(q, t) || (Answering(q) && t == q.tickets)
  {
    RegisteringEffect(q, fn);
    var e, r := Entry(fn, q.tickets), Registering(q, fn);
    if Answering(q) {
      assert Called(r) == Called(q) + [e];
      TicketSetAdds(Called(q), e);
    } else {
      assert Called(r) == Called(q);
    }
  }

  lemma HeardStays(q: Queue, r: Queue, t: nat)
    requires q.calls <= r.calls && Heard(q, t)
    ensures Heard(r, t)
  {
    var e :| e in Called(q) && e.ticket == t;
    CalledStays(q, r, e);
  }

  /** An idle list that has fired has called everything registered on it. */
  lemma {:induction false} IdleHasHeard(q: Queue, t: nat)
    requires Fired(q) && !q.firing && t < q.tickets
    ensures Heard(q, t)
  {
    assert t in Below(q.tickets);
    assert TicketSet(q.ahead) == {};
  }

  /** A list that has fired has called exactly those of its registrations that are not in line. */
  lemma {:induction false} HeardUnlessWaiting(q: Queue, t: nat)
    requires Fired(q) && t < q.tickets
    ensures Heard(q, t) <==> t !in TicketSet(q.ahead)
  {
    assert t in Below(q.tickets);
    CallsAndWaiting(q);
  }

  // ---------- one Deferred ----------

  /** Who has been heard tells the state. */
  lemma HeardMeansSettled(d: Deferred, win: bool, t: nat)
    requires Inv(d) && Heard(List(d, win), t)
    ensures d.state == (if win then Resolved else Rejected) && List(d, win).fired
  {
    var e :| e in Called(List(d, win)) && e.ticket == t;
    assert List(d, win).calls != [];
  }

  /** Neither list takes anything back. */
  ghost predicate Onward(d: Deferred, r: Deferred) {
    Later(d.done, r.done) && Later(d.fail, r.fail)
  }

  ghost predicate BothListsKept(d: Deferred) {
    OnceMemory(d.done) && OnceMemory(d.fail)
  }

  lemma {:induction false} ListMoves(d: Deferred, win: bool, a: CallbackQueue.Action)
    requires BothListsKept(d)
    ensures var r := WithList(d, win, CallbackQueue.Step(List(d, win), a)); BothListsKept(r) && Onward(d, r)
  {
    StepKeeps(List(d, win), a);
  }

  lemma {:induction false} EffectsMoveOn(d: Deferred, win: bool, which: Effect)
    requires BothListsKept(d)
    ensures var r := Effects(d, win, which); BothListsKept(r) && Onward(d, r)
  {
    match which
    case DisableOther => ListMoves(d, !win, DoDisable);
    case _ => NothingMoves(d, Effects(d, win, which));
  }

  lemma NothingMoves(d: Deferred, r: Deferred)
    requires BothListsKept(d) && r.done == d.done && r.fail == d.fail
    ensures BothListsKept(r) && Onward(d, r)
  {
  }

  lemma BuiltinIsEffectAndReturn(d: Deferred, win: bool)
    ensures var q := List(d, win);
            RunBuiltin(d, win) ==
              if q.firing && q.behind != [] && q.behind[|q.behind| - 1].fn.Builtin?
              then AfterEffect(d, win, q.behind[|q.behind| - 1].fn.which) else d
  {
  }

  function AfterEffect(d: Deferred, win: bool, which: Effect): Deferred {
    var e := Effects(d, win, which);
    WithList(e, win, CallbackQueue.Step(List(e, win), DoReturn(false)))
  }

  lemma {:induction false} AfterEffectMovesOn(d: Deferred, win: bool, which: Effect)
    requires BothListsKept(d)
    ensures BothListsKept(AfterEffect(d, win, which)) && Onward(d, AfterEffect(d, win, which))
  {
    var e := Effects(d, win, which);
    EffectsMoveOn(d, win, which);
    ListMoves(e, win, DoReturn(false));
    MovesCompose(d, e, AfterEffect(d, win, which));
  }

  lemma {:induction false} RunBuiltinMovesOn(d: Deferred, win: bool)
    requires BothListsKept(d)
    ensures BothListsKept(RunBuiltin(d, win)) && Onward(d, RunBuiltin(d, win))
  {
    BuiltinIsEffectAndReturn(d, win);
    if RunBuiltin(d, win) == d {
      NothingMoves(d, d);
    } else {
      AfterEffectMovesOn(d, win, List(d, win).behind[|List(d, win).behind| - 1].fn.which);
    }
  }

  lemma MovesCompose(c: Deferred, d: Deferred, e: Deferred)
    requires Onward(c, d) && Onward(d, e)
    ensures Onward(c, e)
  {
    LaterComposes(c.done, d.done, e.done);
    LaterComposes(c.fail, d.fail, e.fail);
  }

  lemma LaterComposes(p: Queue, q: Queue, r: Queue)
    requires Later(p, q) && Later(q, r)
    ensures Later(p, r)
  {
  }

  lemma {:induction false} ThreeBuiltinsMoveOn(d: Deferred, win: bool)
    requires BothListsKept(d)
    ensures var r := RunBuiltin(RunBuiltin(RunBuiltin(d, win), win), win); BothListsKept(r) && Onward(d, r)
  {
    var d1 := RunBuiltin(d, win);
    var d2 := RunBuiltin(d1, win);
    var d3 := RunBuiltin(d2, win);
    RunBuiltinMovesOn(d, win);
    RunBuiltinMovesOn(d1, win);
    RunBuiltinMovesOn(d2, win);
    MovesCompose(d, d1, d2);
    MovesCompose(d, d2, d3);
  }

  lemma {:induction false} SettleMovesOn(d: Deferred, win: bool, args: Args)
    requires BothListsKept(d)
    ensures BothListsKept(Settle(d, win, args)) && Onward(d, Settle(d, win, args))
  {
    var d0 := WithList(d, win, FireWith(List(d, win), args));
    ListMoves(d, win, DoFire(args));
    ThreeBuiltinsMoveOn(d0, win);
    MovesCompose(d, d0, RunBuiltin(RunBuiltin(RunBuiltin(d0, win), win), win));
  }

  lemma {:induction false} StepOnward(d: Deferred, a: D.Action)
    requires BothListsKept(d)
    ensures Onward(d, D.Step(d, a))
  {
    match a
    case Resolve(args) => SettleMovesOn(d, true, args);
    case Reject(args) => SettleMovesOn(d, false, args);
    case Done(ids) => ListMoves(d, true, DoAdd(UserFns(ids)));
    case Fail(ids) => ListMoves(d, false, DoAdd(UserFns(ids)));
    case Returns(win) => ListMoves(d, win, DoReturn(false));
    case _ =>
  }

  /** No action on a Deferred takes back a call, a registration or the settled arguments. */
  lemma {:induction false} StepMovesOn(d: Deferred, a: D.Action)
    requires Inv(d)
    ensures Inv(D.Step(d, a)) && Onward(d, D.Step(d, a))
  {
    StepInv(d, a);
    InvKeepsLists(d);
    StepOnward(d, a);
  }

  lemma InvKeepsLists(d: Deferred)
    requires Inv(d)
    ensures BothListsKept(d)
  {
  }

  lemma {:induction false} SignedMovesOn(d: Deferred, win: bool, id: nat)
    requires Inv(d)
    ensures Inv(Signed(d, win, id)) && Onward(d, Signed(d, win, id))
  {
    var a := if win then Done([id]) else Fail([id]);
    StepMovesOn(d, a);
    if Answering(List(d, win)) { StepMovesOn(D.Step(d, a), Returns(win)); }
  }

  lemma ProgressMovesOn(d: Deferred, id: nat)
    requires Inv(d)
    ensures var r := SignedProgress(d, id);
            Inv(r) && r.done == d.done && r.fail == d.fail && r.state == d.state
  {
    var e := d.(progress := CallbackQueue.Step(d.progress, DoAdd(UserFns([id]))));
    ProgressInv(d, DoAdd(UserFns([id])));
    assert D.Step(d, Progress([id])) == e;
    ProgressInv(e, DoReturn(false));
    assert D.Step(e, ProgressReturns) == e.(progress := CallbackQueue.Step(e.progress, DoReturn(false)));
  }

  /** A list after listening, seen from outside: the new registration is made if the list takes any, it is
      heard if and only if the list calls at once what is added, nothing else is heard, and the list is
      firing if it was. */
  ghost predicate ListensOn(q: Queue, r: Queue) {
    && Later(q, r) && r.firing == q.firing && r.fired == q.fired && r.disabled == q.disabled
    && Ticketed(r, q.tickets)
    && forall t: nat :: Heard(r, t) <==> Heard(q, t) || (Answering(q) && t == q.tickets)
  }

  lemma {:induction false} RegisteringListensOn(q: Queue, fn: Fn)
    requires OnceMemory(q) && !q.options.unique
    ensures ListensOn(q, Registering(q, fn))
  {
    RegisteringEffect(q, fn);
    forall t: nat ensures Heard(Registering(q, fn), t) <==> Heard(q, t) || (Answering(q) && t == q.tickets) {
      RegisteringHeard(q, fn, t);
    }
  }

  /** Listening in on a Deferred. */
  lemma {:induction false} ListenedEffect(d: Deferred, id: nat)
    requires Inv(d)
    ensures var r := Listened(d, id);
            && Inv(r) && r.state == d.state
            && ListensOn(d.done, r.done) && ListensOn(d.fail, r.fail)
  {
    var d1 := Signed(d, true, id);
    var d2 := Signed(d1, false, id);
    SignedMovesOn(d, true, id);
    SignedMovesOn(d1, false, id);
    ProgressMovesOn(d2, id);
    SignedIs(d, true, id);
    SignedIs(d1, false, id);
    RegisteringListensOn(d.done, User(id));
    RegisteringListensOn(d.fail, User(id));
  }

  /** Whether a listener to a Deferred as it is now is called at once: it is settled the right way, and its
      list has finished firing. */
  lemma {:induction false} AnsweringIff(d: Deferred, win: bool)
    requires Inv(d)
    ensures Answering(List(d, win)) <==> d.state == (if win then Resolved else Rejected) && !List(d, win).firing
  {
  }
}
