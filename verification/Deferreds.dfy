/** jQuery.Deferred: three callback lists wired so that it settles once. Calls made from inside callbacks
    are actions taken while a list is firing. */
module Deferreds {
  import opened Wrappers
  import opened CallbackQueue

  datatype Status = Pending | Resolved | Rejected

  datatype Deferred = Deferred(state: Status, done: Queue, fail: Queue, progress: Queue)

  const BUILTINS: seq<Fn> := [Builtin(SetState), Builtin(DisableOther), Builtin(LockProgress)]

  function Create(): Deferred {
    var list := Add(Empty(Options(true, true, false, false)), BUILTINS);
    Deferred(Pending, list, list, Empty(Options(false, true, false, false)))
  }

  /** The list that `resolve` or `reject` fires, and the other one. */
  function List(d: Deferred, win: bool): Queue {
    if win then d.done else d.fail
  }

  function WithList(d: Deferred, win: bool, q: Queue): Deferred {
    if win then d.(done := q) else d.(fail := q)
  }

  /** What a Deferred's own entry on the `win` list does. */
  function Effects(d: Deferred, win: bool, which: Effect): Deferred {
    match which
    case SetState => d.(state := if win then Resolved else Rejected)
    case DisableOther => WithList(d, !win, Disable(List(d, !win)))
    case LockProgress => d.(progress := Lock(d.progress))
  }

  /** If the running entry is one the Deferred put there itself, do what it does and return from it. */
  function RunBuiltin(d: Deferred, win: bool): Deferred {
    var q := List(d, win);
    if !q.firing || q.behind == [] || q.behind[|q.behind| - 1].fn.User? then d
    else
      var e := Effects(d, win, q.behind[|q.behind| - 1].fn.which);
      WithList(e, win, Return(List(e, win), false))
  }

  /** `resolveWith` and `rejectWith`. */
  function Settle(d: Deferred, win: bool, args: Args): Deferred {
    var q := List(d, win);
    var f := WithList(d, win, FireWith(q, args));
    if q.disabled || q.fired then f else RunBuiltin(RunBuiltin(RunBuiltin(f, win), win), win)
  }

  function UserFns(ids: seq<nat>): seq<Fn> {
    if ids == [] then [] else [User(ids[0])] + UserFns(ids[1..])
  }

  datatype Action =
    | Resolve(args: Args)
    | Reject(args: Args)
    | Notify(args: Args)
    | Done(ids: seq<nat>)
    | Fail(ids: seq<nat>)
    | Progress(ids: seq<nat>)
    | Returns(win: bool)   // a user callback of the done or fail list returns
    | ProgressReturns

  function Step(d: Deferred, a: Action): Deferred {
    match a
    case Resolve(args) => Settle(d, true, args)
    case Reject(args) => Settle(d, false, args)
    case Notify(args) => d.(progress := FireWith(d.progress, args))
    case Done(ids) => d.(done := Add(d.done, UserFns(ids)))
    case Fail(ids) => d.(fail := Add(d.fail, UserFns(ids)))
    case Progress(ids) => d.(progress := Add(d.progress, UserFns(ids)))
    case Returns(win) => WithList(d, win, Return(List(d, win), false))
    case ProgressReturns => d.(progress := Return(d.progress, false))
  }

  lemma ReturnsStep(d: Deferred, win: bool)
    ensures Step(d, Returns(win)) == WithList(d, win, Return(List(d, win), false))
  {
  }

  function Run(d: Deferred, actions: seq<Action>): Deferred
    decreases |actions|
  {
    if actions == [] then d else Run(Step(d, actions[0]), actions[1..])
  }

  // ---------- the invariant ----------

  /** A list that may still fire: its own three entries are first in line. */
  ghost predicate Ready(q: Queue) {
    && OnceMemory(q) && !q.options.unique && !q.disabled && !q.fired && q.gone == {}
    && |q.ahead| >= 3 && forall i :: 0 <= i < 3 ==> q.ahead[i].fn == BUILTINS[i]
  }

  /** The list that fired. */
  ghost predicate Fired(q: Queue) {
    OnceMemory(q) && !q.options.unique && !q.disabled && q.fired && q.gone == {}
  }

  /** The list that never will. */
  ghost predicate Dead(q: Queue) {
    OnceMemory(q) && !q.options.unique && q.disabled && !q.fired && q.calls == []
  }

  /** The progress list after settling: it takes no new data. */
  ghost predicate Closed(q: Queue) {
    q.stack.None? && (q.fired || q.disabled)
  }

  ghost predicate Inv(d: Deferred) {
    && FlagUp(d.progress)
    && match d.state
       case Pending => Ready(d.done) && Ready(d.fail)
       case Resolved => Fired(d.done) && Dead(d.fail) && Closed(d.progress)
       case Rejected => Fired(d.fail) && Dead(d.done) && Closed(d.progress)
  }

  lemma {:induction false} CreateInv()
    ensures Inv(Create())
  {
    var e := Empty(Options(true, true, false, false));
    assert OnceMemory(e) by { assert Called(e) == []; assert Below(0) == {}; }
    PushKeeps(e, BUILTINS);
    PushThree(e, BUILTINS);
  }

  lemma PushThree(q: Queue, fns: seq<Fn>)
    requires !q.options.unique && q.ahead == [] && |fns| == 3
    ensures var es := Push(q, fns).ahead; |es| == 3 && forall i :: 0 <= i < 3 ==> es[i].fn == fns[i]
  {
    var q1 := PushOne(q, fns[0]);
    var q2 := PushOne(q1, fns[1]);
    var q3 := PushOne(q2, fns[2]);
    assert fns[1..][1..] == fns[2..] && fns[2..][1..] == [];
    assert Push(q, fns) == Push(q1, fns[1..]) == Push(q2, fns[2..]) == Push(q3, []) == q3;
  }

  /** The running entry is the Deferred's own entry `which`, on a list in good order. */
  ghost predicate Running(q: Queue, which: Effect, args: Args) {
    && Fired(q) && q.firing && q.data == args
    && q.behind != [] && q.behind[|q.behind| - 1].fn == Builtin(which)
  }

  /** Running one of the Deferred's own entries, and moving on to the next in line. */
  lemma {:induction false} BuiltinStep(d: Deferred, win: bool, which: Effect, args: Args)
    requires Running(List(d, win), which, args)
    ensures var q := List(d, win); var r := RunBuiltin(d, win); var e := Effects(d, win, which);
            && r.state == e.state && List(r, !win) == List(e, !win) && r.progress == e.progress
            && Fired(List(r, win)) && List(r, win).data == args
            && (q.ahead != [] ==> List(r, win).firing && List(r, win).ahead == q.ahead[1..])
            && (q.ahead != [] && q.ahead[0].fn.Builtin? ==> Running(List(r, win), q.ahead[0].fn.which, args))
  {
    var q := List(d, win);
    assert RunBuiltin(d, win) == WithList(Effects(d, win, which), win, Return(q, false));
    MoveOn(q, which, args);
  }

  lemma {:induction false} MoveOn(q: Queue, which: Effect, args: Args)
    requires Running(q, which, args)
    ensures var r := Return(q, false);
            && Fired(r) && r.data == args
            && (q.ahead != [] ==> r.firing && r.ahead == q.ahead[1..])
            && (q.ahead != [] && q.ahead[0].fn.Builtin? ==> Running(r, q.ahead[0].fn.which, args))
  {
    StepKeeps(q, DoReturn(false));
    StepDropsNothing(q, DoReturn(false));
    if q.ahead != [] { NextCall(q); }
  }

  /** The list fires its first entry. */
  lemma {:induction false} SettleStarts(q: Queue, args: Args)
    requires Ready(q)
    ensures var r := FireWith(q, args);
            Running(r, SetState, args) && r.ahead == q.ahead[1..]
  {
    FirstCall(q, args);
    StepKeeps(q, DoFire(args));
    StepDropsNothing(q, DoFire(args));
    assert q.ahead[0].fn == BUILTINS[0];
  }

  /** The first three calls of a settling list are its own entries, in order. */
  lemma {:induction false} SettleEffect(d: Deferred, win: bool, args: Args)
    requires Ready(List(d, win))
    ensures var r := Settle(d, win, args);
            && r.state == (if win then Resolved else Rejected)
            && Fired(List(r, win)) && List(r, win).data == args
            && List(r, !win) == Disable(List(d, !win))
            && r.progress == Lock(d.progress)
            && (|List(d, win).ahead| > 3 ==> List(r, win).firing && List(r, win).ahead == List(d, win).ahead[4..])
  {
    var q := List(d, win);
    var d0 := WithList(d, win, FireWith(q, args));
    SettleStarts(q, args);
    assert q.ahead[1].fn == BUILTINS[1] && q.ahead[2].fn == BUILTINS[2];
    BuiltinStep(d0, win, SetState, args);
    var d1 := RunBuiltin(d0, win);
    BuiltinStep(d1, win, DisableOther, args);
    var d2 := RunBuiltin(d1, win);
    BuiltinStep(d2, win, LockProgress, args);
  }

  /** A locked list stays locked. */
  lemma {:induction false} StaysLocked(q: Queue, a: CallbackQueue.Action)
    requires q.stack.None?
    ensures CallbackQueue.Step(q, a).stack.None?
  {
    match a
    case DoAdd(fns) =>
      if !q.disabled && !q.firing && q.memory.Some? { StartLocked(Push(q, fns), q.memory.value, |q.ahead|); }
    case DoFire(args) =>
      if !q.disabled && !q.fired && !q.firing { StartLocked(q, args, 0); }
    case DoReturn(stop) =>
      LoopLocked(q);
      LoopLocked(q.(memory := None));
    case _ =>
  }

  lemma StartLocked(q: Queue, data: Args, start: nat)
    requires q.stack.None?
    ensures Start(q, data, start).stack.None?
  {
    LoopLocked(Begun(q, data, start));
  }

  lemma ReadyStaysReady(q: Queue, ids: seq<nat>)
    requires Ready(q)
    ensures Ready(Add(q, UserFns(ids)))
  {
    StepKeeps(q, DoAdd(UserFns(ids)));
    StepDropsNothing(q, DoAdd(UserFns(ids)));
  }

  lemma DeadStaysDead(q: Queue, a: CallbackQueue.Action)
    requires Dead(q)
    ensures Dead(CallbackQueue.Step(q, a))
  {
    StepKeeps(q, a);
  }

  lemma FiredStaysFired(q: Queue, a: CallbackQueue.Action)
    requires Fired(q) && (a.DoAdd? || a.DoFire? || a.DoReturn?)
    ensures var r := CallbackQueue.Step(q, a); Fired(r) && r.data == q.data && q.calls <= r.calls
  {
    StepKeeps(q, a);
    StepDropsNothing(q, a);
  }

  /** From `d` to `r`: settled once, settled for good, and with the same arguments. */
  ghost predicate SameOutcome(d: Deferred, r: Deferred) {
    d.state != Pending ==>
      && r.state == d.state
      && List(r, d.state == Resolved).data == List(d, d.state == Resolved).data
      && List(d, d.state == Resolved).calls <= List(r, d.state == Resolved).calls
  }

  lemma {:induction false} StepInv(d: Deferred, a: Action)
    requires Inv(d)
    ensures Inv(Step(d, a)) && SameOutcome(d, Step(d, a))
  {
    match a
    case Resolve(args) => SettleInv(d, true, args);
    case Reject(args) => SettleInv(d, false, args);
    case Notify(args) => ProgressInv(d, DoFire(args));
    case Progress(ids) => ProgressInv(d, DoAdd(UserFns(ids)));
    case ProgressReturns => ProgressInv(d, DoReturn(false));
    case Done(ids) => AddInv(d, true, ids);
    case Fail(ids) => AddInv(d, false, ids);
    case Returns(win) => ReturnInv(d, win);
  }

  lemma ProgressInv(d: Deferred, a: CallbackQueue.Action)
    requires Inv(d)
    ensures var r := d.(progress := CallbackQueue.Step(d.progress, a)); Inv(r) && SameOutcome(d, r)
  {
    StaysClosed(d.progress, a);
  }

  lemma ReturnInv(d: Deferred, win: bool)
    requires Inv(d)
    ensures var r := WithList(d, win, Return(List(d, win), false)); Inv(r) && SameOutcome(d, r)
  {
    if d.state != Pending {
      if (d.state == Resolved) == win { FiredStaysFired(List(d, win), DoReturn(false)); }
      else { DeadStaysDead(List(d, win), DoReturn(false)); }
    }
  }

  /** A closed progress list stays closed. */
  lemma StaysClosed(q: Queue, a: CallbackQueue.Action)
    requires FlagUp(q)
    ensures Closed(q) ==> Closed(CallbackQueue.Step(q, a))
    ensures FlagUp(CallbackQueue.Step(q, a))
  {
    FlagStaysUp(q, a);
    if q.stack.None? { StaysLocked(q, a); }
  }

  lemma AddInv(d: Deferred, win: bool, ids: seq<nat>)
    requires Inv(d)
    ensures var r := WithList(d, win, Add(List(d, win), UserFns(ids))); Inv(r) && SameOutcome(d, r)
  {
    if d.state == Pending { ReadyStaysReady(List(d, win), ids); }
    else if (d.state == Resolved) == win { FiredStaysFired(List(d, win), DoAdd(UserFns(ids))); }
    else { DeadStaysDead(List(d, win), DoAdd(UserFns(ids))); }
  }

  lemma DisabledIsDead(q: Queue)
    requires Ready(q)
    ensures Dead(Disable(q))
  {
    StepKeeps(q, DoDisable);
  }

  lemma SettleInv(d: Deferred, win: bool, args: Args)
    requires Inv(d)
    ensures Inv(Settle(d, win, args)) && SameOutcome(d, Settle(d, win, args))
    ensures d.state != Pending ==> Settle(d, win, args) == d
  {
    if d.state == Pending {
      SettleEffect(d, win, args);
      DisabledIsDead(List(d, !win));
    }
  }

  // ---------- the promises ----------

  lemma {:induction false} RunInv(d: Deferred, actions: seq<Action>)
    requires Inv(d)
    ensures Inv(Run(d, actions)) && SameOutcome(d, Run(d, actions))
    decreases |actions|
  {
    if actions != [] {
      StepInv(d, actions[0]);
      RunInv(Step(d, actions[0]), actions[1..]);
    }
  }

  /** However the calls interleave: the state leaves "pending" at most once and the settled arguments
      never change; the losing side never calls anything; every call on the winning side is made with
      the settled arguments. */
  lemma {:induction false} SettlesOnce(early: seq<Action>, late: seq<Action>)
    ensures var d := Run(Create(), early); var r := Run(d, late);
            && SameOutcome(d, r)
            && (r.state != Resolved ==> r.done.calls == [])
            && (r.state != Rejected ==> r.fail.calls == [])
            && (r.state == Resolved ==> forall c :: c in r.done.calls ==> c.1 == r.done.data)
            && (r.state == Rejected ==> forall c :: c in r.fail.calls ==> c.1 == r.fail.data)
  {
    CreateInv();
    RunInv(Create(), early);
    RunInv(Run(Create(), early), late);
  }

  /** The first call of `resolve` or `reject` decides: it settles a pending Deferred with its arguments,
      and any other leaves everything as it is. */
  lemma {:induction false} FirstSettleWins(early: seq<Action>, win: bool, args: Args)
    ensures var d := Run(Create(), early); var r := Settle(d, win, args);
            if d.state == Pending then r.state == (if win then Resolved else Rejected) && List(r, win).data == args
            else r == d
  {
    CreateInv();
    RunInv(Create(), early);
    var d := Run(Create(), early);
    SettleInv(d, win, args);
    if d.state == Pending { SettleEffect(d, win, args); }
  }

  /** Once the winning list is idle, every function registered on it has been called exactly once. */
  lemma {:induction false} EveryCallbackOnce(actions: seq<Action>, win: bool, t: nat)
    requires var d := Run(Create(), actions); var q := List(d, win);
             d.state == (if win then Resolved else Rejected) && !q.firing && t < q.tickets
    ensures Times(List(Run(Create(), actions), win), t) == 1
  {
    CreateInv();
    RunInv(Create(), actions);
    IdleCounts(List(Run(Create(), actions), win), t);
  }

  /** After settling, `notify` starts nothing new. */
  lemma {:induction false} NoNewsAfterSettling(actions: seq<Action>, args: Args)
    requires var d := Run(Create(), actions); d.state != Pending
    ensures var d := Run(Create(), actions); Step(d, Notify(args)) == d
  {
    CreateInv();
    RunInv(Create(), actions);
  }
}
