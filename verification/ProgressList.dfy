/** `notify` and `progress`: what a Deferred's progress list does until the Deferred settles. */
module ProgressList {
  import opened Wrappers
  import opened CallbackQueue
  import D = Deferreds
  import N = Notifications

  /** What a run of a Deferred's actions does to its progress list. */
  function ProgressActions(actions: seq<D.Action>): seq<Action> {
    if actions == [] then []
    else
      (match actions[0]
       case Notify(args) => [DoFire(args)]
       case Progress(ids) => [DoAdd(D.UserFns(ids))]
       case ProgressReturns => [DoReturn(false)]
       case _ => []) + ProgressActions(actions[1..])
  }

  lemma {:induction false} ProgressIsPlain(actions: seq<D.Action>)
    ensures N.Plain(ProgressActions(actions))
  {
    if actions != [] { ProgressIsPlain(actions[1..]); }
  }

  /** A settled Deferred does not become pending again. */
  lemma {:induction false} PendingBefore(d: D.Deferred, a: D.Action, rest: seq<D.Action>)
    requires D.Inv(d) && d.state.Pending? && D.Run(D.Step(d, a), rest).state.Pending?
    ensures D.Inv(D.Step(d, a)) && D.Step(d, a).state.Pending? && !a.Resolve? && !a.Reject?
  {
    D.StepInv(d, a);
    D.RunInv(D.Step(d, a), rest);
    match a
    case Resolve(args) => D.SettleEffect(d, true, args);
    case Reject(args) => D.SettleEffect(d, false, args);
    case _ =>
  }

  lemma {:induction false} PendingRun(d: D.Deferred, actions: seq<D.Action>)
    requires D.Inv(d) && d.state.Pending? && D.Run(d, actions).state.Pending?
    ensures D.Run(d, actions).progress == Run(d.progress, ProgressActions(actions))
    decreases |actions|
  {
    if actions != [] {
      var a, rest := actions[0], actions[1..];
      PendingBefore(d, a, rest);
      PendingRun(D.Step(d, a), rest);
      FirstAction(d, a, rest);
      assert actions == [a] + rest;
    }
  }

  lemma FirstAction(d: D.Deferred, a: D.Action, rest: seq<D.Action>)
    requires !a.Resolve? && !a.Reject?
    ensures Run(d.progress, ProgressActions([a] + rest)) == Run(D.Step(d, a).progress, ProgressActions(rest))
  {
    var all := [a] + rest;
    assert all[0] == a && all[1..] == rest;
    var more := ProgressActions(rest);
    if a.Notify? || a.Progress? || a.ProgressReturns? {
      var one := ProgressActions(all)[0];
      assert ProgressActions(all) == [one] + more && ([one] + more)[1..] == more;
      assert Run(d.progress, [one] + more) == Run(Step(d.progress, one), more);
    } else {
      assert ProgressActions(all) == [] + more == more;
    }
  }

  /** While a Deferred is pending, whatever is called from wherever: every function on its progress list is
      called with each notification from its birth on, that is, with those made from its registration on
      and, before them, with the latest one already made, or being made, when it was registered. Calls go
      notification by notification, and within one in the order of registration. */
  lemma {:induction false} NotifyReachesAll(actions: seq<D.Action>)
    requires D.Run(D.Create(), actions).state.Pending?
    ensures var seen := ProgressActions(actions);
            N.Keeps(D.Run(D.Create(), actions).progress, N.Notified(seen),
                    N.Registrations(Empty(Options(false, true, false, false)), [], seen))
  {
    D.CreateInv();
    PendingRun(D.Create(), actions);
    ProgressIsPlain(actions);
    N.EveryNotificationReachesAll(true, ProgressActions(actions));
  }

  /** The smallest case: one function, one notification, one call. */
  lemma {:induction false} FirstNotification(id: nat, args: Args)
    ensures var d := D.Step(D.Step(D.Create(), D.Progress([id])), D.Notify(args));
            d.progress.calls == [(Entry(User(id), 0), args)] && d.progress.firing
  {
    var q := Empty(Options(false, true, false, false));
    assert [id][1..] == [] && D.UserFns([id]) == [User(id)] && [User(id)][1..] == [];
    var p := Push(q, [User(id)]);
    assert p == Push(PushOne(q, User(id)), []);
    FirstCall(p, args);
  }
}
