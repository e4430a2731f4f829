/** jQuery.Deferred over three live callback lists: every method has the effect that Deferreds gives it. */
module DeferredObject {
  import opened Wrappers
  import opened CallbackQueue
  import opened CallbackList
  import D = Deferreds

  class DeferredObject {
    var state: D.Status
    const done: Callbacks
    const fail: Callbacks
    const progress: Callbacks

    ghost predicate Valid()
      reads this, done, fail, progress
    {
      done != fail && done != progress && fail != progress && done.Valid() && fail.Valid() && progress.Valid()
    }

    ghost function View(): D.Deferred
      reads this, done, fail, progress
    {
      D.Deferred(state, done.View(), fail.View(), progress.View())
    }

    /** Each settling list starts with the entries that set the state, disable the other list, and lock
        the progress list. */
    constructor ()
      ensures Valid() && View() == D.Create()
      ensures fresh(done) && fresh(fail) && fresh(progress)
    {
      state := D.Pending;
      var winning := new Callbacks(Options(true, true, false, false));
      winning.Add(D.BUILTINS);
      var losing := new Callbacks(Options(true, true, false, false));
      losing.Add(D.BUILTINS);
      done, fail := winning, losing;
      progress := new Callbacks(Options(false, true, false, false));
    }

    /** `resolveWith` and `rejectWith`: fire the list; its first three entries are the Deferred's own. */
    method Settle(win: bool, args: Args)
      requires Valid()
      modifies this, done, fail, progress
      ensures Valid() && View() == D.Settle(old(View()), win, args)
    {
      var starts := if win then done.list.Some? && !done.fired else fail.list.Some? && !fail.fired;
      FireList(win, args);
      if starts {
        RunBuiltin(win);
        RunBuiltin(win);
        RunBuiltin(win);
      }
    }

    method FireList(win: bool, args: Args)
      requires Valid()
      modifies done, fail
      ensures Valid() && View() == D.WithList(old(View()), win, FireWith(D.List(old(View()), win), args))
    {
      if win {
        done.FireWith(args);
      } else {
        fail.FireWith(args);
      }
    }

    method ReturnFrom(win: bool)
      requires Valid()
      modifies done, fail
      ensures Valid() && View() == D.WithList(old(View()), win, Return(D.List(old(View()), win), false))
    {
      if win {
        done.Return(false);
      } else {
        fail.Return(false);
      }
    }

    /** What one of the Deferred's own entries does. */
    method Effect(win: bool, which: Effect)
      requires Valid()
      modifies this, done, fail, progress
      ensures Valid() && View() == D.Effects(old(View()), win, which)
    {
      match which
      case SetState => state := if win then D.Resolved else D.Rejected;
      case DisableOther => if win { fail.Disable(); } else { done.Disable(); }
      case LockProgress => progress.Lock();
    }

    /** The running entry, if it is one of the Deferred's own, does its work and returns. */
    method RunBuiltin(win: bool)
      requires Valid()
      modifies this, done, fail, progress
      ensures Valid() && View() == D.RunBuiltin(old(View()), win)
    {
      var running := if win then Running(done) else Running(fail);
      if running.Some? && running.value.Builtin? {
        Effect(win, running.value.which);
        ReturnFrom(win);
      }
    }

    /** The function at the index of a firing list. */
    function Running(c: Callbacks): (r: Option<Fn>)
      requires c.Valid()
      reads c
      ensures var q := c.View();
              r == if q.firing && q.behind != [] then Some(q.behind[|q.behind| - 1].fn) else None
    {
      if c.firing && c.list.Some? && c.firingIndex >= 0 then Some(c.list.value[c.firingIndex].fn) else None
    }

    method Notify(args: Args)
      requires Valid()
      modifies progress
      ensures Valid() && View() == D.Step(old(View()), D.Notify(args))
    {
      progress.FireWith(args);
    }

    method Done(ids: seq<nat>)
      requires Valid()
      modifies done
      ensures Valid() && View() == D.Step(old(View()), D.Done(ids))
    {
      done.Add(D.UserFns(ids));
    }

    method Fail(ids: seq<nat>)
      requires Valid()
      modifies fail
      ensures Valid() && View() == D.Step(old(View()), D.Fail(ids))
    {
      fail.Add(D.UserFns(ids));
    }

    method Progress(ids: seq<nat>)
      requires Valid()
      modifies progress
      ensures Valid() && View() == D.Step(old(View()), D.Progress(ids))
    {
      progress.Add(D.UserFns(ids));
    }

    /** A user callback of the done or fail list returns. */
    method Returns(win: bool)
      requires Valid()
      modifies done, fail
      ensures Valid() && View() == D.Step(old(View()), D.Returns(win))
    {
      D.ReturnsStep(View(), win);
      ReturnFrom(win);
    }
  }
}
