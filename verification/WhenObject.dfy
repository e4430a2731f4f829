/** jQuery.when as written: a counter and an array that the update functions close over. Every step has the
    effect that When gives it, and the promises of WhenSettles hold of the live object. */
module WhenObject {
  import opened Wrappers
  import opened CallbackQueue
  import opened D = Deferreds
  import opened Listeners
  import opened When
  import opened WhenAccounts
  import opened WhenRuns
  import opened WhenSettles

  class Whenever {
    const inputs: seq<Input>
    var pool: seq<Deferred>        // the Deferreds of the page
    var doneTickets: seq<nat>
    var failTickets: seq<nat>
    var heard: seq<bool>
    var lost: seq<bool>
    var remaining: int
    var values: seq<Arg>           // `resolveValues`, which starts as the arguments
    var master: Deferred

    function View(): Case
      reads this
    {
      Case(inputs, pool, doneTickets, failTickets, heard, lost, remaining, values, master)
    }

    ghost predicate Valid()
      reads this
    {
      Good(View())
    }

    /** The call. A single promise is left alone; otherwise every promise is listened to and every plain
        value, a single one too, counted off, and at zero the master is resolved. */
    constructor (inputs: seq<Input>, pool: seq<Deferred>)
      requires InRange(inputs, |pool|) && PoolInOrder(pool)
      ensures View() == Begin(inputs, pool) && Valid()
    {
      this.inputs, this.pool := inputs, pool;
      doneTickets, failTickets := [], [];
      heard, lost := NoneYet(|inputs|), NoneYet(|inputs|);
      remaining := |inputs|;
      values := Given(inputs);
      master := Create();
      new;
      ghost var c := Untouched(inputs, pool);
      assert View() == c;
      BeginIsGood(inputs, pool);
      if !Single(inputs) {
        for i := 0 to |inputs|
          invariant Sized(View()) && View().inputs == inputs && |doneTickets| == i
          invariant AttachAll(View()) == AttachAll(c)
        {
          AttachNext();
        }
        if remaining == 0 {
          master := Settle(master, true, values);
        }
      }
    }

    /** One turn of the loop over the arguments. */
    method AttachNext()
      requires Sized(View()) && |doneTickets| < |inputs|
      modifies this
      ensures View() == Attach(old(View()))
    {
      var i := |doneTickets|;
      match inputs[i]
      case Plain(_) =>
        doneTickets, failTickets := doneTickets + [0], failTickets + [0];
        heard := heard[i := true];
        remaining := remaining - 1;
      case Promise(w) =>
        doneTickets, failTickets := doneTickets + [pool[w].done.tickets], failTickets + [pool[w].fail.tickets];
        pool := pool[w := Listened(pool[w], i)];
        HearOne(i);
    }

    /** The update function of input `k`. */
    method UpdateWith(k: nat, args: Args)
      requires Sized(View()) && k < |inputs|
      modifies this
      ensures View() == Update(old(View()), k, args)
    {
      heard := heard[k := true];
      values := values[k := One(args)];
      remaining := remaining - 1;
      if remaining == 0 {
        master := Settle(master, true, values);
      }
    }

    /** The callbacks of input `k` run if their lists have called them. */
    method HearOne(k: nat)
      requires Sized(View()) && k < |doneTickets|
      modifies this
      ensures View() == Hear(old(View()), k)
    {
      if inputs[k].Promise? {
        var d := pool[inputs[k].which];
        if Calls(View(), k, true) && !heard[k] {
          UpdateWith(k, d.done.data);
        } else if Calls(View(), k, false) && !lost[k] {
          lost := lost[k := true];
          master := Settle(master, false, d.fail.data);
        }
      }
    }

    method HearAll()
      requires Sized(View()) && |doneTickets| == |inputs|
      modifies this
      ensures View() == HearFrom(old(View()), 0)
    {
      ghost var c := View();
      for k := 0 to |inputs|
        invariant Sized(View()) && |doneTickets| == |inputs|
        invariant HearFrom(View(), k) == HearFrom(c, 0)
      {
        HearOne(k);
      }
    }

    /** Something happens on the page. Whatever it is, the master says what it should. */
    method Happen(e: Event)
      requires Valid()
      modifies this
      ensures View() == Next(old(View()), e) && Valid()
      ensures UpToWaiting(View()) && SettledWhenQuiet(View())
      ensures !Single(inputs) ==> Answers(View())
    {
      NextIsGood(View(), e);
      match e {
        case On(w, a) =>
          if w < |pool| {
            pool := pool[w := D.Step(pool[w], a)];
            if !Single(inputs) {
              HearAll();
            }
          }
        case OnMaster(a) =>
          if !Single(inputs) && !a.Resolve? && !a.Reject? {
            master := D.Step(master, a);
          }
      }
      Conclude();
    }

    /** What the promises say of the live object. */
    lemma Conclude()
      requires Valid()
      ensures UpToWaiting(View()) && SettledWhenQuiet(View())
      ensures !Single(inputs) ==> Answers(View())
    {
      GoodUpToWaiting(View());
      GoodSettledWhenQuiet(View());
      if !Single(inputs) { GoodAnswers(View()); }
    }
  }
}
