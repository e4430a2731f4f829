/** What the master promise of `when` says: on return, at every later moment, and once everything is quiet. */
module WhenSettles {
  import opened Wrappers
  import opened CallbackQueue
  import opened D = Deferreds
  import opened Listeners
  import opened When
  import opened WhenAccounts
  import opened WhenRuns

  // ---------- what the master says ----------

  /** The input has a value that `when` knows of. */
  ghost predicate HeardAt(c: Case, k: nat)
    requires Sized(c) && k < |c.inputs|
  {
    c.inputs[k].Plain? || Calls(c, k, true)
  }

  /** Resolved, with all values in the order of the inputs, exactly when every promise has called back;
      rejected, with the arguments of an input, exactly when one has called `reject`. */
  ghost predicate Answers(c: Case)
    requires Sized(c)
  {
    && (c.master.state == Resolved <==> forall k :: 0 <= k < |c.inputs| ==> HeardAt(c, k))
    && (c.master.state == Resolved ==>
          && |c.master.done.data| == |c.inputs|
          && forall k :: 0 <= k < |c.inputs| ==> c.master.done.data[k] == Answer(c, k))
    && (c.master.state == Rejected <==> exists k :: 0 <= k < |c.inputs| && Calls(c, k, false))
    && (c.master.state == Rejected ==>
          exists k :: 0 <= k < |c.inputs| && Calls(c, k, false) && c.inputs[k].Promise?
                   && c.master.fail.data == c.pool[c.inputs[k].which].fail.data)
  }

  lemma {:induction false} GoodAnswers(c: Case)
    requires Good(c) && !Single(c.inputs)
    ensures Answers(c)
  {
    MissingNone(c.heard);
    forall k | 0 <= k < |c.inputs|
      ensures HeardAt(c, k) == c.heard[k] && Calls(c, k, false) == c.lost[k]
      ensures c.heard[k] ==> c.values[k] == Answer(c, k)
    {
      assert Sound(c, k) && Complete(c, k);
    }
    if c.master.state == Rejected {
      var k :| RejectedIt(c, k);
      assert Calls(c, k, false);
    }
  }

  lemma EveryRunIsGood(inputs: seq<Input>, pool: seq<Deferred>, events: seq<Event>)
    requires InRange(inputs, |pool|) && PoolInOrder(pool)
    ensures Good(Follow(Begin(inputs, pool), events))
  {
    BeginIsGood(inputs, pool);
    FollowIsGood(Begin(inputs, pool), events);
  }

  /** In every run after `when` (leading to `c`), called at any moment on any Deferreds, firing or not, one
      Deferred given twice included. */
  lemma {:induction false} WhenAnswers(inputs: seq<Input>, pool: seq<Deferred>, events: seq<Event>, c: Case)
    requires InRange(inputs, |pool|) && PoolInOrder(pool) && !Single(inputs)
    requires c == Follow(Begin(inputs, pool), events)
    ensures Answers(c)
  {
    EveryRunIsGood(inputs, pool, events);
    GoodAnswers(c);
  }

  /** Input `k` is settled this way. */
  predicate SettledAt(c: Case, k: nat, win: bool)
    requires Sized(c) && k < |c.inputs|
  {
    c.inputs[k].Promise? && c.pool[c.inputs[k].which].state == if win then Resolved else Rejected
  }

  predicate AllResolved(c: Case)
    requires Sized(c)
  {
    forall k :: 0 <= k < |c.inputs| ==> c.inputs[k].Plain? || SettledAt(c, k, true)
  }

  /** The callback of input `k` is still in line on the list that has fired. */
  predicate WaitsAt(c: Case, k: nat, win: bool)
    requires Sized(c) && k < |c.doneTickets| && c.inputs[k].Promise?
  {
    (if win then c.doneTickets[k] else c.failTickets[k]) in TicketSet(List(c.pool[c.inputs[k].which], win).ahead)
  }

  /** A list calls the callback as soon as it is settled, save while it is still in line behind others. */
  lemma {:induction false} CallsUnlessWaiting(c: Case, k: nat, win: bool)
    requires Good(c) && k < |c.doneTickets| && c.inputs[k].Promise?
    ensures Calls(c, k, win) <==> SettledAt(c, k, win) && !WaitsAt(c, k, win)
    ensures WaitsAt(c, k, win) && SettledAt(c, k, win) ==> List(c.pool[c.inputs[k].which], win).firing
  {
    var d := c.pool[c.inputs[k].which];
    var t := if win then c.doneTickets[k] else c.failTickets[k];
    assert Joining(c, k);
    if Heard(List(d, win), t) { HeardMeansSettled(d, win, t); }
    if SettledAt(c, k, win) { HeardUnlessWaiting(List(d, win), t); }
  }

  /** How far "resolved exactly when all inputs are" holds: a resolved master has all inputs resolved, a
      rejected one has a rejected input; and with all inputs resolved the master is resolved if and only
      if no callback of `when` is still in line behind others on a list that is firing. */
  ghost predicate UpToWaiting(c: Case)
    requires Returned(c)
  {
    var m := MasterOf(c);
    && (m.state == Resolved ==> AllResolved(c))
    && (m.state == Rejected ==> exists k :: 0 <= k < |c.inputs| && SettledAt(c, k, false))
    && (AllResolved(c) ==> (m.state == Resolved <==> Single(c.inputs) || NoneWaits(c)))
  }

  predicate NoneWaits(c: Case)
    requires Sized(c) && |c.doneTickets| == |c.inputs|
  {
    forall k :: 0 <= k < |c.inputs| && c.inputs[k].Promise? ==> !WaitsAt(c, k, true)
  }

  lemma {:induction false} ResolvedHasAll(c: Case)
    requires Good(c) && !Single(c.inputs) && c.master.state == Resolved
    ensures AllResolved(c) && NoneWaits(c)
  {
    GoodAnswers(c);
    forall k | 0 <= k < |c.inputs| && c.inputs[k].Promise?
      ensures SettledAt(c, k, true) && !WaitsAt(c, k, true)
    {
      assert HeardAt(c, k);
      CallsUnlessWaiting(c, k, true);
    }
  }

  lemma {:induction false} RejectedHasOne(c: Case)
    requires Good(c) && !Single(c.inputs) && c.master.state == Rejected
    ensures exists k :: 0 <= k < |c.inputs| && SettledAt(c, k, false)
  {
    GoodAnswers(c);
    var k :| 0 <= k < |c.inputs| && Calls(c, k, false);
    CallsUnlessWaiting(c, k, false);
  }

  lemma {:induction false} AllAndNoneWaits(c: Case)
    requires Good(c) && !Single(c.inputs) && AllResolved(c) && NoneWaits(c)
    ensures c.master.state == Resolved
  {
    GoodAnswers(c);
    forall k | 0 <= k < |c.inputs| ensures HeardAt(c, k) {
      if c.inputs[k].Promise? { CallsUnlessWaiting(c, k, true); }
    }
  }

  /** For a single promise, which is its own master, there is nothing to it. */
  lemma SingleSays(c: Case)
    requires Good(c) && Single(c.inputs)
    ensures UpToWaiting(c) && SettledWhenQuiet(c)
  {
    assert forall k, win :: 0 <= k < |c.inputs| ==>
             (SettledAt(c, k, win) <==> MasterOf(c).state == if win then Resolved else Rejected);
    assert AllResolved(c) <==> SettledAt(c, 0, true);
    assert SettledAt(c, 0, false) ==> exists k :: 0 <= k < |c.inputs| && SettledAt(c, k, false);
  }

  lemma {:induction false} GoodUpToWaiting(c: Case)
    requires Good(c)
    ensures UpToWaiting(c)
  {
    if Single(c.inputs) {
      SingleSays(c);
    } else {
      ManyUpToWaiting(c);
    }
  }

  lemma {:induction false} ManyUpToWaiting(c: Case)
    requires Good(c) && !Single(c.inputs)
    ensures UpToWaiting(c)
  {
    if c.master.state == Resolved { ResolvedHasAll(c); }
    if c.master.state == Rejected { RejectedHasOne(c); }
    if AllResolved(c) && NoneWaits(c) { AllAndNoneWaits(c); }
  }

  lemma {:induction false} ResolvedUnlessWaiting(inputs: seq<Input>, pool: seq<Deferred>, events: seq<Event>, c: Case)
    requires InRange(inputs, |pool|) && PoolInOrder(pool) && c == Follow(Begin(inputs, pool), events)
    ensures UpToWaiting(c)
  {
    EveryRunIsGood(inputs, pool, events);
    GoodUpToWaiting(c);
  }

  /** Once no input's list is firing the master has the state it should: resolved if all inputs are,
      rejected if one is. */
  ghost predicate SettledWhenQuiet(c: Case)
    requires Sized(c)
  {
    && (AllResolved(c) && Quiet(c, true) ==> MasterOf(c).state == Resolved)
    && ((exists k :: 0 <= k < |c.inputs| && SettledAt(c, k, false)) && Quiet(c, false) ==>
          MasterOf(c).state == Rejected)
  }

  lemma {:induction false} GoodSettledWhenQuiet(c: Case)
    requires Good(c)
    ensures SettledWhenQuiet(c)
  {
    if Single(c.inputs) {
      SingleSays(c);
    } else {
      ManySettledWhenQuiet(c);
    }
  }

  lemma {:induction false} ManySettledWhenQuiet(c: Case)
    requires Good(c) && !Single(c.inputs)
    ensures SettledWhenQuiet(c)
  {
    if AllResolved(c) && Quiet(c, true) {
      QuietNoneWaits(c);
      AllAndNoneWaits(c);
    }
    if Quiet(c, false) {
      forall k | 0 <= k < |c.inputs| && SettledAt(c, k, false) ensures c.master.state == Rejected {
        QuietRejects(c, k);
      }
    }
  }

  lemma {:induction false} QuietNoneWaits(c: Case)
    requires Good(c) && !Single(c.inputs) && AllResolved(c) && Quiet(c, true)
    ensures NoneWaits(c)
  {
    forall k | 0 <= k < |c.inputs| && c.inputs[k].Promise? ensures !WaitsAt(c, k, true) {
      CallsUnlessWaiting(c, k, true);
    }
  }

  lemma {:induction false} QuietRejects(c: Case, k: nat)
    requires Good(c) && !Single(c.inputs) && Quiet(c, false) && k < |c.inputs| && SettledAt(c, k, false)
    ensures c.master.state == Rejected
  {
    GoodAnswers(c);
    CallsUnlessWaiting(c, k, false);
  }

  lemma {:induction false} QuietMasterIsSettled(inputs: seq<Input>, pool: seq<Deferred>, events: seq<Event>, c: Case)
    requires InRange(inputs, |pool|) && PoolInOrder(pool) && c == Follow(Begin(inputs, pool), events)
    ensures SettledWhenQuiet(c)
  {
    EveryRunIsGood(inputs, pool, events);
    GoodSettledWhenQuiet(c);
  }

  /** No input's list on this side is firing. */
  predicate Quiet(c: Case, win: bool)
    requires Sized(c)
  {
    forall k :: 0 <= k < |c.inputs| && c.inputs[k].Promise? ==> !List(c.pool[c.inputs[k].which], win).firing
  }

  // ---------- on return ----------

  /** The input counts at the call itself: it is settled and its list has finished firing. */
  predicate ReadyAtCall(pool: seq<Deferred>, i: Input, win: bool)
    requires i.Promise? ==> i.which < |pool|
  {
    match i
    case Plain(_) => win
    case Promise(w) => pool[w].state == (if win then Resolved else Rejected) && !List(pool[w], win).firing
  }

  /** So far `c` has heard exactly from the inputs ready at the call. */
  ghost predicate AsGiven(c: Case, pool: seq<Deferred>) {
    Sized(c) && SameStages(pool, c.pool) && forall k :: 0 <= k < |c.doneTickets| ==> ByReadiness(c, pool, k)
  }

  ghost predicate ByReadiness(c: Case, pool: seq<Deferred>, k: nat)
    requires Sized(c) && k < |c.inputs| && |pool| == |c.pool|
  {
    At(c, k).heard == ReadyAtCall(pool, c.inputs[k], true) && At(c, k).lost == ReadyAtCall(pool, c.inputs[k], false)
  }

  ghost predicate SameStages(pool: seq<Deferred>, now: seq<Deferred>) {
    |pool| == |now| && forall w :: 0 <= w < |pool| ==> SameStage(pool[w], now[w])
  }

  ghost predicate SameStage(d: Deferred, e: Deferred) {
    e.state == d.state && e.done.firing == d.done.firing && e.fail.firing == d.fail.firing
  }

  /** The next registration number has not been called. */
  lemma NotIssued(q: Queue)
    requires OnceMemory(q)
    ensures !Heard(q, q.tickets)
  {
    assert q.tickets !in Below(q.tickets);
  }

  /** Joining calls back at once exactly if the input is ready. */
  lemma {:induction false} JoinedCalls(c: Case, w: nat, win: bool)
    requires Honest(c) && |c.doneTickets| < |c.inputs| && c.inputs[|c.doneTickets|] == Promise(w)
    requires Sized(Joined(c, w))
    ensures Calls(Joined(c, w), |c.doneTickets|, win) <==> ReadyAtCall(c.pool, Promise(w), win)
    ensures SameStage(c.pool[w], Joined(c, w).pool[w])
  {
    var d := c.pool[w];
    ListenedEffect(d, |c.doneTickets|);
    NotIssued(List(d, win));
    AnsweringIff(d, win);
  }

  lemma {:induction false} AttachAsGiven(c: Case, pool: seq<Deferred>)
    requires Honest(c) && |c.doneTickets| < |c.inputs| && UpToDate(c, |c.doneTickets|) && AsGiven(c, pool)
    ensures AsGiven(Attach(c), pool)
  {
    match c.inputs[|c.doneTickets|]
    case Plain(_) => PlainAsGiven(c, pool);
    case Promise(w) => JoinedAsGiven(c, pool, w);
  }

  lemma {:induction false} PlainAsGiven(c: Case, pool: seq<Deferred>)
    requires Honest(c) && |c.doneTickets| < |c.inputs| && c.inputs[|c.doneTickets|].Plain? && AsGiven(c, pool)
    ensures AsGiven(Attach(c), pool)
  {
    assert Sound(c, |c.doneTickets|);
    forall j | 0 <= j < |c.doneTickets| + 1 ensures ByReadiness(Attach(c), pool, j) {
      if j < |c.doneTickets| { assert ByReadiness(c, pool, j); }
    }
  }

  lemma {:induction false} JoinedAsGiven(c: Case, pool: seq<Deferred>, w: nat)
    requires Honest(c) && |c.doneTickets| < |c.inputs| && c.inputs[|c.doneTickets|] == Promise(w)
    requires AsGiven(c, pool) && Sized(Joined(c, w))
    ensures AsGiven(Hear(Joined(c, w), |c.doneTickets|), pool)
  {
    var k := |c.doneTickets|;
    JoinedStages(c, pool, w);
    NextByReadiness(c, pool, w);
    forall j | 0 <= j < k + 1 ensures ByReadiness(Hear(Joined(c, w), k), pool, j) {
      if j < k { EarlierByReadiness(c, pool, w, j); }
    }
  }

  lemma JoinedStages(c: Case, pool: seq<Deferred>, w: nat)
    requires Honest(c) && |c.doneTickets| < |c.inputs| && c.inputs[|c.doneTickets|] == Promise(w)
    requires Sized(Joined(c, w)) && SameStages(pool, c.pool)
    ensures SameStages(pool, Joined(c, w).pool) && SameStage(pool[w], c.pool[w])
  {
    JoinedCalls(c, w, true);
  }

  lemma EarlierByReadiness(c: Case, pool: seq<Deferred>, w: nat, j: nat)
    requires Sized(c) && |pool| == |c.pool| && w < |pool| && Sized(Joined(c, w))
    requires j < |c.doneTickets| < |c.inputs| && ByReadiness(c, pool, j)
    ensures ByReadiness(Hear(Joined(c, w), |c.doneTickets|), pool, j)
  {
  }

  lemma {:induction false} NextByReadiness(c: Case, pool: seq<Deferred>, w: nat)
    requires Honest(c) && |c.doneTickets| < |c.inputs| && c.inputs[|c.doneTickets|] == Promise(w)
    requires |pool| == |c.pool| && SameStage(pool[w], c.pool[w]) && Sized(Joined(c, w))
    ensures ByReadiness(Hear(Joined(c, w), |c.doneTickets|), pool, |c.doneTickets|)
  {
    assert Sound(c, |c.doneTickets|);
    JoinedCalls(c, w, true);
    JoinedCalls(c, w, false);
  }

  lemma {:induction false} AttachAllAsGiven(c: Case, pool: seq<Deferred>)
    requires Honest(c) && UpToDate(c, |c.doneTickets|) && AsGiven(c, pool)
    ensures AsGiven(AttachAll(c), pool)
    decreases |c.inputs| - |c.doneTickets|
  {
    if |c.doneTickets| < |c.inputs| {
      AttachAsGiven(c, pool);
      AttachKeeps(c);
      AttachAllAsGiven(Attach(c), pool);
    }
  }

  /** What `when` returns: resolved if and only if every input is a plain value or a resolved promise whose
      list is not firing at the call, rejected if and only if some input is a rejected promise whose list
      is not firing, and pending in all other cases. */
  lemma {:induction false} OnReturn(inputs: seq<Input>, pool: seq<Deferred>, c: Case)
    requires InRange(inputs, |pool|) && PoolInOrder(pool) && !Single(inputs) && c == Begin(inputs, pool)
    ensures c.master.state == Resolved <==> forall k :: 0 <= k < |inputs| ==> ReadyAtCall(pool, inputs[k], true)
    ensures c.master.state == Rejected <==> exists k :: 0 <= k < |inputs| && ReadyAtCall(pool, inputs[k], false)
  {
    BeginIsGood(inputs, pool);
    BeginAsGiven(inputs, pool);
    HeardTells(c, pool);
  }

  lemma {:induction false} BeginAsGiven(inputs: seq<Input>, pool: seq<Deferred>)
    requires InRange(inputs, |pool|) && PoolInOrder(pool) && !Single(inputs)
    ensures AsGiven(Begin(inputs, pool), pool)
  {
    var c := Untouched(inputs, pool);
    UntouchedIsHonest(inputs, pool);
    AttachAllAsGiven(c, pool);
    MasterAside(AttachAll(c), pool);
  }

  lemma MasterAside(c: Case, pool: seq<Deferred>)
    requires AsGiven(c, pool)
    ensures AsGiven(c.(master := Settle(c.master, true, c.values)), pool)
  {
    var r := c.(master := Settle(c.master, true, c.values));
    forall k | 0 <= k < |c.doneTickets| ensures ByReadiness(r, pool, k) {
      assert ByReadiness(c, pool, k);
    }
  }

  lemma {:induction false} HeardTells(c: Case, pool: seq<Deferred>)
    requires Good(c) && !Single(c.inputs) && AsGiven(c, pool)
    ensures c.master.state == Resolved <==> forall k :: 0 <= k < |c.inputs| ==> ReadyAtCall(pool, c.inputs[k], true)
    ensures c.master.state == Rejected <==> exists k :: 0 <= k < |c.inputs| && ReadyAtCall(pool, c.inputs[k], false)
  {
    MissingNone(c.heard);
    forall k | 0 <= k < |c.inputs|
      ensures c.heard[k] == ReadyAtCall(pool, c.inputs[k], true) && c.lost[k] == ReadyAtCall(pool, c.inputs[k], false)
    {
      assert ByReadiness(c, pool, k);
    }
  }

  // ---------- a call from inside a callback ----------

  /** A Deferred settled with one user callback, which is running. */
  function Inside(win: bool, args: Args): Deferred {
    Settle(D.Step(Create(), if win then Done([7]) else Fail([7])), win, args)
  }

  lemma {:induction false} InsideIsFiring(win: bool, args: Args)
    ensures var d := Inside(win, args);
            && D.Inv(d) && d.state == (if win then Resolved else Rejected)
            && List(d, win).firing && List(d, win).ahead == []
  {
    var a := if win then Done([7]) else Fail([7]);
    var c := D.Step(Create(), a);
    CreateInv();
    StepInv(Create(), a);
    OneInLine(win);
    SettleInv(c, win, args);
    SettleEffect(c, win, args);
  }

  lemma OneInLine(win: bool)
    ensures var c := D.Step(Create(), if win then Done([7]) else Fail([7]));
            c.state == Pending && |List(c, win).ahead| == 4
  {
    var e := Empty(Options(true, true, false, false));
    PushThree(e, BUILTINS);
    assert UserFns([7]) == [User(7)] by { assert [7][1..] == []; }
    AddOne(Add(e, BUILTINS), User(7));
  }

  /** Listening in on a list that is firing its last callback puts the function next in line. */
  lemma {:induction false} NextInLine(d: Deferred, win: bool, id: nat)
    requires D.Inv(d) && d.state == (if win then Resolved else Rejected)
    requires List(d, win).firing && List(d, win).ahead == []
    ensures var r := D.Step(Listened(d, id), Returns(win)); List(r, win).ahead == [] && r.state == d.state
  {
    var q := List(d, win);
    SignedIs(d, true, id);
    var d1 := Signed(d, true, id);
    SignedIs(d1, false, id);
    RegisteringEffect(d.done, User(id));
    RegisteringEffect(d.fail, User(id));
    ProgressMovesOn(Signed(d1, false, id), id) by {
      SignedMovesOn(d, true, id);
      SignedMovesOn(d1, false, id);
    }
    var e := Entry(User(id), q.tickets);
    var r := List(Listened(d, id), win);
    assert r == q.(ahead := [e], tickets := q.tickets + 1);
    NextCall(r);
  }

  lemma {:induction false} BeginWithTwo(d: Deferred, v: Arg)
    requires D.Inv(d)
    ensures Begin([Promise(0), Plain(v)], [d]).pool == [Listened(d, 0)]
  {
    var u := Untouched([Promise(0), Plain(v)], [d]);
    var a := Attach(u);
    var b := Attach(a);
    assert SameCall(Joined(u, 0), a);
    assert AttachAll(u) == AttachAll(a) == AttachAll(b) == b;
  }

  lemma {:induction false} CalledRejects(c: Case, k: nat)
    requires Good(c) && !Single(c.inputs) && k < |c.inputs| && Calls(c, k, false)
    ensures c.master.state == Rejected
  {
    GoodAnswers(c);
  }

  /** With one promise and one plain value the promise decides. */
  lemma {:induction false} OnePromiseDecides(c: Case, win: bool)
    requires Good(c) && |c.inputs| == 2 && c.inputs[0].Promise? && c.inputs[1].Plain?
    requires SettledAt(c, 0, win) && !WaitsAt(c, 0, win)
    ensures c.master.state == if win then Resolved else Rejected
  {
    CallsUnlessWaiting(c, 0, win);
    if win {
      HeardResolves(c);
    } else {
      CalledRejects(c, 0);
    }
  }

  lemma {:induction false} HeardResolves(c: Case)
    requires Good(c) && |c.inputs| == 2 && c.inputs[1].Plain? && Calls(c, 0, true)
    ensures c.master.state == Resolved
  {
    GoodAnswers(c);
    forall k | 0 <= k < |c.inputs| ensures HeardAt(c, k) {
      assert k == 0 || k == 1;
    }
  }

  /** An event of one Deferred of the page leaves the page otherwise as it is. */
  lemma NextPage(c: Case, w: nat, a: D.Action)
    requires Good(c) && w < |c.pool|
    ensures Good(Next(c, On(w, a))) && Next(c, On(w, a)).pool == c.pool[w := D.Step(c.pool[w], a)]
  {
    NextIsGood(c, On(w, a));
  }

  lemma {:induction false} AfterTheCallback(c: Case, win: bool, t: Case)
    requires Good(c) && |c.inputs| == 2 && c.inputs[0] == Promise(0) && c.inputs[1].Plain?
    requires t == Next(c, On(0, Returns(win)))
    requires var r := D.Step(c.pool[0], Returns(win));
             List(r, win).ahead == [] && r.state == if win then Resolved else Rejected
    ensures t.master.state == if win then Resolved else Rejected
  {
    NextPage(c, 0, Returns(win));
    OnePromiseDecides(t, win);
  }

  /** In general: while the only promise's list is firing, the master is pending on return. */
  lemma {:induction false} PendingWhileFiring(d: Deferred, win: bool, v: Arg, c: Case)
    requires D.Inv(d) && d.state == (if win then Resolved else Rejected) && List(d, win).firing
    requires c == Begin([Promise(0), Plain(v)], [d])
    ensures SettledAt(c, 0, win) && c.master.state == Pending
  {
    SettledInside(d, win, v, c);
    NoneReady(d, v);
    NotReadyIsPending([Promise(0), Plain(v)], [d], c, 0);
  }

  lemma NoneReady(d: Deferred, v: Arg)
    requires D.Inv(d) && (d.done.firing || d.state != Resolved) && (d.fail.firing || d.state != Rejected)
    ensures var inputs := [Promise(0), Plain(v)];
            && InRange(inputs, 1) && PoolInOrder([d]) && !ReadyAtCall([d], inputs[0], true)
            && forall j :: 0 <= j < |inputs| ==> !ReadyAtCall([d], inputs[j], false)
  {
  }

  lemma SettledInside(d: Deferred, win: bool, v: Arg, c: Case)
    requires D.Inv(d) && d.state == (if win then Resolved else Rejected)
    requires c == Begin([Promise(0), Plain(v)], [d])
    ensures SettledAt(c, 0, win)
  {
    BeginWithTwo(d, v);
    ListenedEffect(d, 0);
  }

  lemma {:induction false} NotReadyIsPending(inputs: seq<Input>, pool: seq<Deferred>, c: Case, k: nat)
    requires InRange(inputs, |pool|) && PoolInOrder(pool) && !Single(inputs) && c == Begin(inputs, pool)
    requires k < |inputs| && !ReadyAtCall(pool, inputs[k], true)
    requires forall j :: 0 <= j < |inputs| ==> !ReadyAtCall(pool, inputs[j], false)
    ensures c.master.state == Pending
  {
    OnReturn(inputs, pool, c);
  }

  /** `when(d, v)` called from inside a callback of `d`: its only promise is settled and yet the master is
      pending. It is settled when that callback has returned and the next in line has been called. */
  lemma {:induction false} PendingInsideCallback(win: bool, args: Args, v: Arg, c: Case)
    requires c == Begin([Promise(0), Plain(v)], [Inside(win, args)])
    ensures SettledAt(c, 0, win) && c.master.state == Pending
    ensures Next(c, On(0, Returns(win))).master.state == if win then Resolved else Rejected
  {
    var d := Inside(win, args);
    InsideIsFiring(win, args);
    PendingWhileFiring(d, win, v, c);
    SettledAfterwards(d, win, v, c);
  }

  lemma {:induction false} SettledAfterwards(d: Deferred, win: bool, v: Arg, c: Case)
    requires D.Inv(d) && d.state == (if win then Resolved else Rejected)
    requires List(d, win).firing && List(d, win).ahead == [] && c == Begin([Promise(0), Plain(v)], [d])
    ensures Next(c, On(0, Returns(win))).master.state == if win then Resolved else Rejected
  {
    BeginIsGood([Promise(0), Plain(v)], [d]);
    BeginWithTwo(d, v);
    NextInLine(d, win, 0);
    AfterTheCallback(c, win, Next(c, On(0, Returns(win))));
  }
}
