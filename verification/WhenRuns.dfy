/** That nothing done on the page breaks the accounts of `when`, from the call on. */
module WhenRuns {
  import opened Wrappers
  import opened CallbackQueue
  import opened D = Deferreds
  import opened Listeners
  import opened When
  import opened WhenAccounts

  // ---------- the page keeps the accounts ----------

  /** A Deferred of the page moves on: input by input. */
  lemma {:induction false} PoolMovesOne(c: Case, w: nat, d: Deferred, k: nat)
    requires Sized(c) && PoolInOrder(c.pool) && k < |c.inputs| && Sound(c, k)
    requires w < |c.pool| && D.Inv(d) && Onward(c.pool[w], d)
    ensures Sound(c.(pool := c.pool[w := d]), k)
  {
    if c.inputs[k].Promise? && c.heard[k] { CallStays(c, k, true, w, d); }
    if c.inputs[k].Promise? && c.lost[k] { CallStays(c, k, false, w, d); }
  }

  lemma {:induction false} PoolMovesJoined(c: Case, w: nat, d: Deferred, k: nat)
    requires Sized(c) && k < |c.doneTickets| && Joining(c, k) && w < |c.pool| && Onward(c.pool[w], d)
    ensures Joining(c.(pool := c.pool[w := d]), k)
  {
  }

  lemma {:induction false} PoolMovesMaster(c: Case, w: nat, d: Deferred)
    requires Sized(c) && PoolInOrder(c.pool) && AllSound(c) && MasterKnows(c)
    requires w < |c.pool| && D.Inv(d) && Onward(c.pool[w], d)
    ensures MasterKnows(c.(pool := c.pool[w := d]))
  {
    if j :| RejectedIt(c, j) {
      assert Sound(c, j);
      CallStays(c, j, false, w, d);
      assert RejectedIt(c.(pool := c.pool[w := d]), j);
    }
  }

  lemma {:induction false} PoolMoves(c: Case, w: nat, d: Deferred)
    requires Honest(c) && w < |c.pool| && D.Inv(d) && Onward(c.pool[w], d)
    ensures Honest(c.(pool := c.pool[w := d]))
  {
    var r := c.(pool := c.pool[w := d]);
    forall k | 0 <= k < |r.inputs| ensures Sound(r, k) {
      PoolMovesOne(c, w, d, k);
    }
    forall k | 0 <= k < |r.doneTickets| ensures Joining(r, k) {
      PoolMovesJoined(c, w, d, k);
    }
    PoolMovesMaster(c, w, d);
  }

  /** What a list has called it has called for good, with the same arguments. */
  lemma CallStays(c: Case, k: nat, win: bool, w: nat, d: Deferred)
    requires Sized(c) && k < |c.doneTickets| && c.inputs[k].Promise? && Calls(c, k, win)
    requires w < |c.pool| && D.Inv(c.pool[c.inputs[k].which]) && Onward(c.pool[w], d)
    ensures var r := c.(pool := c.pool[w := d]);
            Calls(r, k, win) && List(r.pool[c.inputs[k].which], win).data == List(c.pool[c.inputs[k].which], win).data
  {
    if c.inputs[k].which == w {
      var q, t := List(c.pool[w], win), if win then c.doneTickets[k] else c.failTickets[k];
      HeardMeansSettled(c.pool[w], win, t);
      HeardStays(q, List(d, win), t);
    }
  }

  /** The registrations made, recorded as the next input's. */
  function WithTickets(c: Case, done: nat, fail: nat): Case {
    c.(doneTickets := c.doneTickets + [done], failTickets := c.failTickets + [fail])
  }

  lemma {:induction false} TicketsKeep(c: Case, w: nat, done: nat, fail: nat)
    requires Honest(c) && |c.doneTickets| < |c.inputs| && c.inputs[|c.doneTickets|] == Promise(w)
    requires Ticketed(c.pool[w].done, done) && Ticketed(c.pool[w].fail, fail)
    ensures Honest(WithTickets(c, done, fail))
  {
    var k, r := |c.doneTickets|, WithTickets(c, done, fail);
    assert Sound(c, k);
    assert At(r, k) == At(c, k).(attached := true, doneTicket := done, failTicket := fail);
    OthersStand(c, r, k);
    if j :| RejectedIt(c, j) { assert RejectedIt(r, j); }
  }

  /** The registrations for the next input hear nothing on behalf of the inputs before it. */
  lemma {:induction false} JoinedCompletes(c: Case, w: nat, j: nat)
    requires Sized(c) && w < |c.pool| && D.Inv(c.pool[w]) && |c.doneTickets| < |c.inputs|
    requires j < |c.doneTickets| && Complete(c, j) && Joining(c, j)
    ensures Sized(Joined(c, w)) && Complete(Joined(c, w), j)
  {
    ListenedEffect(c.pool[w], |c.doneTickets|);
    var r := Joined(c, w);
    if c.inputs[j] == Promise(w) {
      assert Calls(r, j, true) == Calls(c, j, true);
      assert Calls(r, j, false) == Calls(c, j, false);
    }
  }

  lemma {:induction false} JoinedKeeps(c: Case, w: nat)
    requires Honest(c) && |c.doneTickets| < |c.inputs| && c.inputs[|c.doneTickets|] == Promise(w)
    requires UpToDate(c, |c.doneTickets|)
    ensures Honest(Joined(c, w)) && UpToDate(Joined(c, w), |c.doneTickets|)
  {
    var d := c.pool[w];
    ListenedEffect(d, |c.doneTickets|);
    PoolMoves(c, w, Listened(d, |c.doneTickets|));
    TicketsKeep(c.(pool := c.pool[w := Listened(d, |c.doneTickets|)]), w, d.done.tickets, d.fail.tickets);
    forall j | 0 <= j < |c.doneTickets| ensures Complete(Joined(c, w), j) {
      assert Complete(c, j) && Joining(c, j);
      JoinedCompletes(c, w, j);
    }
  }

  /** A plain value counts as heard. */
  lemma {:induction false} PlainKeeps(c: Case)
    requires Honest(c) && |c.doneTickets| < |c.inputs| && c.inputs[|c.doneTickets|].Plain?
    requires UpToDate(c, |c.doneTickets|)
    ensures Honest(Attach(c)) && UpToDate(Attach(c), |c.doneTickets| + 1)
  {
    var k, r := |c.doneTickets|, Attach(c);
    PlainMaster(c);
    assert Sound(c, k);
    assert At(r, k) == At(c, k).(attached := true, heard := true);
    OthersStand(c, r, k);
    forall j | 0 <= j < k + 1 ensures Complete(r, j) {
      if j < k { assert Complete(c, j); }
    }
  }

  lemma {:induction false} PlainMaster(c: Case)
    requires Sized(c) && AllSound(c) && MasterKnows(c)
    requires |c.doneTickets| < |c.inputs| && c.inputs[|c.doneTickets|].Plain?
    ensures MasterKnows(Attach(c))
  {
    var k := |c.doneTickets|;
    assert Sound(c, k);
    MissingUpdate(c.heard, k);
    MissingNone(c.heard);
    if j :| RejectedIt(c, j) { assert RejectedIt(Attach(c), j); }
  }

  lemma {:induction false} AttachKeeps(c: Case)
    requires Honest(c) && |c.doneTickets| < |c.inputs| && UpToDate(c, |c.doneTickets|)
    ensures Honest(Attach(c)) && UpToDate(Attach(c), |c.doneTickets| + 1)
  {
    match c.inputs[|c.doneTickets|]
    case Plain(_) => PlainKeeps(c);
    case Promise(w) =>
      JoinedKeeps(c, w);
      HearKeeps(Joined(c, w), |c.doneTickets|);
  }

  lemma {:induction false} AttachAllKeeps(c: Case)
    requires Honest(c) && UpToDate(c, |c.doneTickets|)
    ensures var r := AttachAll(c); Honest(r) && |r.doneTickets| == |r.inputs| && UpToDate(r, |r.inputs|)
    decreases |c.inputs| - |c.doneTickets|
  {
    if |c.doneTickets| < |c.inputs| {
      AttachKeeps(c);
      AttachAllKeeps(Attach(c));
    }
  }

  lemma {:induction false} UntouchedIsHonest(inputs: seq<Input>, pool: seq<Deferred>)
    requires InRange(inputs, |pool|) && PoolInOrder(pool)
    ensures Honest(Untouched(inputs, pool))
  {
    var c := Untouched(inputs, pool);
    CreateInv();
    AllMissing(|inputs|);
    forall k | 0 <= k < |inputs| ensures Sound(c, k) {
    }
  }

  lemma {:induction false} AllMissing(n: nat)
    ensures Missing(NoneYet(n)) == n
  {
    if n > 0 {
      AllMissing(n - 1);
      assert NoneYet(n)[..n - 1] == NoneYet(n - 1);
    }
  }

  /** What holds between events once `when` has returned. */
  ghost predicate Good(c: Case) {
    && Honest(c) && Returned(c)
    && (!Single(c.inputs) ==> UpToDate(c, |c.inputs|) && CountedOut(c))
  }

  lemma {:induction false} BeginIsGood(inputs: seq<Input>, pool: seq<Deferred>)
    requires InRange(inputs, |pool|) && PoolInOrder(pool)
    ensures Good(Begin(inputs, pool))
  {
    UntouchedIsHonest(inputs, pool);
    if !Single(inputs) {
      AttachAllKeeps(Untouched(inputs, pool));
      var c := AttachAll(Untouched(inputs, pool));
      if c.remaining == 0 { MasterResolvesKeeps(c); }
    }
  }

  lemma {:induction false} MasterResolvesKeeps(c: Case)
    requires Honest(c) && |c.doneTickets| == |c.inputs| && UpToDate(c, |c.inputs|) && c.remaining == 0
    ensures var r := c.(master := Settle(c.master, true, c.values));
            Honest(r) && UpToDate(r, |r.inputs|) && CountedOut(r)
  {
    var r := c.(master := Settle(c.master, true, c.values));
    MasterResolves(c);
    forall k | 0 <= k < |r.inputs| ensures Complete(r, k) {
      assert Complete(c, k);
    }
  }

  lemma {:induction false} NextIsGood(c: Case, e: Event)
    requires Good(c)
    ensures Good(Next(c, e))
  {
    match e
    case On(w, a) =>
      if w < |c.pool| {
        StepMovesOn(c.pool[w], a);
        PoolMoves(c, w, D.Step(c.pool[w], a));
        if !Single(c.inputs) { HearFromKeeps(c.(pool := c.pool[w := D.Step(c.pool[w], a)]), 0); }
      }
    case OnMaster(a) =>
      if !Single(c.inputs) && !a.Resolve? && !a.Reject? { MasterMoves(c, a); }
  }

  /** What is done with the master's promise changes neither its state nor what it was settled with. */
  lemma {:induction false} MasterMoves(c: Case, a: D.Action)
    requires Good(c) && !Single(c.inputs) && !a.Resolve? && !a.Reject?
    ensures Good(c.(master := D.Step(c.master, a)))
  {
    var r := c.(master := D.Step(c.master, a));
    StepInv(c.master, a);
    assert r.master.state == c.master.state;
    MasterElsewhere(c, r.master);
    if j :| RejectedIt(c, j) { assert RejectedIt(r, j); }
  }

  lemma {:induction false} FollowIsGood(c: Case, events: seq<Event>)
    requires Good(c)
    ensures Good(Follow(c, events))
    decreases |events|
  {
    if events != [] {
      NextIsGood(c, events[0]);
      FollowIsGood(Next(c, events[0]), events[1..]);
    }
  }
}
