/** What is true of a call of `when` at all times, and that its callbacks keep it so. */
module WhenAccounts {
  import opened Wrappers
  import opened CallbackQueue
  import opened D = Deferreds
  import opened Listeners
  import opened When

  // ---------- the accounts ----------

  /** How many flags are down. */
  function Missing(flags: seq<bool>): nat {
    if flags == [] then 0 else Missing(flags[..|flags| - 1]) + if flags[|flags| - 1] then 0 else 1
  }

  lemma {:induction false} MissingNone(flags: seq<bool>)
    ensures Missing(flags) == 0 <==> forall k :: 0 <= k < |flags| ==> flags[k]
  {
    if flags != [] {
      MissingNone(flags[..|flags| - 1]);
      assert forall k :: 0 <= k < |flags| - 1 ==> flags[..|flags| - 1][k] == flags[k];
    }
  }

  lemma {:induction false} MissingUpdate(flags: seq<bool>, k: nat)
    requires k < |flags| && !flags[k]
    ensures Missing(flags[k := true]) == Missing(flags) - 1
  {
    var n := |flags| - 1;
    if k == n {
      assert flags[k := true][..n] == flags[..n];
    } else {
      assert flags[k := true][..n] == flags[..n][k := true];
      MissingUpdate(flags[..n], k);
    }
  }

  /** The value an input has to give. */
  function AnswerOf(s: Standing): Arg
    requires s.input.Promise? ==> s.source.Some?
  {
    match s.input
    case Plain(v) => v
    case Promise(_) => One(s.source.value.done.data)
  }

  function Answer(c: Case, k: nat): Arg
    requires Sized(c) && k < |c.inputs|
  {
    AnswerOf(At(c, k))
  }

  /** What is recorded of an input is true. */
  ghost predicate True(s: Standing) {
    && (s.input.Promise? <==> s.source.Some?)
    && (s.heard || s.input.Plain? ==> s.value == AnswerOf(s))
    && (s.input.Plain? ==> !s.lost && s.heard == s.attached)
    && (s.input.Promise? && s.heard ==> CalledBy(s, true))
    && (s.input.Promise? && s.lost ==> CalledBy(s, false))
  }

  /** And all that has happened to it is recorded. */
  ghost predicate WholeTruth(s: Standing) {
    match s.input
    case Plain(_) => s.attached ==> s.heard
    case Promise(_) => (CalledBy(s, true) ==> s.heard) && (CalledBy(s, false) ==> s.lost)
  }

  /** Its registrations were made, on whichever of the lists would take them. */
  ghost predicate Joins(s: Standing) {
    s.attached && s.source.Some? ==>
      Ticketed(s.source.value.done, s.doneTicket) && Ticketed(s.source.value.fail, s.failTicket)
  }

  ghost predicate Sound(c: Case, k: nat)
    requires Sized(c) && k < |c.inputs|
  {
    True(At(c, k))
  }

  ghost predicate Complete(c: Case, k: nat)
    requires Sized(c) && k < |c.inputs|
  {
    WholeTruth(At(c, k))
  }

  ghost predicate Joining(c: Case, k: nat)
    requires Sized(c) && k < |c.inputs|
  {
    Joins(At(c, k))
  }

  /** Input `k` was rejected with what the master was rejected with. */
  ghost predicate RejectedIt(c: Case, k: nat)
    requires Sized(c)
  {
    k < |c.inputs| && c.inputs[k].Promise? && c.lost[k] && c.master.fail.data == c.pool[c.inputs[k].which].fail.data
  }

  /** The count, and what it means for the master. */
  ghost predicate MasterKnows(c: Case)
    requires Sized(c)
  {
    && D.Inv(c.master)
    && c.remaining == Missing(c.heard)
    && (c.master.state == Resolved ==> c.remaining == 0 && c.master.done.data == c.values)
    && (c.master.state == Rejected <==> exists k :: 0 <= k < |c.lost| && c.lost[k])
    && (c.master.state == Rejected ==> exists k :: RejectedIt(c, k))
  }

  ghost predicate PoolInOrder(pool: seq<Deferred>) {
    forall w :: 0 <= w < |pool| ==> D.Inv(pool[w])
  }

  ghost predicate AllSound(c: Case)
    requires Sized(c)
  {
    forall k :: 0 <= k < |c.inputs| ==> Sound(c, k)
  }

  ghost predicate AllJoining(c: Case)
    requires Sized(c)
  {
    forall k :: 0 <= k < |c.inputs| ==> Joining(c, k)
  }

  /** What holds of a case at all times. */
  ghost predicate Honest(c: Case) {
    Sized(c) && PoolInOrder(c.pool) && AllSound(c) && AllJoining(c) && MasterKnows(c)
  }

  /** Nothing that has happened to the first `n` inputs is unrecorded. */
  ghost predicate UpToDate(c: Case, n: nat)
    requires Sized(c) && n <= |c.doneTickets|
  {
    forall k :: 0 <= k < n ==> Complete(c, k)
  }

  /** Once the count is at zero the master is resolved. */
  ghost predicate CountedOut(c: Case) {
    c.remaining == 0 ==> c.master.state == Resolved
  }

  // ---------- the callbacks keep the accounts ----------

  /** From `c` to `r` only input `k` may stand differently. */
  ghost predicate OnlyAt(c: Case, r: Case, k: nat)
    requires Sized(c) && Sized(r)
  {
    |r.inputs| == |c.inputs| && forall j :: 0 <= j < |c.inputs| && j != k ==> At(r, j) == At(c, j)
  }

  lemma {:induction false} OthersStand(c: Case, r: Case, k: nat)
    requires Sized(c) && Sized(r) && AllSound(c) && AllJoining(c) && OnlyAt(c, r, k)
    requires k < |r.inputs| ==> Sound(r, k) && Joining(r, k)
    ensures AllSound(r) && AllJoining(r)
  {
    forall j | 0 <= j < |r.inputs| ensures Sound(r, j) && Joining(r, j) {
      assert Sound(c, j) && Joining(c, j);
    }
  }

  /** The accounts of the inputs do not speak of the master. */
  lemma MasterElsewhere(c: Case, m: Deferred)
    requires Sized(c) && AllSound(c) && AllJoining(c)
    ensures var r := c.(master := m);
            AllSound(r) && AllJoining(r) && forall k :: 0 <= k < |c.doneTickets| && Complete(c, k) ==> Complete(r, k)
  {
    forall k | 0 <= k < |c.inputs| ensures Sound(c.(master := m), k) {
      assert Sound(c, k);
    }
    forall k | 0 <= k < |c.doneTickets| ensures Joining(c.(master := m), k) {
      assert Joining(c, k);
    }
  }

  /** Resolving the master when everything has been heard. */
  lemma {:induction false} MasterResolves(c: Case)
    requires Honest(c) && c.remaining == 0
    ensures var r := c.(master := Settle(c.master, true, c.values)); Honest(r) && CountedOut(r)
  {
    MissingNone(c.heard);
    forall k | 0 <= k < |c.lost| ensures !c.lost[k] {
      NotBoth(c, k);
    }
    SettleInv(c.master, true, c.values);
    if c.master.state == Pending { SettleEffect(c.master, true, c.values); }
    var r := c.(master := Settle(c.master, true, c.values));
    MasterElsewhere(c, r.master);
  }

  /** No input is both heard and lost. */
  lemma NotBoth(c: Case, k: nat)
    requires Sized(c) && k < |c.inputs| && Sound(c, k) && PoolInOrder(c.pool)
    ensures !(c.heard[k] && c.lost[k])
  {
    if c.heard[k] && c.lost[k] && c.inputs[k].Promise? {
      var d := c.pool[c.inputs[k].which];
      HeardMeansSettled(d, true, c.doneTickets[k]);
      HeardMeansSettled(d, false, c.failTickets[k]);
    }
  }

  /** The update function has stored and counted; the master has not been told yet. */
  function Stored(c: Case, k: nat, args: Args): Case
    requires Sized(c) && k < |c.inputs|
  {
    c.(heard := c.heard[k := true], values := c.values[k := One(args)], remaining := c.remaining - 1)
  }

  lemma {:induction false} StoredKeeps(c: Case, k: nat)
    requires Honest(c) && k < |c.doneTickets| && c.inputs[k].Promise? && !c.heard[k] && Calls(c, k, true)
    ensures Honest(Stored(c, k, c.pool[c.inputs[k].which].done.data))
  {
    var args := c.pool[c.inputs[k].which].done.data;
    var r := Stored(c, k, args);
    assert Sound(c, k) && Joining(c, k);
    assert At(r, k) == At(c, k).(heard := true, value := One(args));
    OthersStand(c, r, k);
    StoredMaster(c, k, args);
  }

  lemma {:induction false} StoredMaster(c: Case, k: nat, args: Args)
    requires Sized(c) && k < |c.inputs| && MasterKnows(c) && !c.heard[k]
    ensures MasterKnows(Stored(c, k, args))
  {
    MissingUpdate(c.heard, k);
    MissingNone(c.heard);
    if j :| RejectedIt(c, j) { assert RejectedIt(Stored(c, k, args), j); }
  }

  lemma {:induction false} UpdateKeeps(c: Case, k: nat)
    requires Honest(c) && k < |c.doneTickets| && c.inputs[k].Promise? && !c.heard[k] && Calls(c, k, true)
    ensures var r := Update(c, k, c.pool[c.inputs[k].which].done.data); Honest(r) && CountedOut(r)
  {
    var args := c.pool[c.inputs[k].which].done.data;
    var t := Stored(c, k, args);
    StoredKeeps(c, k);
    if t.remaining == 0 { MasterResolves(t); }
  }

  lemma {:induction false} RejectByKeeps(c: Case, k: nat)
    requires Honest(c) && k < |c.doneTickets| && c.inputs[k].Promise? && !c.lost[k] && Calls(c, k, false)
    ensures var r := RejectBy(c, k, c.pool[c.inputs[k].which].fail.data);
            Honest(r) && (CountedOut(c) ==> CountedOut(r))
  {
    var args := c.pool[c.inputs[k].which].fail.data;
    var r := RejectBy(c, k, args);
    assert Sound(c, k) && Joining(c, k);
    assert At(r, k) == At(c, k).(lost := true);
    OthersStand(c, r, k);
    NotHeard(c, k);
    RejectByMaster(c, k);
  }

  lemma {:induction false} RejectByMaster(c: Case, k: nat)
    requires Sized(c) && k < |c.inputs| && c.inputs[k].Promise? && MasterKnows(c) && !c.heard[k]
    ensures var r := RejectBy(c, k, c.pool[c.inputs[k].which].fail.data); MasterKnows(r) && r.remaining != 0
  {
    var args := c.pool[c.inputs[k].which].fail.data;
    var r := RejectBy(c, k, args);
    MissingNone(c.heard);
    SettleInv(c.master, false, args);
    if c.master.state == Pending {
      SettleEffect(c.master, false, args);
      assert RejectedIt(r, k);
    } else {
      var j :| RejectedIt(c, j);
      assert RejectedIt(r, j);
    }
    assert r.lost[k];
  }

  /** An input whose `reject` is called has not been heard. */
  lemma NotHeard(c: Case, k: nat)
    requires Sized(c) && PoolInOrder(c.pool) && k < |c.doneTickets| && c.inputs[k].Promise?
    requires Sound(c, k) && Calls(c, k, false)
    ensures !c.heard[k] && !Calls(c, k, true)
  {
    var d := c.pool[c.inputs[k].which];
    HeardMeansSettled(d, false, c.failTickets[k]);
    if Calls(c, k, true) { HeardMeansSettled(d, true, c.doneTickets[k]); }
  }

  lemma {:induction false} HearHonestly(c: Case, k: nat)
    requires Honest(c) && k < |c.doneTickets|
    ensures Honest(Hear(c, k)) && (CountedOut(c) ==> CountedOut(Hear(c, k)))
  {
    var t, f := Calls(c, k, true) && !c.heard[k], Calls(c, k, false) && !c.lost[k];
    if c.inputs[k].Promise? && t {
      UpdateKeeps(c, k);
    } else if c.inputs[k].Promise? && f {
      RejectByKeeps(c, k);
    }
  }

  /** Hearing brings input `k` up to date and leaves the others as they are. */
  lemma {:induction false} HearCompletes(c: Case, k: nat, j: nat)
    requires Sized(c) && PoolInOrder(c.pool) && k < |c.doneTickets| && j < |c.doneTickets|
    requires Sound(c, k) && (j != k ==> Complete(c, j))
    ensures Complete(Hear(c, k), j)
  {
    if c.inputs[k].Promise? && Calls(c, k, false) { NotHeard(c, k); }
  }

  lemma {:induction false} HearKeeps(c: Case, k: nat)
    requires Honest(c) && k < |c.doneTickets| && UpToDate(c, k)
    ensures var r := Hear(c, k); Honest(r) && UpToDate(r, k + 1) && (CountedOut(c) ==> CountedOut(r))
  {
    HearHonestly(c, k);
    forall j | 0 <= j < k + 1 ensures Complete(Hear(c, k), j) {
      assert Sound(c, k);
      if j < k { assert Complete(c, j); }
      HearCompletes(c, k, j);
    }
  }

  lemma {:induction false} HearFromKeeps(c: Case, k: nat)
    requires Honest(c) && k <= |c.doneTickets| == |c.inputs| && UpToDate(c, k) && CountedOut(c)
    ensures var r := HearFrom(c, k); Honest(r) && UpToDate(r, |r.inputs|) && CountedOut(r)
    decreases |c.inputs| - k
  {
    if k < |c.inputs| {
      HearKeeps(c, k);
      HearFromKeeps(Hear(c, k), k + 1);
    }
  }
}
