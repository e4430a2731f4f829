/** What each step of the dispatch does to a connection's messages, that a worker gets its work done, and
    that a worker told to quit stops. */
module DispatchProgress {
  import opened Dispatch
  import opened DispatchSafety

  // ---------- what the steps do ----------

  /** A batch handed over is delivered. */
  lemma DeliverDelivers(s: System, c: Conn, msgs: seq<Msg>, d: Conn)
    requires s.workers != [] && Enabled(s, Deliver(c, msgs))
    ensures Delivered(Next(s, Deliver(c, msgs)), d) == Delivered(s, d) + if d == c then msgs else []
    ensures Outstanding(Next(s, Deliver(c, msgs)), d) == Outstanding(s, d) + if d == c then msgs else []
  {
    if d != c {
      assert Delivered(s, d) + [] == Delivered(s, d) && Outstanding(s, d) + [] == Outstanding(s, d);
    }
  }

  /** Only that is. */
  lemma {:induction false} OnlyDeliverDelivers(s: System, a: Action)
    requires s.workers != [] && Enabled(s, a) && !a.Deliver?
    ensures Next(s, a).delivered == s.delivered
  {
    if a.ProcessOne? { ProcessShape(s, a.w, a.outcome); }
  }

  /** An interrupted transfer takes its item out of the queue and is about to be made again. */
  lemma {:induction false} InterruptWithdraws(s: System, c: Conn)
    requires s.workers != [] && Account(s, c) && Enabled(s, Interrupt(c))
    ensures var t := Next(s, Interrupt(c));
            && ProducerOf(t, c) == Calling(ProducerOf(s, c).msgs)
            && (forall i :: i in t.workers[WorkerFor(s, c)].queue ==> i.conn != c)
            && |t.workers[WorkerFor(s, c)].queue| == |s.workers[WorkerFor(s, c)].queue| - 1
  {
    var queue := s.workers[WorkerFor(s, c)].queue;
    var k := FirstOf(queue, c);
    WithdrawDrops(queue, c, k);
  }

  /** One call passes one message on. A refusal drops the rest of its item, and nothing else does; an
      exception ends the worker, and nothing else does. */
  lemma {:induction false} CallDecides(s: System, w: nat, outcome: Outcome)
    requires s.workers != [] && w < |s.workers| && s.workers[w].pc.Processing? && s.workers[w].pc.item.msgs != []
    requires WorkerFor(s, s.workers[w].pc.item.conn) == w
    ensures var item, t := s.workers[w].pc.item, Process(s, w, outcome);
            && t.log == s.log + [Call(w, item.conn, item.msgs[0], map[])]
            && Outstanding(t, item.conn) == Outstanding(s, item.conn)[if outcome.Refused? then |item.msgs| else 1..]
            && t.workers[w].alive == (s.workers[w].alive && !outcome.Throws?)
  {
    var item := s.workers[w].pc.item;
    var rest := Flat(s.workers[w].qis, item.conn) + Carried(ProducerOf(s, item.conn));
    ProcessShape(s, w, outcome);
    CutFront(item.msgs, Flat(s.workers[w].qis, item.conn), Carried(ProducerOf(s, item.conn)));
  }

  lemma CutFront(msgs: seq<Msg>, batch: seq<Msg>, carried: seq<Msg>)
    requires msgs != []
    ensures (msgs + batch + carried)[1..] == msgs[1..] + batch + carried
    ensures (msgs + batch + carried)[|msgs|..] == [] + batch + carried
  {
  }

  /** An item is dropped whole when its connection is found down, and taken up whole otherwise. */
  lemma {:induction false} TakeDecides(s: System, w: nat, connected: bool)
    requires s.workers != [] && w < |s.workers| && s.workers[w].pc.Iterating? && s.workers[w].qis != []
    requires WorkerFor(s, s.workers[w].qis[0].conn) == w
    ensures var item, t := s.workers[w].qis[0], Take(s, w, connected);
            && t.log == s.log && t.workers[w].qis == s.workers[w].qis[1..]
            && Outstanding(s, item.conn) == item.msgs + Waiting(s, w, item.conn)
            && Outstanding(t, item.conn) == (if connected then item.msgs else []) + Waiting(s, w, item.conn)
  {
    var item, t := s.workers[w].qis[0], Take(s, w, connected);
    var rest, carried := Flat(s.workers[w].qis[1..], item.conn), Carried(ProducerOf(s, item.conn));
    TakeSplits(s.workers[w], item.conn);
    assert Held(t.workers[w], item.conn) == (if connected then item.msgs else []) + rest;
    Associate(item.msgs, rest, carried);
    Associate([], rest, carried);
  }

  /** What comes after the first item of the batch. */
  function Waiting(s: System, w: nat, c: Conn): seq<Msg>
    requires w < |s.workers| && s.workers[w].qis != []
  {
    Flat(s.workers[w].qis[1..], c) + Carried(ProducerOf(s, c))
  }

  // ---------- a worker at work ----------

  /** Steps that worker `w` takes by itself when connections are up and calls succeed, and the transfer of
      what the thread of `c` holds. */
  predicate Willing(a: Action, w: nat, c: Conn) {
    match a
    case Enqueue(d) => d == c
    case TestQuit(v) => v == w
    case Poll(v) => v == w
    case DrainOne(v) => v == w
    case DrainDone(v) => v == w
    case TakeItem(v, connected) => v == w && connected
    case ProcessOne(v, outcome) => v == w && outcome.Fine?
    case ItemDone(v) => v == w
    case BatchDone(v) => v == w
    case _ => false
  }

  predicate Working(s: System, w: nat) {
    w < |s.workers| && s.workers[w].alive && !s.workers[w].quit
  }

  /** Waiting for work, with none in the queue. */
  predicate Resting(q: QP) {
    (q.pc.Testing? || q.pc.Polling?) && q.queue == []
  }

  /** What the worker does next. */
  function NextStep(q: QP, w: nat): Action {
    match q.pc
    case Testing => TestQuit(w)
    case Polling => Poll(w)
    case Draining => if q.queue != [] then DrainOne(w) else DrainDone(w)
    case Iterating => if q.qis != [] then TakeItem(w, true) else BatchDone(w)
    case Processing(item) => if item.msgs != [] then ProcessOne(w, Fine(map[])) else ItemDone(w)
  }

  function InItem(q: QP): nat {
    if q.pc.Processing? then 1 + |q.pc.item.msgs| else 0
  }

  function Rank(pc: Pc): nat {
    match pc case Polling => 0 case Testing => 1 case Iterating => 2 case Draining => 3 case Processing(_) => 4
  }

  /** Less is left to do. */
  predicate Less(r: QP, q: QP) {
    || |r.queue| < |q.queue|
    || (|r.queue| == |q.queue| && |r.qis| < |q.qis|)
    || (|r.queue| == |q.queue| && |r.qis| == |q.qis| && InItem(r) < InItem(q))
    || (|r.queue| == |q.queue| && |r.qis| == |q.qis| && InItem(r) == InItem(q) && Rank(r.pc) < Rank(q.pc))
  }

  /** The next step can be taken. */
  lemma {:induction false} StepIsPossible(s: System, w: nat, c: Conn)
    requires s.workers != [] && Working(s, w) && !Resting(s.workers[w])
    ensures var a := NextStep(s.workers[w], w); Enabled(s, a) && Willing(a, w, c) && !Drops(s, a, c)
  {
  }

  /** It leaves less to do. */
  lemma {:induction false} StepLeavesLess(s: System, w: nat)
    requires s.workers != [] && Working(s, w) && !Resting(s.workers[w]) && Enabled(s, NextStep(s.workers[w], w))
    ensures var r := Next(s, NextStep(s.workers[w], w)).workers;
            |r| == |s.workers| && r[w].alive && !r[w].quit && Less(r[w], s.workers[w])
  {
    var a := NextStep(s.workers[w], w);
    if a.ProcessOne? {
      ProcessShape(s, w, a.outcome);
    } else {
      assert Next(s, a).workers == s.workers[w := Afterwards(s.workers[w])];
      AfterwardsLess(s.workers[w]);
    }
  }

  /** The worker after any step of its own but a call. */
  function Afterwards(q: QP): QP {
    match q.pc
    case Testing => q.(qis := [], pc := Polling)
    case Polling => if q.queue != [] then q.(queue := q.queue[1..], qis := q.qis + [q.queue[0]], pc := Draining) else q
    case Draining =>
      if q.queue != [] then q.(queue := q.queue[1..], qis := q.qis + [q.queue[0]], pc := Draining)
      else q.(pc := Iterating)
    case Iterating => if q.qis != [] then q.(qis := q.qis[1..], pc := Processing(q.qis[0])) else q.(pc := Testing)
    case Processing(_) => q.(pc := Iterating)
  }

  lemma AfterwardsLess(q: QP)
    requires !Resting(q) && (q.pc.Processing? ==> q.pc.item.msgs == [])
    ensures Less(Afterwards(q), q)
  {
  }

  /** It hands over nothing new and starts no transfer. */
  lemma {:induction false} StepStartsNothing(s: System, w: nat, c: Conn)
    requires s.workers != [] && Working(s, w) && Enabled(s, NextStep(s.workers[w], w))
    ensures var t := Next(s, NextStep(s.workers[w], w));
            t.delivered == s.delivered && (ProducerOf(t, c).Calling? ==> ProducerOf(s, c).Calling?)
  {
    var a := NextStep(s.workers[w], w);
    OnlyDeliverDelivers(s, a);
    if a.ProcessOne? { ProcessShape(s, w, a.outcome); }
  }

  predicate AllWilling(schedule: seq<Action>, w: nat, c: Conn) {
    forall i :: 0 <= i < |schedule| ==> Willing(schedule[i], w, c)
  }

  lemma {:induction false} WorksOn(s: System, w: nat, c: Conn) returns (schedule: seq<Action>)
    requires Inv(s) && Working(s, w) && w == WorkerFor(s, c) && !ProducerOf(s, c).Calling?
    ensures AllWilling(schedule, w, c) && NeverDrops(s, schedule, c)
    ensures var t := Run(s, schedule);
            |t.workers| == |s.workers| && t.delivered == s.delivered && AtRest(t, c)
    decreases |s.workers[w].queue|, |s.workers[w].qis|, InItem(s.workers[w]), Rank(s.workers[w].pc)
  {
    if Resting(s.workers[w]) {
      schedule := [];
    } else {
      var a := NextStep(s.workers[w], w);
      StepIsPossible(s, w, c);
      StepLeavesLess(s, w);
      StepStartsNothing(s, w, c);
      StepKeeps(s, a);
      var more := WorksOn(Next(s, a), w, c);
      schedule := [a] + more;
      OneThenMore(s, a, more, c);
    }
  }

  lemma OneThenMore(s: System, a: Action, more: seq<Action>, c: Conn)
    requires s.workers != [] && Enabled(s, a) && !Drops(s, a, c)
    requires Next(s, a).workers != [] && NeverDrops(Next(s, a), more, c)
    ensures Run(s, [a] + more) == Run(Next(s, a), more) && NeverDrops(s, [a] + more, c)
  {
    assert ([a] + more)[0] == a && ([a] + more)[1..] == more;
  }

  /** From every state that any schedule leads to: as long as the worker of `c` is alive and has not been
      told to quit, its own steps and the transfer bring everything of `c` to an end. Unless messages were
      dropped before, all that were delivered have then been passed on. */
  lemma {:induction false} WorkGetsDone(n: nat, early: seq<Action>, c: Conn) returns (schedule: seq<Action>)
    requires n > 0 && |Run(Start(n), early).workers| == n && Working(Run(Start(n), early), c % n)
    ensures AllWilling(schedule, c % n, c)
    ensures var s := Run(Start(n), early); var t := Run(s, schedule);
            && t.workers != [] && t.delivered == s.delivered && AtRest(t, c)
            && (NeverDrops(Start(n), early, c) ==> LogOf(t.log, c) == Delivered(s, c))
  {
    StartInv(n);
    RunKeeps(Start(n), early);
    var s := Run(Start(n), early);
    schedule := FinishesFrom(s, c);
    if NeverDrops(Start(n), early, c) {
      RunPasses(Start(n), early, c);
      AllPassedOn(s, schedule, c);
    }
  }

  lemma {:induction false} FinishesFrom(s: System, c: Conn) returns (schedule: seq<Action>)
    requires Inv(s) && Working(s, WorkerFor(s, c))
    ensures AllWilling(schedule, WorkerFor(s, c), c) && NeverDrops(s, schedule, c)
    ensures var t := Run(s, schedule);
            |t.workers| == |s.workers| && t.delivered == s.delivered && AtRest(t, c)
  {
    var w := WorkerFor(s, c);
    if ProducerOf(s, c).Calling? {
      StepKeeps(s, Enqueue(c));
      var more := WorksOn(Next(s, Enqueue(c)), w, c);
      schedule := [Enqueue(c)] + more;
      OneThenMore(s, Enqueue(c), more, c);
    } else {
      schedule := WorksOn(s, w, c);
    }
  }

  lemma {:induction false} AllPassedOn(s: System, schedule: seq<Action>, c: Conn)
    requires Inv(s) && AllPassed(s, c) && NeverDrops(s, schedule, c)
    requires Run(s, schedule).workers != [] && AtRest(Run(s, schedule), c)
    ensures LogOf(Run(s, schedule).log, c) == Delivered(Run(s, schedule), c)
  {
    RunKeeps(s, schedule);
    RunPasses(s, schedule, c);
    var t := Run(s, schedule);
    RestIsEmpty(t, c);
    assert Account(t, c);
    SelectAll(Delivered(t, c), Fates(t, c));
  }

  // ---------- a worker that has stopped ----------

  /** The worker has ended, or is told to quit and at its loop test. */
  predicate Stopped(q: QP) {
    !q.alive || (q.pc.Testing? && q.quit)
  }

  /** Being told to quit is for good, and only `shutdown` tells. */
  lemma {:induction false} QuitTells(s: System, a: Action, w: nat)
    requires s.workers != [] && Enabled(s, a) && w < |s.workers|
    ensures |Next(s, a).workers| == |s.workers|
    ensures Next(s, a).workers[w].quit <==> s.workers[w].quit || a == Shutdown(w)
  {
    WorkersStay(s, a);
    if a.ProcessOne? { ProcessShape(s, a.w, a.outcome); }
  }

  /** A worker told to quit at its loop test has stopped, and one told later stops when it gets there. */
  lemma {:induction false} ShutdownStops(s: System, a: Action, w: nat)
    requires s.workers != [] && Enabled(s, a) && w < |s.workers|
    requires s.workers[w].quit || a == Shutdown(w)
    ensures |Next(s, a).workers| == |s.workers|
    ensures Next(s, a).workers[w].pc.Testing? ==> Stopped(Next(s, a).workers[w])
  {
    QuitTells(s, a, w);
  }

  /** The log has grown, and by no call of worker `w`. */
  ghost predicate NoCallBy(w: nat, before: seq<Call>, after: seq<Call>) {
    before <= after && forall i :: |before| <= i < |after| ==> after[i].worker != w
  }

  lemma NoCallByEither(w: nat, a: seq<Call>, b: seq<Call>, c: seq<Call>)
    requires NoCallBy(w, a, b) && NoCallBy(w, b, c)
    ensures NoCallBy(w, a, c)
  {
    assert forall i :: |a| <= i < |b| ==> c[i] == b[i];
  }

  lemma {:induction false} StoppedStays(s: System, a: Action, w: nat)
    requires s.workers != [] && Enabled(s, a) && w < |s.workers| && Stopped(s.workers[w])
    ensures var t := Next(s, a);
            |t.workers| == |s.workers| && Stopped(t.workers[w]) && NoCallBy(w, s.log, t.log)
  {
    WorkersStay(s, a);
    if a.ProcessOne? { ProcessShape(s, a.w, a.outcome); }
  }

  /** Whatever happens, it makes no call any more. */
  lemma {:induction false} StoppedMakesNoCalls(s: System, schedule: seq<Action>, w: nat)
    requires s.workers != [] && w < |s.workers| && Stopped(s.workers[w])
    ensures NoCallBy(w, s.log, Run(s, schedule).log)
    decreases |schedule|
  {
    if schedule != [] {
      if Enabled(s, schedule[0]) {
        var t := Next(s, schedule[0]);
        StoppedStays(s, schedule[0], w);
        StoppedMakesNoCalls(t, schedule[1..], w);
        NoCallByEither(w, s.log, t.log, Run(t, schedule[1..]).log);
      } else {
        StoppedMakesNoCalls(s, schedule[1..], w);
      }
    }
  }
}
