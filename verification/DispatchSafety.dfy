/** Safety of the dispatch protocol over every schedule. */
module DispatchSafety {
  import opened Dispatch

  // ---------- sequences ----------

  lemma {:induction false} FlatAppend(items: seq<QI>, item: QI, c: Conn)
    ensures Flat(items + [item], c) == Flat(items, c) + if item.conn == c then item.msgs else []
  {
    if items == [] {
      assert items + [item] == [item];
      assert [item][1..] == [];
      assert Flat([item], c) == (if item.conn == c then item.msgs else []) + [];
    } else {
      var head := if items[0].conn == c then items[0].msgs else [];
      assert (items + [item])[1..] == items[1..] + [item];
      FlatAppend(items[1..], item, c);
      Associate(head, Flat(items[1..], c), if item.conn == c then item.msgs else []);
    }
  }

  lemma Associate<T>(a: seq<T>, b: seq<T>, c: seq<T>)
    ensures a + (b + c) == a + b + c
  {
  }

  lemma LogAppend(log: seq<Call>, k: Call, c: Conn)
    ensures LogOf(log + [k], c) == LogOf(log, c) + if k.conn == c then [k.msg] else []
  {
    assert (log + [k])[..|log|] == log;
  }

  lemma {:induction false} SelectMore(ms: seq<Msg>, more: seq<Msg>, fates: seq<bool>)
    requires |fates| <= |ms|
    ensures Select(ms + more, fates) == Select(ms, fates)
    decreases |fates|
  {
    if fates != [] {
      SelectMore(ms, more, fates[..|fates| - 1]);
    }
  }

  lemma SelectOne(ms: seq<Msg>, fates: seq<bool>, b: bool)
    requires |fates| < |ms|
    ensures Select(ms, fates + [b]) == Select(ms, fates) + if b then [ms[|fates|]] else []
  {
    assert (fates + [b])[..|fates|] == fates;
  }

  lemma {:induction false} SelectNone(ms: seq<Msg>, fates: seq<bool>, count: nat)
    requires |fates| + count <= |ms|
    ensures Select(ms, fates + Repeat(false, count)) == Select(ms, fates)
  {
    if count == 0 {
      assert fates + Repeat(false, count) == fates;
    } else {
      SelectNone(ms, fates, count - 1);
      assert fates + Repeat(false, count) == fates + Repeat(false, count - 1) + [false];
      SelectOne(ms, fates + Repeat(false, count - 1), false);
    }
  }

  lemma {:induction false} WithdrawDrops(queue: seq<QI>, c: Conn, k: nat)
    requires k < |queue| && queue[k].conn == c
    requires forall i :: 0 <= i < k ==> queue[i].conn != c
    ensures Withdraw(queue, c) == queue[..k] + queue[k + 1..]
  {
    if k > 0 {
      WithdrawDrops(queue[1..], c, k - 1);
      assert queue[..k] == [queue[0]] + queue[1..][..k - 1];
    }
  }

  // ---------- one connection at a time ----------

  lemma {:induction false} BalancedDeliver(l: Slice, c: Conn, msgs: seq<Msg>)
    requires Balanced(l, c) && l.producer.Idle?
    ensures Balanced(l.(delivered := l.delivered + msgs, producer := Calling(msgs)), c)
  {
    SelectMore(l.delivered, msgs, l.fates);
    assert (l.delivered + msgs)[|l.fates|..] == l.delivered[|l.fates|..] + msgs;
  }

  lemma {:induction false} BalancedEnqueue(l: Slice, c: Conn)
    requires Balanced(l, c) && l.producer.Calling?
    ensures Balanced(l.(producer := Waiting(l.producer.msgs), queue := l.queue + [QI(c, l.producer.msgs)]), c)
  {
    assert (l.queue + [QI(c, l.producer.msgs)])[|l.queue|] == QI(c, l.producer.msgs);
  }

  /** Items of other connections come and go. */
  lemma {:induction false} BalancedAppend(l: Slice, c: Conn, item: QI)
    requires Balanced(l, c) && item.conn != c
    ensures Balanced(l.(queue := l.queue + [item]), c)
  {
    if l.producer.Waiting? {
      var i :| 0 <= i < |l.queue| && l.queue[i].conn == c;
      assert (l.queue + [item])[i] == l.queue[i];
    }
  }

  lemma {:induction false} BalancedDrop(l: Slice, c: Conn, k: nat)
    requires Balanced(l, c) && k < |l.queue| && l.queue[k].conn != c
    ensures Balanced(l.(queue := l.queue[..k] + l.queue[k + 1..]), c)
  {
    var r := l.queue[..k] + l.queue[k + 1..];
    if l.producer.Waiting? {
      var i :| 0 <= i < |l.queue| && l.queue[i].conn == c;
      assert r[if i < k then i else i - 1] == l.queue[i];
    }
  }

  lemma {:induction false} BalancedWithdraw(l: Slice, c: Conn, k: nat)
    requires Balanced(l, c) && k < |l.queue| && l.queue[k].conn == c
    ensures l.producer.Waiting?
    ensures Balanced(l.(producer := Calling(l.producer.msgs), queue := l.queue[..k] + l.queue[k + 1..]), c)
  {
    var r := l.queue[..k] + l.queue[k + 1..];
    assert forall i :: 0 <= i < |r| ==> r[i].conn != c;
  }

  lemma {:induction false} BalancedTransfer(l: Slice, c: Conn)
    requires Balanced(l, c) && l.queue != [] && l.queue[0].conn == c
    ensures Balanced(l.(producer := Idle, queue := l.queue[1..], held := l.held + l.queue[0].msgs), c)
  {
    var r := l.queue[1..];
    assert forall i :: 0 <= i < |r| ==> r[i] == l.queue[i + 1];
    assert l.producer == Waiting(l.queue[0].msgs);
    assert l.held + l.queue[0].msgs + [] == l.held + l.queue[0].msgs;
  }

  /** The first `fates` of what is held are decided, and those of them passed on are logged. */
  lemma {:induction false} BalancedDecide(l: Slice, c: Conn, fates: seq<bool>)
    requires Balanced(l, c) && |fates| <= |l.held|
    ensures var logged := l.logged + Select(l.held, fates);
            Balanced(l.(fates := l.fates + fates, logged := logged, held := l.held[|fates|..]), c)
  {
    var k, n, carried := |l.fates|, |fates|, Carried(l.producer);
    assert l.delivered[k + n..] == l.delivered[k..][n..] == l.held[n..] + carried;
    SelectSplit(l.delivered, l.fates, l.held + carried, fates);
    SelectMore(l.held, carried, fates);
  }

  lemma {:induction false} SelectSplit(ms: seq<Msg>, fates: seq<bool>, tail: seq<Msg>, more: seq<bool>)
    requires |fates| <= |ms| && tail == ms[|fates|..] && |more| <= |tail|
    ensures Select(ms, fates + more) == Select(ms, fates) + Select(tail, more)
    decreases |more|
  {
    if more == [] {
      assert fates + more == fates;
    } else {
      var init, last := more[..|more| - 1], more[|more| - 1];
      SelectSplit(ms, fates, tail, init);
      assert fates + more == (fates + init) + [last];
      SelectOne(ms, fates + init, last);
      assert tail[|init|] == ms[|fates + init|];
    }
  }

  // ---------- the steps ----------

  lemma {:induction false} DeliverKeeps(s: System, d: Conn, msgs: seq<Msg>, c: Conn)
    requires s.workers != [] && Account(s, c) && Enabled(s, Deliver(d, msgs))
    ensures Account(Next(s, Deliver(d, msgs)), c)
  {
    var l, t := SliceOf(s, c), Next(s, Deliver(d, msgs));
    if c == d {
      BalancedDeliver(l, c, msgs);
      assert SliceOf(t, c) == l.(delivered := l.delivered + msgs, producer := Calling(msgs));
    } else {
      assert SliceOf(t, c) == l;
    }
  }

  lemma {:induction false} EnqueueKeeps(s: System, d: Conn, c: Conn)
    requires s.workers != [] && Account(s, c) && Enabled(s, Enqueue(d))
    ensures Account(Next(s, Enqueue(d)), c)
  {
    var l, t := SliceOf(s, c), Next(s, Enqueue(d));
    var item := QI(d, ProducerOf(s, d).msgs);
    if c == d {
      BalancedEnqueue(l, c);
      assert SliceOf(t, c) == l.(producer := Waiting(l.producer.msgs), queue := l.queue + [item]);
    } else if WorkerFor(s, c) == WorkerFor(s, d) {
      BalancedAppend(l, c, item);
      assert SliceOf(t, c) == l.(queue := l.queue + [item]);
    } else {
      assert SliceOf(t, c) == l;
    }
  }

  lemma {:induction false} InterruptKeeps(s: System, d: Conn, c: Conn)
    requires s.workers != [] && Account(s, c) && Account(s, d) && Enabled(s, Interrupt(d))
    ensures Account(Next(s, Interrupt(d)), c)
  {
    var l, t, queue := SliceOf(s, c), Next(s, Interrupt(d)), SliceOf(s, d).queue;
    var k := FirstOf(queue, d);
    WithdrawDrops(queue, d, k);
    if c == d {
      BalancedWithdraw(l, c, k);
      assert SliceOf(t, c) == l.(producer := Calling(l.producer.msgs), queue := Withdraw(queue, d));
    } else if WorkerFor(s, c) == WorkerFor(s, d) {
      BalancedDrop(l, c, k);
      assert SliceOf(t, c) == l.(queue := Withdraw(queue, d));
    } else {
      assert SliceOf(t, c) == l;
    }
  }

  lemma {:induction false} FirstOf(queue: seq<QI>, c: Conn) returns (k: nat)
    requires exists i :: 0 <= i < |queue| && queue[i].conn == c
    ensures k < |queue| && queue[k].conn == c && forall i :: 0 <= i < k ==> queue[i].conn != c
  {
    k := 0;
    while queue[k].conn != c
      invariant k < |queue| && forall i :: 0 <= i < k ==> queue[i].conn != c
      decreases |queue| - k
    {
      k := k + 1;
    }
  }

  /** The head's own connection. */
  lemma {:induction false} HeadMine(s: System, w: nat, c: Conn)
    requires s.workers != [] && w < |s.workers| && s.workers[w].queue != [] && !s.workers[w].pc.Processing?
    requires WorkerFor(s, c) == w && s.workers[w].queue[0].conn == c
    ensures var l := SliceOf(s, c);
            SliceOf(TakeHead(s, w), c) == l.(producer := Idle, queue := l.queue[1..], held := l.held + l.queue[0].msgs)
  {
    FlatAppend(s.workers[w].qis, s.workers[w].queue[0], c);
    assert [] + Flat(s.workers[w].qis, c) == Flat(s.workers[w].qis, c);
  }

  /** Another connection of the same worker. */
  lemma {:induction false} HeadPasses(s: System, w: nat, c: Conn)
    requires s.workers != [] && w < |s.workers| && s.workers[w].queue != [] && !s.workers[w].pc.Processing?
    requires WorkerFor(s, c) == w && s.workers[w].queue[0].conn != c
    ensures var l := SliceOf(s, c); SliceOf(TakeHead(s, w), c) == l.(queue := l.queue[..0] + l.queue[1..])
  {
    var q := s.workers[w];
    FlatAppend(q.qis, q.queue[0], c);
    assert Flat(q.qis, c) + [] == Flat(q.qis, c);
    assert q.queue[..0] + q.queue[1..] == q.queue[1..];
  }

  /** A connection of another worker. */
  lemma {:induction false} HeadElsewhere(s: System, w: nat, c: Conn)
    requires s.workers != [] && w < |s.workers| && s.workers[w].queue != []
    requires WorkerFor(s, c) != w && s.workers[w].queue[0].conn != c
    ensures SliceOf(TakeHead(s, w), c) == SliceOf(s, c)
  {
  }

  lemma {:induction false} TakeHeadKeeps(s: System, w: nat, c: Conn)
    requires s.workers != [] && w < |s.workers| && s.workers[w].queue != []
    requires OwnWork(s.workers[w], w, |s.workers|) && Account(s, c) && !s.workers[w].pc.Processing?
    ensures Account(TakeHead(s, w), c)
  {
    HeadIsOwn(s, w);
    if c == s.workers[w].queue[0].conn {
      BalancedTransfer(SliceOf(s, c), c);
      HeadMine(s, w, c);
    } else if WorkerFor(s, c) == w {
      BalancedDrop(SliceOf(s, c), c, 0);
      HeadPasses(s, w, c);
    } else {
      HeadElsewhere(s, w, c);
    }
  }

  lemma HeadIsOwn(s: System, w: nat)
    requires s.workers != [] && w < |s.workers| && s.workers[w].queue != []
    requires OwnWork(s.workers[w], w, |s.workers|)
    ensures WorkerFor(s, s.workers[w].queue[0].conn) == w
  {
    assert s.workers[w].queue[0] in s.workers[w].queue;
  }

  /** Worker `w` moves on: for connection `c` the first `fates` of what it held are decided, and `log` has
      grown by the messages among them that were passed on. */
  lemma {:induction false} WorkerMoves(s: System, t: System, w: nat, c: Conn, fates: seq<bool>)
    requires s.workers != [] && w < |s.workers| == |t.workers| && Account(s, c)
    requires t.workers == s.workers[w := t.workers[w]] && t.workers[w].queue == s.workers[w].queue
    requires t.delivered == s.delivered && t.producers == s.producers
    requires Fates(t, c) == Fates(s, c) + fates && (WorkerFor(s, c) != w ==> fates == [])
    requires var had := Held(s.workers[w], c);
             |fates| <= |had| && had[|fates|..] == Held(t.workers[w], c)
             && LogOf(t.log, c) == LogOf(s.log, c) + Select(had, fates)
    ensures Account(t, c)
  {
    var l := SliceOf(s, c);
    if WorkerFor(s, c) == w {
      BalancedDecide(l, c, fates);
      assert SliceOf(t, c) ==
             l.(fates := l.fates + fates, logged := l.logged + Select(l.held, fates), held := l.held[|fates|..]);
    } else {
      assert Fates(t, c) == Fates(s, c) && LogOf(t.log, c) == LogOf(s.log, c);
      assert SliceOf(t, c) == l;
    }
  }

  lemma TakeSplits(q: QP, c: Conn)
    requires q.qis != [] && q.pc.Iterating?
    ensures Held(q, c) == (if q.qis[0].conn == c then q.qis[0].msgs else []) + Flat(q.qis[1..], c)
  {
  }

  lemma SkipDecides(had: seq<Msg>, msgs: seq<Msg>, rest: seq<Msg>)
    requires had == msgs + rest
    ensures had[|msgs|..] == rest == [] + rest && Select(had, Repeat(false, |msgs|)) == []
  {
    SelectNone(had, [], |msgs|);
    assert [] + Repeat(false, |msgs|) == Repeat(false, |msgs|);
  }

  lemma {:induction false} SkipKeeps(s: System, w: nat, c: Conn)
    requires s.workers != [] && w < |s.workers| && s.workers[w].qis != [] && s.workers[w].pc.Iterating?
    requires WorkerFor(s, c) == w && s.workers[w].qis[0].conn == c && Account(s, c)
    ensures Account(Take(s, w, false), c)
  {
    var q, msgs := s.workers[w], s.workers[w].qis[0].msgs;
    TakeSplits(q, c);
    SkipDecides(Held(q, c), msgs, Flat(q.qis[1..], c));
    assert LogOf(s.log, c) + [] == LogOf(s.log, c);
    WorkerMoves(s, Take(s, w, false), w, c, Repeat(false, |msgs|));
  }

  /** The item is taken up, or it is skipped and belongs to another connection. */
  lemma {:induction false} TakeUpKeeps(s: System, w: nat, connected: bool, c: Conn)
    requires s.workers != [] && w < |s.workers| && s.workers[w].qis != [] && s.workers[w].pc.Iterating?
    requires connected || s.workers[w].qis[0].conn != c
    requires Account(s, c)
    ensures Account(Take(s, w, connected), c)
  {
    var t := Take(s, w, connected);
    TakeSplits(s.workers[w], c);
    assert [] + Flat(s.workers[w].qis[1..], c) == Flat(s.workers[w].qis[1..], c);
    assert Held(t.workers[w], c) == Held(s.workers[w], c);
    assert Fates(s, c) + [] == Fates(s, c) == Fates(t, c);
    assert LogOf(s.log, c) + [] == LogOf(s.log, c);
    WorkerMoves(s, t, w, c, []);
  }

  lemma {:induction false} TakeKeeps(s: System, w: nat, connected: bool, c: Conn)
    requires s.workers != [] && w < |s.workers| && s.workers[w].qis != [] && s.workers[w].pc.Iterating?
    requires OwnWork(s.workers[w], w, |s.workers|) && Account(s, c)
    ensures Account(Take(s, w, connected), c)
  {
    if !connected && s.workers[w].qis[0].conn == c {
      assert s.workers[w].qis[0] in s.workers[w].qis;
      SkipKeeps(s, w, c);
    } else {
      TakeUpKeeps(s, w, connected, c);
    }
  }

  /** The fates that one call of the protocol decides. */
  function Verdict(msgs: seq<Msg>, outcome: Outcome): seq<bool>
    requires msgs != []
  {
    if outcome.Refused? then [true] + Repeat(false, |msgs[1..]|) else [true]
  }

  lemma DropPrefix<T>(a: seq<T>, b: seq<T>)
    ensures (a + b)[|a|..] == b == [] + b
  {
  }

  lemma DropHead(msgs: seq<Msg>, batch: seq<Msg>)
    requires msgs != []
    ensures (msgs + batch)[1..] == msgs[1..] + batch
  {
  }

  lemma SelectHead(had: seq<Msg>)
    requires had != []
    ensures Select(had, [true]) == [had[0]]
  {
    SelectOne(had, [], true);
    assert [] + [true] == [true];
  }

  lemma {:induction false} VerdictSelects(msgs: seq<Msg>, batch: seq<Msg>, outcome: Outcome)
    requires msgs != []
    ensures var had, fates := msgs + batch, Verdict(msgs, outcome);
            |fates| <= |had| && Select(had, fates) == [msgs[0]]
            && had[|fates|..] == (if outcome.Refused? then [] else msgs[1..]) + batch
  {
    SelectHead(msgs + batch);
    if outcome.Refused? {
      SelectNone(msgs + batch, [true], |msgs| - 1);
      DropPrefix(msgs, batch);
    } else {
      DropHead(msgs, batch);
    }
  }

  lemma ProcessShape(s: System, w: nat, outcome: Outcome)
    requires w < |s.workers| && s.workers[w].pc.Processing? && s.workers[w].pc.item.msgs != []
    ensures var t := Process(s, w, outcome);
            var q, r, d, msgs := s.workers[w], t.workers[w], s.workers[w].pc.item.conn, s.workers[w].pc.item.msgs;
            && t.workers == s.workers[w := r] && r.queue == q.queue && r.qis == q.qis
            && t.delivered == s.delivered && t.producers == s.producers
            && t.fates == s.fates[d := Fates(s, d) + Verdict(msgs, outcome)]
            && t.log == s.log + [Call(w, d, msgs[0], map[])]
            && r.pc == if outcome.Refused? then Iterating else Processing(QI(d, msgs[1..]))
  {
  }

  lemma {:induction false} ProcessKeeps(s: System, w: nat, outcome: Outcome, c: Conn)
    requires s.workers != [] && w < |s.workers| && s.workers[w].pc.Processing? && s.workers[w].pc.item.msgs != []
    requires OwnWork(s.workers[w], w, |s.workers|) && Account(s, c)
    ensures Account(Process(s, w, outcome), c)
  {
    var d, msgs := s.workers[w].pc.item.conn, s.workers[w].pc.item.msgs;
    var t := Process(s, w, outcome);
    var batch := Flat(s.workers[w].qis, c);
    ProcessShape(s, w, outcome);
    LogAppend(s.log, Call(w, d, msgs[0], map[]), c);
    assert WorkerFor(s, d) == w;
    if c == d {
      VerdictSelects(msgs, batch, outcome);
      WorkerMoves(s, t, w, c, Verdict(msgs, outcome));
    } else {
      assert InHand(s.workers[w], c) == [] == InHand(t.workers[w], c);
      assert Fates(s, c) + [] == Fates(s, c) == Fates(t, c);
      WorkerMoves(s, t, w, c, []);
    }
  }

  // ---------- every schedule ----------

  /** A step of a worker that only moves it on. */
  lemma {:induction false} MoveKeeps(s: System, w: nat, q: QP, c: Conn)
    requires s.workers != [] && w < |s.workers| && Account(s, c)
    requires q.queue == s.workers[w].queue && q.qis == s.workers[w].qis && InHand(q, c) == InHand(s.workers[w], c)
    ensures Account(SetWorker(s, w, q), c)
  {
    assert Fates(s, c) + [] == Fates(s, c);
    WorkerMoves(s, SetWorker(s, w, q), w, c, []);
  }

  lemma {:induction false} AccountKeeps(s: System, a: Action, c: Conn)
    requires Inv(s) && Enabled(s, a)
    ensures Account(Next(s, a), c)
  {
    assert Account(s, c);
    match a
    case Deliver(d, msgs) => DeliverKeeps(s, d, msgs, c);
    case Enqueue(d) => assert Account(s, d); EnqueueKeeps(s, d, c);
    case Interrupt(d) => assert Account(s, d); InterruptKeeps(s, d, c);
    case _ =>
      assert OwnWork(s.workers[a.w], a.w, |s.workers|);
      WorkerStepKeeps(s, a, c);
  }

  lemma {:induction false} WorkerStepKeeps(s: System, a: Action, c: Conn)
    requires s.workers != [] && Account(s, c)
    requires Enabled(s, a) && !a.Deliver? && !a.Enqueue? && !a.Interrupt?
    requires OwnWork(s.workers[a.w], a.w, |s.workers|)
    ensures Account(Next(s, a), c)
  {
    match a
    case Poll(w) => TakeHeadKeeps(s, w, c);
    case DrainOne(w) => TakeHeadKeeps(s, w, c);
    case TakeItem(w, connected) => TakeKeeps(s, w, connected, c);
    case ProcessOne(w, outcome) => ProcessKeeps(s, w, outcome, c);
    case _ => IdleStepKeeps(s, a, c);
  }

  /** A step of a worker that takes up and passes on nothing. */
  predicate MovesOnly(a: Action) {
    a.TestQuit? || a.PollFails? || a.DrainDone? || a.ItemDone? || a.BatchDone? || a.Shutdown?
  }

  lemma {:induction false} IdleStepKeeps(s: System, a: Action, c: Conn)
    requires s.workers != [] && Account(s, c)
    requires MovesOnly(a) && Enabled(s, a) && OwnWork(s.workers[a.w], a.w, |s.workers|)
    ensures Account(Next(s, a), c)
  {
    var q := s.workers[a.w];
    match a
    case TestQuit(w) => MoveKeeps(s, w, q.(qis := [], pc := Polling), c);
    case PollFails(w) => MoveKeeps(s, w, q.(pc := Testing), c);
    case DrainDone(w) => MoveKeeps(s, w, q.(pc := Iterating), c);
    case ItemDone(w) => MoveKeeps(s, w, q.(pc := Iterating), c);
    case BatchDone(w) => MoveKeeps(s, w, q.(pc := Testing), c);
    case Shutdown(w) => MoveKeeps(s, w, q.(quit := true), c);
  }

  lemma WithdrawSubset(queue: seq<QI>, c: Conn)
    ensures forall i :: i in Withdraw(queue, c) ==> i in queue
  {
  }

  /** Part of a worker's work is its own work. */
  lemma PartOfWork(q: QP, r: QP, w: nat, n: nat)
    requires n > 0 && OwnWork(q, w, n)
    requires forall i :: i in r.queue ==> i in q.queue
    requires forall i :: i in r.qis ==> i in q.qis || i in q.queue
    requires r.pc.Processing? ==> (q.pc.Processing? && q.pc.item.conn == r.pc.item.conn) || r.pc.item in q.qis
    requires r.pc.Testing? || r.pc.Polling? ==> r.qis == []
    ensures OwnWork(r, w, n)
  {
  }

  lemma {:induction false} OwnWorkKeeps(s: System, a: Action, w: nat)
    requires Inv(s) && Enabled(s, a) && w < |s.workers|
    ensures OwnWork(Next(s, a).workers[w], w, |s.workers|)
  {
    var q, r := s.workers[w], Next(s, a).workers[w];
    assert OwnWork(q, w, |s.workers|);
    if a.Enqueue? {
      if WorkerFor(s, a.conn) == w {
        assert r == q.(queue := q.queue + [QI(a.conn, ProducerOf(s, a.conn).msgs)]);
      }
    } else if a.Interrupt? {
      WithdrawSubset(q.queue, a.conn);
      assert r == q || r == q.(queue := Withdraw(q.queue, a.conn));
      PartOfWork(q, r, w, |s.workers|);
    } else if a.Deliver? || a.w != w {
      assert r == q;
    } else {
      WorkerStepOwn(s, a);
    }
  }

  lemma {:induction false} WorkerStepOwn(s: System, a: Action)
    requires Inv(s) && Enabled(s, a) && !a.Deliver? && !a.Enqueue? && !a.Interrupt?
    ensures OwnWork(Next(s, a).workers[a.w], a.w, |s.workers|)
  {
    var q, n := s.workers[a.w], |s.workers|;
    assert OwnWork(q, a.w, n);
    match a
    case Poll(w) =>
      PartOfWork(q, q.(queue := q.queue[1..], qis := q.qis + [q.queue[0]], pc := Draining), w, n);
    case DrainOne(w) =>
      PartOfWork(q, q.(queue := q.queue[1..], qis := q.qis + [q.queue[0]], pc := Draining), w, n);
    case TakeItem(w, connected) =>
      PartOfWork(q, q.(qis := q.qis[1..], pc := if connected then Processing(q.qis[0]) else q.pc), w, n);
    case ProcessOne(w, outcome) =>
      ProcessShape(s, w, outcome);
    case _ =>
  }

  /** Who makes calls, and with which context. */
  lemma {:induction false} CleanLogKeeps(s: System, a: Action)
    requires Inv(s) && Enabled(s, a)
    ensures CleanLog(Next(s, a).log, |s.workers|)
  {
    if a.ProcessOne? {
      assert OwnWork(s.workers[a.w], a.w, |s.workers|);
      ProcessShape(s, a.w, a.outcome);
    } else {
      assert Next(s, a).log == s.log;
    }
  }

  lemma WorkersStay(s: System, a: Action)
    requires s.workers != [] && Enabled(s, a)
    ensures |Next(s, a).workers| == |s.workers|
  {
  }

  lemma {:induction false} AllOwnWorkKeeps(s: System, a: Action)
    requires Inv(s) && Enabled(s, a)
    ensures AllOwnWork(Next(s, a))
  {
    WorkersStay(s, a);
    forall w | 0 <= w < |s.workers| ensures OwnWork(Next(s, a).workers[w], w, |s.workers|) {
      OwnWorkKeeps(s, a, w);
    }
  }

  lemma {:induction false} StepKeeps(s: System, a: Action)
    requires Inv(s) && Enabled(s, a)
    ensures Inv(Next(s, a)) && |Next(s, a).workers| == |s.workers|
  {
    WorkersStay(s, a);
    CleanLogKeeps(s, a);
    AllOwnWorkKeeps(s, a);
    forall c ensures Account(Next(s, a), c) {
      AccountKeeps(s, a, c);
    }
  }

  lemma {:induction false} RunKeeps(s: System, schedule: seq<Action>)
    requires Inv(s)
    ensures Inv(Run(s, schedule)) && |Run(s, schedule).workers| == |s.workers|
    decreases |schedule|
  {
    if schedule != [] {
      if Enabled(s, schedule[0]) {
        StepKeeps(s, schedule[0]);
        RunKeeps(Next(s, schedule[0]), schedule[1..]);
      } else {
        RunKeeps(s, schedule[1..]);
      }
    }
  }

  lemma {:induction false} StartInv(n: nat)
    requires n > 0
    ensures Inv(Start(n))
  {
  }

  /** `indices` picks `part` out of `whole`, in order and without repetition. */
  ghost predicate Picks(indices: seq<nat>, part: seq<Msg>, whole: seq<Msg>) {
    && |indices| == |part|
    && (forall i :: 0 <= i < |indices| ==> indices[i] < |whole| && part[i] == whole[indices[i]])
    && (forall i, j :: 0 <= i < j < |indices| ==> indices[i] < indices[j])
  }

  lemma PickOneMore(indices: seq<nat>, part: seq<Msg>, whole: seq<Msg>, k: nat)
    requires Picks(indices, part, whole) && k < |whole|
    requires forall i :: 0 <= i < |indices| ==> indices[i] < k
    ensures Picks(indices + [k], part + [whole[k]], whole)
  {
  }

  lemma {:induction false} SelectPicks(ms: seq<Msg>, fates: seq<bool>) returns (indices: seq<nat>)
    requires |fates| <= |ms|
    ensures Picks(indices, Select(ms, fates), ms)
    ensures forall i :: 0 <= i < |indices| ==> indices[i] < |fates|
    decreases |fates|
  {
    if fates == [] {
      indices := [];
    } else {
      var k := |fates| - 1;
      var before := SelectPicks(ms, fates[..k]);
      if fates[k] {
        PickOneMore(before, Select(ms, fates[..k]), ms, k);
        indices := before + [k];
      } else {
        assert Select(ms, fates[..k]) + [] == Select(ms, fates[..k]);
        indices := before;
      }
    }
  }

  /** In every interleaving: a connection is served by one worker only; every message starts with an
      empty context; and the messages of a connection that reach the protocol are an order-preserving
      selection, without duplicates, of those delivered. */
  lemma {:induction false} OrderAndAtMostOnce(n: nat, schedule: seq<Action>, c: Conn)
    requires n > 0
    ensures var s := Run(Start(n), schedule);
            && CleanLog(s.log, n)
            && exists indices :: Picks(indices, LogOf(s.log, c), Delivered(s, c))
  {
    StartInv(n);
    RunKeeps(Start(n), schedule);
    var s := Run(Start(n), schedule);
    assert Account(s, c);
    var indices := SelectPicks(Delivered(s, c), Fates(s, c));
  }

  /** A step that drops messages of `c`: its connection is found down, or the protocol refuses a message. */
  predicate Drops(s: System, a: Action, c: Conn)
    requires s.workers != [] && Enabled(s, a)
  {
    || (a.TakeItem? && !a.connected && s.workers[a.w].qis[0].conn == c)
    || (a.ProcessOne? && a.outcome.Refused? && s.workers[a.w].pc.item.conn == c)
  }

  predicate NeverDrops(s: System, schedule: seq<Action>, c: Conn)
    requires s.workers != []
    decreases |schedule|
  {
    schedule == [] ||
    (if Enabled(s, schedule[0])
     then !Drops(s, schedule[0], c) && NeverDrops(Next(s, schedule[0]), schedule[1..], c)
     else NeverDrops(s, schedule[1..], c))
  }

  lemma {:induction false} SelectAll(ms: seq<Msg>, fates: seq<bool>)
    requires |fates| <= |ms| && forall i :: 0 <= i < |fates| ==> fates[i]
    ensures Select(ms, fates) == ms[..|fates|]
    decreases |fates|
  {
    if fates != [] {
      SelectAll(ms, fates[..|fates| - 1]);
      assert ms[..|fates|] == ms[..|fates| - 1] + [ms[|fates| - 1]];
    }
  }

  /** No message of `c` has been dropped. */
  ghost predicate AllPassed(s: System, c: Conn) {
    forall i :: 0 <= i < |Fates(s, c)| ==> Fates(s, c)[i]
  }

  lemma StepPasses(s: System, a: Action, c: Conn)
    requires s.workers != [] && Enabled(s, a) && !Drops(s, a, c) && AllPassed(s, c)
    ensures AllPassed(Next(s, a), c)
  {
    match a
    case TakeItem(w, connected) =>
      assert Fates(Next(s, a), c) == Fates(s, c);
    case ProcessOne(w, outcome) =>
      ProcessShape(s, w, outcome);
      assert Fates(Next(s, a), c) == Fates(s, c) + if s.workers[w].pc.item.conn == c then [true] else [];
    case _ =>
      assert Fates(Next(s, a), c) == Fates(s, c);
  }

  lemma {:induction false} RunPasses(s: System, schedule: seq<Action>, c: Conn)
    requires s.workers != [] && NeverDrops(s, schedule, c) && AllPassed(s, c)
    ensures AllPassed(Run(s, schedule), c)
    decreases |schedule|
  {
    if schedule != [] {
      if Enabled(s, schedule[0]) {
        StepPasses(s, schedule[0], c);
        RunPasses(Next(s, schedule[0]), schedule[1..], c);
      } else {
        RunPasses(s, schedule[1..], c);
      }
    }
  }

  /** No batch of `c` is in the hands of its thread or its worker. */
  predicate AtRest(s: System, c: Conn)
    requires s.workers != []
  {
    var q := s.workers[WorkerFor(s, c)];
    (q.pc.Testing? || q.pc.Polling?) && q.queue == [] && !ProducerOf(s, c).Calling?
  }

  lemma {:induction false} RestIsEmpty(s: System, c: Conn)
    requires Inv(s) && AtRest(s, c)
    ensures Outstanding(s, c) == []
  {
    assert Account(s, c);
    assert OwnWork(s.workers[WorkerFor(s, c)], WorkerFor(s, c), |s.workers|);
  }

  /** While the connection stays up and no call for it is refused, nothing is lost: the messages that
      reached the protocol, followed by those still on their way, are exactly those delivered. When its
      worker waits for work and its thread has handed over, they are all of them. */
  lemma {:induction false} NothingLost(n: nat, schedule: seq<Action>, c: Conn)
    requires n > 0 && NeverDrops(Start(n), schedule, c)
    ensures var s := Run(Start(n), schedule);
            && s.workers != [] && LogOf(s.log, c) + Outstanding(s, c) == Delivered(s, c)
            && (AtRest(s, c) ==> LogOf(s.log, c) == Delivered(s, c))
  {
    StartInv(n);
    RunKeeps(Start(n), schedule);
    RunPasses(Start(n), schedule, c);
    var s := Run(Start(n), schedule);
    assert Account(s, c);
    SelectAll(Delivered(s, c), Fates(s, c));
    if AtRest(s, c) {
      RestIsEmpty(s, c);
      assert LogOf(s.log, c) + [] == LogOf(s.log, c);
    }
  }
}
