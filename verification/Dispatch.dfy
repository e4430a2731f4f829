/** OFController's queue processors: connections hand batches of messages to one of n worker threads by
    sequence number. Every interleaving of the threads is a sequence of the steps below. */
module Dispatch {

  type Conn = nat     // a connection's sequence number
  type Msg = int
  type Context = map<string, int>

  /** A queue item. */
  datatype QI = QI(conn: Conn, msgs: seq<Msg>)

  /** What the thread that reads a connection is doing: nothing, about to transfer a batch, or blocked
      until a worker takes the batch it has put in the queue. */
  datatype Producer = Idle | Calling(msgs: seq<Msg>) | Waiting(msgs: seq<Msg>)

  datatype Pc = Testing | Polling | Draining | Iterating | Processing(item: QI)

  /** A queue processor: at the loop test, waiting for an item, emptying the queue, or going through the
      batch. A worker told to quit while it waits still takes a batch that comes. `qis` are the items of the
      batch not yet looked at; in `Processing(item)` the item holds the messages not yet passed on. */
  datatype QP = QP(queue: seq<QI>, qis: seq<QI>, pc: Pc, context: Context, quit: bool, alive: bool)

  /** One call of `protocol.process`. */
  datatype Call = Call(worker: nat, conn: Conn, msg: Msg, context: Context)

  /** `delivered`, `fates` and `log` record what was handed over per connection, whether each message was
      passed to the protocol (true) or dropped (false), and every call made. */
  datatype System = System(
    workers: seq<QP>,
    producers: map<Conn, Producer>,
    delivered: map<Conn, seq<Msg>>,
    fates: map<Conn, seq<bool>>,
    log: seq<Call>)

  function ProducerOf(s: System, c: Conn): Producer {
    if c in s.producers then s.producers[c] else Idle
  }

  function Delivered(s: System, c: Conn): seq<Msg> {
    if c in s.delivered then s.delivered[c] else []
  }

  function Fates(s: System, c: Conn): seq<bool> {
    if c in s.fates then s.fates[c] else []
  }

  function Start(n: nat): System {
    System(seq(n, _ => QP([], [], Testing, map[], false, true)), map[], map[], map[], [])
  }

  // ---------- steps ----------

  /** How a call of `protocol.process` ends; it may leave anything in the context. */
  datatype Outcome = Fine(after: Context) | Refused(after: Context) | Throws

  datatype Action =
    | Deliver(conn: Conn, msgs: seq<Msg>)      // handleReadEvent is called
    | Enqueue(conn: Conn)                      // transfer puts the item in the queue
    | Interrupt(conn: Conn)                    // transfer is interrupted, withdraws the item and is retried
    | TestQuit(w: nat)                         // the loop test lets the worker through
    | PollFails(w: nat)                        // no item within the time limit, or an interrupt
    | Poll(w: nat)
    | DrainOne(w: nat)
    | DrainDone(w: nat)
    | TakeItem(w: nat, connected: bool)
    | ProcessOne(w: nat, outcome: Outcome)
    | ItemDone(w: nat)
    | BatchDone(w: nat)
    | Shutdown(w: nat)

  /** Which worker a connection's batches go to. */
  function WorkerFor(s: System, c: Conn): nat
    requires s.workers != []
  {
    c % |s.workers|
  }

  predicate Enabled(s: System, a: Action)
    requires s.workers != []
  {
    match a
    case Deliver(c, _) => ProducerOf(s, c).Idle?
    case Enqueue(c) => ProducerOf(s, c).Calling?
    case Interrupt(c) => ProducerOf(s, c).Waiting?
    case Shutdown(w) => w < |s.workers|
    case _ =>
      a.w < |s.workers| && s.workers[a.w].alive &&
      var q := s.workers[a.w];
      match a
      case TestQuit(_) => q.pc.Testing? && !q.quit
      case PollFails(_) => q.pc.Polling?
      case Poll(_) => q.pc.Polling? && q.queue != []
      case DrainOne(_) => q.pc.Draining? && q.queue != []
      case DrainDone(_) => q.pc.Draining?
      case TakeItem(_, _) => q.pc.Iterating? && q.qis != []
      case BatchDone(_) => q.pc.Iterating? && q.qis == []
      case ProcessOne(_, _) => q.pc.Processing? && q.pc.item.msgs != []
      case _ => q.pc.Processing? && q.pc.item.msgs == []
  }

  /** The queue without the item of connection `c`. */
  function Withdraw(queue: seq<QI>, c: Conn): seq<QI> {
    if queue == [] then []
    else if queue[0].conn == c then queue[1..]
    else [queue[0]] + Withdraw(queue[1..], c)
  }

  function Repeat(fate: bool, count: nat): (r: seq<bool>)
    ensures |r| == count && forall i :: 0 <= i < count ==> r[i] == fate
  {
    if count == 0 then [] else Repeat(fate, count - 1) + [fate]
  }

  /** Record the fates of the next messages of `c`. */
  function Decide(s: System, c: Conn, fates: seq<bool>): System {
    s.(fates := s.fates[c := Fates(s, c) + fates])
  }

  function SetWorker(s: System, w: nat, q: QP): System
    requires w < |s.workers|
  {
    s.(workers := s.workers[w := q])
  }

  /** The producer of `c` changes state, and the queue of its worker with it. */
  function Transfer(s: System, c: Conn, p: Producer, queue: seq<QI>): System
    requires s.workers != []
  {
    var w := WorkerFor(s, c);
    SetWorker(s, w, s.workers[w].(queue := queue)).(producers := s.producers[c := p])
  }

  /** `poll` and each step of `drainTo` move the head of the queue to the end of the batch, which
      releases its producer. */
  function TakeHead(s: System, w: nat): System
    requires w < |s.workers| && s.workers[w].queue != []
  {
    var q := s.workers[w];
    SetWorker(s, w, q.(queue := q.queue[1..], qis := q.qis + [q.queue[0]], pc := Draining))
      .(producers := s.producers[q.queue[0].conn := Idle])
  }

  /** Look at the next item of the batch; it is skipped if its connection is down. */
  function Take(s: System, w: nat, connected: bool): System
    requires w < |s.workers| && s.workers[w].qis != []
  {
    var q := s.workers[w];
    var item := q.qis[0];
    if connected then SetWorker(s, w, q.(qis := q.qis[1..], pc := Processing(item)))
    else SetWorker(Decide(s, item.conn, Repeat(false, |item.msgs|)), w, q.(qis := q.qis[1..]))
  }

  /** Clear the context and pass the next message on. If the protocol refuses it the rest of the item is
      dropped; if it throws the worker ends. */
  function Process(s: System, w: nat, outcome: Outcome): System
    requires w < |s.workers| && s.workers[w].pc.Processing? && s.workers[w].pc.item.msgs != []
  {
    var q := s.workers[w];
    var c, m, rest := q.pc.item.conn, q.pc.item.msgs[0], q.pc.item.msgs[1..];
    var q' := q.(context := map[]);
    var t := s.(log := s.log + [Call(w, c, m, q'.context)]);
    match outcome
    case Fine(after) =>
      SetWorker(Decide(t, c, [true]), w, q'.(context := after, pc := Processing(QI(c, rest))))
    case Refused(after) =>
      SetWorker(Decide(t, c, [true] + Repeat(false, |rest|)), w, q'.(context := after, pc := Iterating))
    case Throws =>
      SetWorker(Decide(t, c, [true]), w, q'.(pc := Processing(QI(c, rest)), alive := false))
  }

  function Next(s: System, a: Action): System
    requires s.workers != [] && Enabled(s, a)
  {
    match a
    case Deliver(c, msgs) =>
      s.(producers := s.producers[c := Calling(msgs)], delivered := s.delivered[c := Delivered(s, c) + msgs])
    case Enqueue(c) =>
      var msgs := ProducerOf(s, c).msgs;
      Transfer(s, c, Waiting(msgs), s.workers[WorkerFor(s, c)].queue + [QI(c, msgs)])
    case Interrupt(c) =>
      Transfer(s, c, Calling(ProducerOf(s, c).msgs), Withdraw(s.workers[WorkerFor(s, c)].queue, c))
    case TestQuit(w) => SetWorker(s, w, s.workers[w].(qis := [], pc := Polling))
    case PollFails(w) => SetWorker(s, w, s.workers[w].(pc := Testing))
    case Poll(w) => TakeHead(s, w)
    case DrainOne(w) => TakeHead(s, w)
    case DrainDone(w) => SetWorker(s, w, s.workers[w].(pc := Iterating))
    case TakeItem(w, connected) => Take(s, w, connected)
    case ProcessOne(w, outcome) => Process(s, w, outcome)
    case ItemDone(w) => SetWorker(s, w, s.workers[w].(pc := Iterating))
    case BatchDone(w) => SetWorker(s, w, s.workers[w].(pc := Testing))
    case Shutdown(w) => SetWorker(s, w, s.workers[w].(quit := true))
  }

  /** Run a schedule; steps that cannot be taken are skipped. */
  function Run(s: System, schedule: seq<Action>): System
    requires s.workers != []
    decreases |schedule|
  {
    if schedule == [] then s
    else Run(if Enabled(s, schedule[0]) then Next(s, schedule[0]) else s, schedule[1..])
  }

  // ---------- where a connection's messages are ----------

  /** The messages of `c` in a list of items. */
  function Flat(items: seq<QI>, c: Conn): seq<Msg> {
    if items == [] then [] else (if items[0].conn == c then items[0].msgs else []) + Flat(items[1..], c)
  }

  /** What the worker is in the middle of. */
  function InHand(q: QP, c: Conn): seq<Msg> {
    if q.pc.Processing? && q.pc.item.conn == c then q.pc.item.msgs else []
  }

  function Carried(p: Producer): seq<Msg> {
    if p.Idle? then [] else p.msgs
  }

  /** What the worker of `c` has taken over from the producer and not yet decided about. */
  function Held(q: QP, c: Conn): seq<Msg> {
    InHand(q, c) + Flat(q.qis, c)
  }

  /** Everything of `c` that has no fate yet, in order. */
  function Outstanding(s: System, c: Conn): seq<Msg>
    requires s.workers != []
  {
    Held(s.workers[WorkerFor(s, c)], c) + Carried(ProducerOf(s, c))
  }

  /** The messages of `c` passed to the protocol, in order of the calls. */
  function LogOf(log: seq<Call>, c: Conn): seq<Msg> {
    if log == [] then []
    else
      var last := log[|log| - 1];
      LogOf(log[..|log| - 1], c) + if last.conn == c then [last.msg] else []
  }

  /** Those of `ms` whose fate is true. */
  function Select(ms: seq<Msg>, fates: seq<bool>): seq<Msg>
    requires |fates| <= |ms|
    decreases |fates|
  {
    if fates == [] then []
    else
      var k := |fates| - 1;
      Select(ms, fates[..k]) + if fates[k] then [ms[k]] else []
  }

  /** The producer's view of the queue and the queue itself agree. */
  ghost predicate QueueAgrees(queue: seq<QI>, c: Conn, p: Producer) {
    && (forall i :: 0 <= i < |queue| && queue[i].conn == c ==> p == Waiting(queue[i].msgs))
    && (forall i, j :: 0 <= i < j < |queue| ==> !(queue[i].conn == c && queue[j].conn == c))
    && (p.Waiting? ==> exists i :: 0 <= i < |queue| && queue[i].conn == c)
  }

  /** All that concerns one connection. */
  datatype Slice = Slice(
    delivered: seq<Msg>,
    fates: seq<bool>,
    logged: seq<Msg>,
    held: seq<Msg>,
    producer: Producer,
    queue: seq<QI>)

  function SliceOf(s: System, c: Conn): Slice
    requires s.workers != []
  {
    var q := s.workers[WorkerFor(s, c)];
    Slice(Delivered(s, c), Fates(s, c), LogOf(s.log, c), Held(q, c), ProducerOf(s, c), q.queue)
  }

  /** The account of one connection: each message delivered has one fate or is outstanding, in order, and
      those passed to the protocol are the ones with fate true, in order. */
  ghost predicate Balanced(l: Slice, c: Conn) {
    && |l.fates| <= |l.delivered|
    && l.delivered[|l.fates|..] == l.held + Carried(l.producer)
    && l.logged == Select(l.delivered, l.fates)
    && QueueAgrees(l.queue, c, l.producer)
  }

  ghost predicate Account(s: System, c: Conn)
    requires s.workers != []
  {
    Balanced(SliceOf(s, c), c)
  }

  /** Everything a worker holds is of its own connections; between batches it holds nothing. */
  ghost predicate OwnWork(q: QP, w: nat, n: nat)
    requires n > 0
  {
    && (forall i :: i in q.queue ==> i.conn % n == w)
    && (forall i :: i in q.qis ==> i.conn % n == w)
    && (q.pc.Processing? ==> q.pc.item.conn % n == w)
    && (q.pc.Testing? || q.pc.Polling? ==> q.qis == [])
  }

  /** Every worker holds its own work only. */
  ghost predicate AllOwnWork(s: System) {
    forall w :: 0 <= w < |s.workers| ==> OwnWork(s.workers[w], w, |s.workers|)
  }

  /** Every call was made by the connection's worker, with an empty context. */
  ghost predicate CleanLog(log: seq<Call>, n: nat)
    requires n > 0
  {
    forall k :: k in log ==> k.worker == k.conn % n && k.context == map[]
  }

  ghost predicate Inv(s: System) {
    && s.workers != []
    && AllOwnWork(s)
    && CleanLog(s.log, |s.workers|)
    && (forall c :: Account(s, c))
  }
}
