/** What a jQuery callback list means: a queue with a cursor. Calls made from inside a running callback
    are steps taken while the list is firing. */
module CallbackQueue {
  import opened Wrappers

  /** A function's identity. `Builtin` functions are those a Deferred installs on itself. */
  datatype Fn = User(id: nat) | Builtin(which: Effect)

  datatype Effect = SetState | DisableOther | LockProgress

  /** What is passed to a callback: a number standing for any value of the page's own, or an array. */
  datatype Arg = Undefined | Number(n: int) | Array(items: Args)

  type Args = seq<Arg>

  /** A registration of a function; `ticket` numbers the registrations of a list in order. */
  datatype Entry = Entry(fn: Fn, ticket: nat)

  datatype Options = Options(once: bool, memory: bool, unique: bool, stopOnFalse: bool)

  /** `behind`: entries the current firing has passed, the running one last; `ahead`: those it has yet to
      call. While the list is idle all its entries are ahead. `calls`, `tickets` and `gone` record the
      calls made, the registrations so far, and those dropped before they were called. */
  datatype Queue = Queue(
    options: Options,
    disabled: bool,
    firing: bool,
    data: Args,
    behind: seq<Entry>,
    ahead: seq<Entry>,
    memory: Option<Args>,
    fired: bool,
    stack: Option<seq<Args>>,
    calls: seq<(Entry, Args)>,
    tickets: nat,
    gone: set<nat>)

  function Empty(options: Options): Queue {
    Queue(options, false, false, [], [], [], None, false, if options.once then None else Some([]), [], 0, {})
  }

  function TicketSet(es: seq<Entry>): set<nat> {
    set e | e in es :: e.ticket
  }

  /** Registration order, without repetition. */
  predicate Ascending(es: seq<Entry>) {
    forall i, j :: 0 <= i < j < |es| ==> es[i].ticket < es[j].ticket
  }

  /** The entries called, in order of call. */
  function Called(q: Queue): (r: seq<Entry>)
    ensures |r| == |q.calls| && forall i :: 0 <= i < |r| ==> r[i] == q.calls[i].0
  {
    seq(|q.calls|, i requires 0 <= i < |q.calls| => q.calls[i].0)
  }

  predicate Has(es: seq<Entry>, fn: Fn) {
    exists e :: e in es && e.fn == fn
  }

  /** The entries of `es` registered for some other function than `fn`. */
  function Without(es: seq<Entry>, fn: Fn): (r: seq<Entry>)
    ensures |r| <= |es|
  {
    if es == [] then []
    else
      var last := es[|es| - 1];
      Without(es[..|es| - 1], fn) + if last.fn == fn then [] else [last]
  }

  // ---------- operations ----------

  /** Register one function; a `unique` list skips one it already has. */
  function PushOne(q: Queue, fn: Fn): Queue {
    if q.options.unique && Has(q.behind + q.ahead, fn) then q
    else q.(ahead := q.ahead + [Entry(fn, q.tickets)], tickets := q.tickets + 1)
  }

  function Push(q: Queue, fns: seq<Fn>): (r: Queue)
    ensures r == q.(ahead := r.ahead, tickets := r.tickets) && q.ahead <= r.ahead
    decreases |fns|
  {
    if fns == [] then q else Push(PushOne(q, fns[0]), fns[1..])
  }

  /** Add functions: behind what is waiting during a firing, and, on an idle list that remembers, called
      right away with the remembered arguments. */
  function Add(q: Queue, fns: seq<Fn>): Queue {
    if q.disabled then q
    else if q.firing || q.memory.None? then Push(q, fns)
    else
      var p := Push(q, fns);
      Start(p, q.memory.value, |q.ahead|)
  }

  /** Remove every registration of `fn`. */
  function Remove(q: Queue, fn: Fn): Queue {
    if q.disabled then q
    else q.(behind := Without(q.behind, fn), ahead := Without(q.ahead, fn),
            gone := q.gone + (TicketSet(q.ahead) - TicketSet(Without(q.ahead, fn))))
  }

  function Disable(q: Queue): Queue {
    q.(disabled := true, behind := [], ahead := [], memory := None, stack := None,
       gone := q.gone + TicketSet(q.ahead))
  }

  function Lock(q: Queue): Queue {
    var r := q.(stack := None);
    if q.memory.None? then Disable(r) else r
  }

  function FireWith(q: Queue, args: Args): Queue {
    if q.disabled || (q.fired && q.stack.None?) then q
    else if q.firing then (if q.stack.Some? then q.(stack := Some(q.stack.value + [args])) else q)
    else Start(q, args, 0)
  }

  /** The cursor is before position `start`, and the data is in place. */
  function Begun(q: Queue, data: Args, start: nat): Queue {
    var at := if start <= |q.ahead| then start else |q.ahead|;
    q.(memory := if q.options.memory then Some(data) else None, fired := true, firing := true, data := data,
       behind := q.ahead[..at], ahead := q.ahead[at..])
  }

  /** Begin a firing at position `start`. */
  function Start(q: Queue, data: Args, start: nat): Queue
    decreases if q.stack.Some? then |q.stack.value| else 0, 2
  {
    Loop(Begun(q, data, start))
  }

  /** Call the next entry, or finish. */
  function Loop(q: Queue): Queue
    decreases if q.stack.Some? then |q.stack.value| else 0, 1
  {
    if q.disabled || q.ahead == [] then Finish(q)
    else q.(behind := q.behind + [q.ahead[0]], ahead := q.ahead[1..], calls := q.calls + [(q.ahead[0], q.data)])
  }

  /** The running callback returns; `stop` says that it returned false. */
  function Return(q: Queue, stop: bool): Queue {
    if !q.firing then q
    else if stop && q.options.stopOnFalse then Finish(q.(memory := None))
    else Loop(q)
  }

  /** Go idle, or on to the next data of a repeatable list. A list that cannot fire again drops its
      entries: it is emptied if it remembers and disabled otherwise. */
  function Finish(q: Queue): Queue
    decreases if q.stack.Some? then |q.stack.value| else 0, 0
  {
    var r := q.(firing := false, behind := [], ahead := q.behind + q.ahead);
    if q.disabled then r
    else if q.stack.Some? then
      if q.stack.value == [] then r
      else Start(r.(stack := Some(q.stack.value[1..])), q.stack.value[0], 0)
    else if q.memory.Some? then r.(ahead := [], gone := q.gone + TicketSet(q.ahead))
    else Disable(q.(firing := false))
  }

  /** `Finish`, case by case. */
  lemma FinishIdle(q: Queue)
    requires q.disabled || q.stack == Some([])
    ensures Finish(q) == q.(firing := false, behind := [], ahead := q.behind + q.ahead)
  {
  }

  lemma FinishNext(q: Queue)
    requires !q.disabled && q.stack.Some? && q.stack.value != []
    ensures Finish(q) == Start(q.(firing := false, behind := [], ahead := q.behind + q.ahead,
                                  stack := Some(q.stack.value[1..])), q.stack.value[0], 0)
  {
  }

  lemma FinishOnce(q: Queue)
    requires !q.disabled && q.stack.None?
    ensures Finish(q) ==
      if q.memory.Some? then q.(firing := false, behind := [], ahead := [], gone := q.gone + TicketSet(q.ahead))
      else Disable(q.(firing := false))
  {
  }

  /** `Return`, case by case. */
  lemma ReturnCases(q: Queue, stop: bool)
    ensures !q.firing ==> Return(q, stop) == q
    ensures q.firing && stop && q.options.stopOnFalse ==> Return(q, stop) == Finish(q.(memory := None))
    ensures q.firing && !(stop && q.options.stopOnFalse) ==> Return(q, stop) == Loop(q)
  {
  }

  /** A first firing calls the first entry. */
  lemma FirstCall(q: Queue, args: Args)
    requires !q.disabled && !q.fired && !q.firing && q.ahead != []
    ensures FireWith(q, args) ==
            q.(memory := if q.options.memory then Some(args) else None, fired := true, firing := true, data := args,
               behind := [q.ahead[0]], ahead := q.ahead[1..], calls := q.calls + [(q.ahead[0], args)])
  {
    assert q.ahead[0..] == q.ahead && q.ahead[..0] == [];
    assert FireWith(q, args) == Start(q, args, 0) == Loop(Begun(q, args, 0));
  }

  /** A firing list with entries ahead calls the next one. */
  lemma NextCall(q: Queue)
    requires q.firing && !q.disabled && q.ahead != []
    ensures Return(q, false) ==
            q.(behind := q.behind + [q.ahead[0]], ahead := q.ahead[1..], calls := q.calls + [(q.ahead[0], q.data)])
  {
  }

  /** A list that has fired counts as fired ever after. */
  lemma {:induction false} LoopFired(q: Queue)
    requires q.fired
    ensures Loop(q).fired && Finish(q).fired
    decreases if q.stack.Some? then |q.stack.value| else 0, 0
  {
    if !q.disabled && q.stack.Some? && q.stack.value != [] {
      var r := q.(firing := false, behind := [], ahead := q.behind + q.ahead, stack := Some(q.stack.value[1..]));
      StartFired(r, q.stack.value[0], 0);
    }
  }

  lemma {:induction false} StartFired(q: Queue, data: Args, start: nat)
    ensures Start(q, data, start).fired
    decreases if q.stack.Some? then |q.stack.value| else 0, 1
  {
    LoopFired(Begun(q, data, start));
  }

  /** A list that is firing, or remembers, has fired. */
  predicate FlagUp(q: Queue) {
    q.firing || q.memory.Some? ==> q.fired
  }

  lemma {:induction false} FlagStaysUp(q: Queue, a: Action)
    requires FlagUp(q)
    ensures FlagUp(Step(q, a))
    ensures q.fired ==> Step(q, a).fired
    ensures q.disabled ==> Step(q, a).disabled
  {
    match a
    case DoAdd(fns) =>
      if !q.disabled && !q.firing && q.memory.Some? { StartFired(Push(q, fns), q.memory.value, |q.ahead|); }
    case DoFire(args) =>
      StartFired(q, args, 0);
    case DoReturn(stop) =>
      if q.fired { LoopFired(q); LoopFired(q.(memory := None)); }
    case _ =>
  }

  /** The stack of a locked list does not come back. */
  lemma LoopLocked(q: Queue)
    requires q.stack.None?
    ensures Loop(q).stack.None? && Finish(q).stack.None?
  {
  }

  // ---------- the "once memory" guarantee ----------

  datatype Action =
    | DoAdd(fns: seq<Fn>)
    | DoRemove(fn: Fn)
    | DoFire(args: Args)
    | DoReturn(stop: bool)
    | DoDisable
    | DoLock

  function Step(q: Queue, a: Action): Queue {
    match a
    case DoAdd(fns) => Add(q, fns)
    case DoRemove(fn) => Remove(q, fn)
    case DoFire(args) => FireWith(q, args)
    case DoReturn(stop) => Return(q, stop)
    case DoDisable => Disable(q)
    case DoLock => Lock(q)
  }

  function Run(q: Queue, actions: seq<Action>): Queue
    decreases |actions|
  {
    if actions == [] then q else Run(Step(q, actions[0]), actions[1..])
  }

  /** Whether `a` takes entry `e` away while it waits: its function is removed, or the list is disabled,
      or locked before it has ever fired. */
  predicate Drops(q: Queue, a: Action, e: Entry) {
    e in q.ahead &&
    match a
    case DoRemove(fn) => e.fn == fn
    case DoDisable => true
    case DoLock => !q.fired
    case _ => false
  }

  /** The registrations that `a` takes away before their turn. */
  function Taken(q: Queue, a: Action): set<nat> {
    set e | e in q.ahead && Drops(q, a, e) :: e.ticket
  }

  /** Those that a run takes away. */
  function Dropped(q: Queue, actions: seq<Action>): set<nat>
    decreases |actions|
  {
    if actions == [] then {} else Taken(q, actions[0]) + Dropped(Step(q, actions[0]), actions[1..])
  }

  /** No step of the run takes `e` away. */
  predicate Spared(q: Queue, actions: seq<Action>, e: Entry)
    decreases |actions|
  {
    actions == [] || (!Drops(q, actions[0], e) && Spared(Step(q, actions[0]), actions[1..], e))
  }

  /** The tickets handed out so far. */
  function Below(n: nat): (r: set<nat>)
    ensures forall t :: t in r <==> 0 <= t < n
  {
    if n == 0 then {} else Below(n - 1) + {n - 1}
  }

  /** The accounts of a "once memory" list: the entries called, followed by those waiting, are in
      registration order, so nothing is called twice or out of turn; every registration was called, is
      waiting, or was dropped while it waited, and only one of these; every call was made with the
      arguments of the first firing. */
  ghost predicate Accounts(q: Queue) {
    && q.options.once && q.options.memory && !q.options.stopOnFalse
    && q.stack.None?
    && Ascending(Called(q) + q.ahead)
    && TicketSet(Called(q)) + TicketSet(q.ahead) + q.gone == Below(q.tickets)
    && (TicketSet(Called(q)) + TicketSet(q.ahead)) * q.gone == {}
    && (!q.fired ==> q.calls == [] && q.memory.None? && !q.firing)
    && (q.fired ==> q.disabled || q.memory == Some(q.data))
    && (forall i :: 0 <= i < |q.calls| ==> q.calls[i].1 == q.data)
    && (q.disabled ==> q.ahead == [] && q.behind == [] && q.memory.None?)
  }

  /** What holds of such a list at every moment. Once its firing is over nothing is left waiting. */
  ghost predicate OnceMemory(q: Queue) {
    && Accounts(q)
    && (!q.firing ==> q.behind == [])
    && (q.fired && !q.firing ==> q.ahead == [])
  }

  /** A step from `q` to `r` never takes back a call, and changes neither the arguments nor the fact of
      the first firing. */
  ghost predicate Later(q: Queue, r: Queue) {
    && r.options == q.options && q.calls <= r.calls && q.gone <= r.gone && q.tickets <= r.tickets
    && (q.fired ==> r.fired && r.data == q.data)
    && (q.disabled ==> r.disabled)
  }

  lemma TicketSetAdds(es: seq<Entry>, e: Entry)
    ensures TicketSet(es + [e]) == TicketSet(es) + {e.ticket}
  {
    assert forall x :: x in es + [e] <==> x in es || x == e;
  }

  lemma {:induction false} PushOneKeeps(q: Queue, fn: Fn)
    requires Accounts(q) && !q.disabled
    ensures Accounts(PushOne(q, fn)) && Later(q, PushOne(q, fn))
  {
    var r := PushOne(q, fn);
    if r != q {
      var e := Entry(fn, q.tickets);
      assert Called(r) + r.ahead == Called(q) + q.ahead + [e];
      InLine(q);
      TicketSetAdds(q.ahead, e);
      assert Called(r) == Called(q);
      assert Below(q.tickets + 1) == Below(q.tickets) + {q.tickets};
      assert q.tickets !in q.gone by { assert q.tickets !in Below(q.tickets); }
    }
  }

  lemma {:induction false} PushKeeps(q: Queue, fns: seq<Fn>)
    requires Accounts(q) && !q.disabled
    ensures Accounts(Push(q, fns)) && Later(q, Push(q, fns))
    decreases |fns|
  {
    if fns != [] {
      PushOneKeeps(q, fns[0]);
      PushKeeps(PushOne(q, fns[0]), fns[1..]);
    }
  }

  /** Everything in line is a registration made so far. */
  lemma InLine(q: Queue)
    requires Accounts(q)
    ensures forall i :: 0 <= i < |Called(q) + q.ahead| ==> (Called(q) + q.ahead)[i].ticket < q.tickets
  {
    forall i | 0 <= i < |Called(q) + q.ahead| ensures (Called(q) + q.ahead)[i].ticket < q.tickets {
      var e := (Called(q) + q.ahead)[i];
      assert e in Called(q) || e in q.ahead;
      assert e.ticket in Below(q.tickets);
    }
  }

  /** One more call, or the end of the firing. */
  lemma {:induction false} LoopKeeps(q: Queue)
    requires Accounts(q) && q.fired && q.firing
    ensures OnceMemory(Loop(q)) && Later(q, Loop(q))
  {
    var r := Loop(q);
    if !q.disabled && q.ahead != [] {
      assert Called(r) == Called(q) + [q.ahead[0]];
      assert Called(r) + r.ahead == Called(q) + q.ahead;
      assert q.ahead == [q.ahead[0]] + r.ahead;
      TicketSetAdds(Called(q), q.ahead[0]);
      assert TicketSet(q.ahead) == {q.ahead[0].ticket} + TicketSet(r.ahead);
    } else {
      var idle := q.(firing := false, behind := [], ahead := []);
      assert q.gone + TicketSet([]) == q.gone;
      assert r == Finish(q) == idle;
      assert Called(idle) == Called(q);
    }
  }

  lemma {:induction false} WithoutMembers(es: seq<Entry>, fn: Fn)
    ensures forall e :: e in Without(es, fn) <==> e in es && e.fn != fn
    ensures TicketSet(Without(es, fn)) <= TicketSet(es)
  {
    if es != [] {
      var init, last := es[..|es| - 1], es[|es| - 1];
      WithoutMembers(init, fn);
      assert es == init + [last];
    }
  }

  lemma {:induction false} WithoutConcat(a: seq<Entry>, b: seq<Entry>, fn: Fn)
    ensures Without(a + b, fn) == Without(a, fn) + Without(b, fn)
  {
    if b == [] {
      assert a + b == a;
    } else {
      assert (a + b)[..|a + b| - 1] == a + b[..|b| - 1];
      WithoutConcat(a, b[..|b| - 1], fn);
    }
  }

  lemma {:induction false} WithoutInOrder(front: seq<Entry>, es: seq<Entry>, fn: Fn)
    requires Ascending(front + es)
    ensures Ascending(front + Without(es, fn))
  {
    if es != [] {
      var init, last := es[..|es| - 1], es[|es| - 1];
      InitAscending(front, init, last, es);
      WithoutInOrder(front, init, fn);
      WithoutMembers(init, fn);
      if last.fn == fn {
        assert Without(es, fn) == Without(init, fn);
      } else {
        LastAscends(front, Without(init, fn), last);
        assert front + Without(es, fn) == front + Without(init, fn) + [last];
      }
    }
  }

  lemma InitAscending(front: seq<Entry>, init: seq<Entry>, last: Entry, es: seq<Entry>)
    requires es == init + [last] && Ascending(front + es)
    ensures Ascending(front + init)
    ensures forall e :: e in front + init ==> e.ticket < last.ticket
  {
    var all := front + es;
    assert all == front + init + [last];
    forall e | e in front + init ensures e.ticket < last.ticket {
      var j :| 0 <= j < |front + init| && (front + init)[j] == e;
      assert all[j].ticket < all[|all| - 1].ticket;
    }
    forall i, j | 0 <= i < j < |front + init| ensures (front + init)[i].ticket < (front + init)[j].ticket {
      assert all[i].ticket < all[j].ticket;
    }
  }

  lemma LastAscends(front: seq<Entry>, kept: seq<Entry>, last: Entry)
    requires Ascending(front + kept) && forall e :: e in front + kept ==> e.ticket < last.ticket
    ensures Ascending(front + kept + [last])
  {
  }

  /** Removing takes out the registrations of `fn`, and no other: what remains stays on its side of the
      cursor and in order. */
  lemma {:induction false} RemoveKeeps(q: Queue, fn: Fn)
    requires OnceMemory(q)
    ensures OnceMemory(Remove(q, fn)) && Later(q, Remove(q, fn))
    ensures forall e :: e in Remove(q, fn).ahead <==> e in q.ahead && e.fn != fn
    ensures forall e :: e in Remove(q, fn).behind <==> e in q.behind && e.fn != fn
  {
    WithoutMembers(q.behind, fn);
    if !q.disabled {
      var r := Remove(q, fn);
      assert Called(r) == Called(q);
      WithoutInOrder(Called(q), q.ahead, fn);
      WithoutMembers(q.ahead, fn);
      CallsAndWaiting(q);
    }
  }

  /** No ticket is both called and waiting. */
  lemma CallsAndWaiting(q: Queue)
    requires Ascending(Called(q) + q.ahead)
    ensures TicketSet(Called(q)) * TicketSet(q.ahead) == {}
  {
    forall a, b | a in Called(q) && b in q.ahead ensures a.ticket < b.ticket {
      var i :| 0 <= i < |Called(q)| && Called(q)[i] == a;
      var j :| 0 <= j < |q.ahead| && q.ahead[j] == b;
      assert (Called(q) + q.ahead)[i] == a && (Called(q) + q.ahead)[|Called(q)| + j] == b;
    }
  }

  lemma {:induction false} DisableKeeps(q: Queue)
    requires OnceMemory(q)
    ensures OnceMemory(Disable(q)) && Later(q, Disable(q))
  {
    var r := Disable(q);
    assert Called(r) == Called(q);
    FrontAscending(Called(q), q.ahead);
    CallsAndWaiting(q);
  }

  lemma FrontAscending(front: seq<Entry>, es: seq<Entry>)
    requires Ascending(front + es)
    ensures Ascending(front + [])
  {
    assert forall i :: 0 <= i < |front| ==> (front + [])[i] == (front + es)[i];
  }

  lemma {:induction false} StepKeeps(q: Queue, a: Action)
    requires OnceMemory(q)
    ensures OnceMemory(Step(q, a)) && Later(q, Step(q, a))
  {
    match a
    case DoAdd(fns) =>
      if !q.disabled {
        PushKeeps(q, fns);
        if !q.firing && q.memory.Some? {
          var p := Push(q, fns);
          StartKeeps(p, q.memory.value, 0);
        }
      }
    case DoRemove(fn) => RemoveKeeps(q, fn);
    case DoFire(args) =>
      if !q.disabled && !q.fired { StartKeeps(q, args, 0); }
    case DoReturn(stop) =>
      if q.firing { LoopKeeps(q); }
    case DoDisable => DisableKeeps(q);
    case DoLock =>
      if q.memory.None? { DisableKeeps(q.(stack := None)); }
  }

  lemma {:induction false} StartKeeps(q: Queue, data: Args, start: nat)
    requires Accounts(q) && !q.disabled && !q.firing && start == 0
    requires q.fired ==> q.data == data
    ensures OnceMemory(Start(q, data, start)) && Later(q, Start(q, data, start))
  {
    var r := Begun(q, data, 0);
    assert q.ahead[0..] == q.ahead && q.ahead[..0] == [];
    assert Called(r) == Called(q);
    LoopKeeps(r);
  }

  /** In every run of additions, removals, firings, returns, disabling and locking, in any order and from
      inside any callback, a "once memory" list keeps its accounts. */
  lemma {:induction false} OnceMemoryAlways(q: Queue, actions: seq<Action>)
    requires OnceMemory(q)
    ensures OnceMemory(Run(q, actions)) && Later(q, Run(q, actions))
    decreases |actions|
  {
    if actions != [] {
      StepKeeps(q, actions[0]);
      OnceMemoryAlways(Step(q, actions[0]), actions[1..]);
    }
  }

  /** How often registration `t` has been called. */
  function Times(q: Queue, t: nat): nat {
    |set i: nat | i < |q.calls| && q.calls[i].0.ticket == t|
  }

  /** Once the list has fired and gone idle, every registration has been called exactly once unless it
      was dropped before its turn, and then never. */
  lemma {:induction false} IdleCounts(q: Queue, t: nat)
    requires OnceMemory(q) && q.fired && !q.firing && t < q.tickets
    ensures Times(q, t) == if t in q.gone then 0 else 1
  {
    var s := set i: nat | i < |q.calls| && q.calls[i].0.ticket == t;
    assert t in Below(q.tickets);
    if t in q.gone {
      forall i | 0 <= i < |q.calls| ensures q.calls[i].0.ticket != t {
        assert Called(q)[i] in Called(q);
        assert q.calls[i].0.ticket in TicketSet(Called(q));
      }
      assert s == {};
    } else {
      assert t in TicketSet(Called(q));
      var e :| e in Called(q) && e.ticket == t;
      var i :| 0 <= i < |Called(q)| && Called(q)[i] == e;
      forall j | j in s ensures j == i {
        assert (Called(q) + q.ahead)[i] == Called(q)[i] && (Called(q) + q.ahead)[j] == Called(q)[j];
      }
      assert s == {i};
    }
  }

  // ---------- who is dropped, and who is called ----------

  /** Distinct entries in line have distinct tickets. */
  lemma TicketsTell(q: Queue, d: Entry, e: Entry)
    requires Accounts(q) && d in q.ahead && e in q.ahead && d.ticket == e.ticket
    ensures d == e
  {
    var i :| 0 <= i < |q.ahead| && q.ahead[i] == d;
    var j :| 0 <= j < |q.ahead| && q.ahead[j] == e;
    var line, n := Called(q) + q.ahead, |q.calls|;
    assert line[n + i] == d && line[n + j] == e;
  }

  /** A step drops exactly the entries it takes away. */
  lemma {:induction false} StepTakes(q: Queue, a: Action)
    requires OnceMemory(q)
    ensures Step(q, a).gone == q.gone + Taken(q, a)
  {
    match a
    case DoRemove(fn) => RemoveTakes(q, fn);
    case DoDisable => assert Taken(q, a) == TicketSet(q.ahead);
    case DoLock =>
      if q.memory.None? {
        assert q.disabled || !q.fired;
        assert Taken(q, a) == TicketSet(q.ahead);
      } else {
        assert Taken(q, a) == {};
      }
    case _ =>
      assert Taken(q, a) == {};
      if q.disabled { DisabledDropsNothing(q, a); } else { StepDropsNothing(q, a); }
  }

  lemma DisabledDropsNothing(q: Queue, a: Action)
    requires q.disabled && (a.DoAdd? || a.DoFire? || a.DoReturn?)
    ensures Step(q, a).gone == q.gone
  {
    assert Loop(q) == Finish(q);
  }

  lemma RemoveTakes(q: Queue, fn: Fn)
    requires OnceMemory(q)
    ensures Remove(q, fn).gone == q.gone + Taken(q, DoRemove(fn))
  {
    WithoutMembers(q.ahead, fn);
    if !q.disabled {
      var lost := TicketSet(q.ahead) - TicketSet(Without(q.ahead, fn));
      forall t ensures t in lost <==> t in Taken(q, DoRemove(fn)) {
        if t in lost {
          var e :| e in q.ahead && e.ticket == t;
          assert e.fn == fn;
        } else if t in Taken(q, DoRemove(fn)) {
          var e :| e in q.ahead && e.fn == fn && e.ticket == t;
          var d :| d in Without(q.ahead, fn) && d.ticket == t;
          TicketsTell(q, d, e);
        }
      }
    }
  }

  /** So does a run: its dropped registrations are those of waiting entries whose function some step
      removed, or that waited when the list was disabled or locked unfired. */
  lemma {:induction false} RunTakes(q: Queue, actions: seq<Action>)
    requires OnceMemory(q)
    ensures Run(q, actions).gone == q.gone + Dropped(q, actions)
    decreases |actions|
  {
    if actions != [] {
      StepTakes(q, actions[0]);
      StepKeeps(q, actions[0]);
      RunTakes(Step(q, actions[0]), actions[1..]);
    }
  }

  /** `e` waits for its turn or has had it. */
  predicate OnTheBooks(q: Queue, e: Entry) {
    e in q.ahead || e in Called(q)
  }

  /** A call once made stays made. */
  lemma CalledStays(q: Queue, r: Queue, e: Entry)
    requires q.calls <= r.calls && e in Called(q)
    ensures e in Called(r)
  {
    var i :| 0 <= i < |Called(q)| && Called(q)[i] == e;
    assert Called(r)[i] == e;
  }

  /** The end of the firing comes only when nobody waits; otherwise the next in line is called. */
  lemma LoopServes(q: Queue, e: Entry)
    requires !q.disabled && e in q.ahead
    ensures OnTheBooks(Loop(q), e)
  {
    var r := Loop(q);
    assert q.ahead == [q.ahead[0]] + r.ahead;
    assert Called(r)[|q.calls|] == q.ahead[0];
  }

  lemma StartServes(q: Queue, data: Args, e: Entry)
    requires !q.disabled && e in q.ahead
    ensures OnTheBooks(Start(q, data, 0), e)
  {
    assert q.ahead[0..] == q.ahead;
    LoopServes(Begun(q, data, 0), e);
  }

  /** A step that does not take a waiting entry away leaves it waiting or calls it. */
  lemma {:induction false} StepServes(q: Queue, a: Action, e: Entry)
    requires OnceMemory(q) && OnTheBooks(q, e) && !Drops(q, a, e)
    ensures OnTheBooks(Step(q, a), e)
  {
    StepKeeps(q, a);
    if e in Called(q) {
      CalledStays(q, Step(q, a), e);
    } else {
      match a
      case DoAdd(fns) => assert q.ahead <= Push(q, fns).ahead; assert q.firing || q.memory.None?;
      case DoRemove(fn) => WithoutMembers(q.ahead, fn);
      case DoFire(args) => if !q.fired { StartServes(q, args, e); }
      case DoReturn(stop) => if q.firing { LoopServes(q, e); }
      case _ =>
    }
  }

  /** A dropped entry is never called. */
  lemma {:induction false} SparedOrDropped(q: Queue, actions: seq<Action>, e: Entry)
    requires OnceMemory(q) && OnTheBooks(q, e)
    ensures if Spared(q, actions, e) then OnTheBooks(Run(q, actions), e) else e.ticket in Run(q, actions).gone
    decreases |actions|
  {
    if actions != [] {
      var r := Step(q, actions[0]);
      StepKeeps(q, actions[0]);
      if Drops(q, actions[0], e) {
        StepTakes(q, actions[0]);
        OnceMemoryAlways(r, actions[1..]);
      } else {
        StepServes(q, actions[0], e);
        SparedOrDropped(r, actions[1..], e);
      }
    }
  }

  /** Once the list has fired and is idle, an entry on the books has been called exactly once if no step
      took it away while it waited, and never otherwise. */
  lemma {:induction false} CalledOnceIfSpared(q: Queue, actions: seq<Action>, e: Entry)
    requires OnceMemory(q) && OnTheBooks(q, e)
    requires Run(q, actions).fired && !Run(q, actions).firing
    ensures Times(Run(q, actions), e.ticket) == if Spared(q, actions, e) then 1 else 0
  {
    var r := Run(q, actions);
    OnceMemoryAlways(q, actions);
    Registered(q, e);
    SparedOrDropped(q, actions, e);
    if e in Called(r) { Registered(r, e); }
    IdleCounts(r, e.ticket);
  }

  /** An entry on the books has a ticket, and was not dropped. */
  lemma Registered(q: Queue, e: Entry)
    requires Accounts(q) && OnTheBooks(q, e)
    ensures e.ticket < q.tickets && e.ticket !in q.gone
  {
    assert e.ticket in TicketSet(Called(q)) + TicketSet(q.ahead);
    assert e.ticket in Below(q.tickets);
  }

  /** Not a call that could take away a registration of `fn`. */
  predicate Leaves(a: Action, fn: Fn) {
    !a.DoDisable? && !a.DoLock? && a != DoRemove(fn)
  }

  /** In particular when no step disables or locks the list or removes that very function, whatever other
      functions are removed, during the firing or not. */
  lemma {:induction false} RemainingEntryServed(q: Queue, actions: seq<Action>, e: Entry)
    requires OnceMemory(q) && OnTheBooks(q, e)
    requires forall a :: a in actions ==> Leaves(a, e.fn)
    ensures var r := Run(q, actions);
            OnTheBooks(r, e) && (r.fired && !r.firing ==> Times(r, e.ticket) == 1)
  {
    NotNamed(q, actions, e);
    SparedOrDropped(q, actions, e);
    var r := Run(q, actions);
    if r.fired && !r.firing { CalledOnceIfSpared(q, actions, e); }
  }

  lemma {:induction false} NotNamed(q: Queue, actions: seq<Action>, e: Entry)
    requires forall a :: a in actions ==> Leaves(a, e.fn)
    ensures Spared(q, actions, e)
    decreases |actions|
  {
    if actions != [] {
      assert Leaves(actions[0], e.fn) && !Drops(q, actions[0], e);
      forall a | a in actions[1..] ensures Leaves(a, e.fn) {
      }
      NotNamed(Step(q, actions[0]), actions[1..], e);
    }
  }

  /** Adding puts every function on the books, in order, under tickets of its own, whether the list is
      waiting, firing or done firing. */
  lemma {:induction false} AddRegisters(q: Queue, fns: seq<Fn>, i: nat)
    requires OnceMemory(q) && !q.disabled && !q.options.unique && i < |fns|
    ensures Add(q, fns).tickets == q.tickets + |fns|
    ensures OnTheBooks(Add(q, fns), Entry(fns[i], q.tickets + i))
  {
    var p, e := Push(q, fns), Entry(fns[i], q.tickets + i);
    PushAppends(q, fns);
    assert p.ahead[|q.ahead| + i] == e;
    if !q.firing && q.memory.Some? {
      StartServes(p, q.memory.value, e);
      StartDropsNothing(p, q.memory.value);
    }
  }

  lemma {:induction false} PushAppends(q: Queue, fns: seq<Fn>)
    requires !q.options.unique
    ensures var p := Push(q, fns);
            && p.tickets == q.tickets + |fns| && |p.ahead| == |q.ahead| + |fns|
            && forall i :: 0 <= i < |fns| ==> p.ahead[|q.ahead| + i] == Entry(fns[i], q.tickets + i)
    decreases |fns|
  {
    if fns != [] {
      var r := PushOne(q, fns[0]);
      PushAppends(r, fns[1..]);
      var p := Push(q, fns);
      assert p.ahead[|q.ahead|] == r.ahead[|q.ahead|];
      forall i | 0 < i < |fns| ensures p.ahead[|q.ahead| + i] == Entry(fns[i], q.tickets + i) {
        assert fns[1..][i - 1] == fns[i];
        assert p.ahead[|r.ahead| + (i - 1)] == Entry(fns[1..][i - 1], r.tickets + (i - 1));
      }
    }
  }

  /** From an empty list, whatever happened `early` (leading to `q`): a function added then is called
      exactly once by the time the list has fired and is idle again, if what happened `late` did not take
      it away while it waited, and never otherwise. */
  lemma {:induction false} EveryAddedFunctionOnce(early: seq<Action>, q: Queue, fns: seq<Fn>, late: seq<Action>, i: nat)
    requires q == Run(Empty(Options(true, true, false, false)), early) && !q.disabled && i < |fns|
    requires var r := Run(Add(q, fns), late); r.fired && !r.firing
    ensures var p, e := Add(q, fns), Entry(fns[i], q.tickets + i);
            OnTheBooks(p, e) && Times(Run(p, late), e.ticket) == if Spared(p, late, e) then 1 else 0
  {
    StartsWell(false);
    OnceMemoryAlways(Empty(Options(true, true, false, false)), early);
    AddedFunctionOnce(q, fns, late, i);
  }

  lemma {:induction false} AddedFunctionOnce(q: Queue, fns: seq<Fn>, late: seq<Action>, i: nat)
    requires OnceMemory(q) && !q.disabled && !q.options.unique && i < |fns|
    requires var r := Run(Add(q, fns), late); r.fired && !r.firing
    ensures var p, e := Add(q, fns), Entry(fns[i], q.tickets + i);
            OnTheBooks(p, e) && Times(Run(p, late), e.ticket) == if Spared(p, late, e) then 1 else 0
  {
    AddRegisters(q, fns, i);
    StepKeeps(q, DoAdd(fns));
    CalledOnceIfSpared(Add(q, fns), late, Entry(fns[i], q.tickets + i));
  }

  lemma StartsWell(unique: bool)
    ensures OnceMemory(Empty(Options(true, true, unique, false)))
  {
    var start := Empty(Options(true, true, unique, false));
    assert Called(start) == [] && Below(0) == {};
  }

  /** In every run from an empty list, each registration has been called exactly once when the list has
      fired and is idle, except those that were taken away while they waited. */
  lemma {:induction false} ExactlyOnce(unique: bool, actions: seq<Action>, t: nat)
    requires var q := Run(Empty(Options(true, true, unique, false)), actions); q.fired && !q.firing && t < q.tickets
    ensures var start := Empty(Options(true, true, unique, false));
            Times(Run(start, actions), t) == if t in Dropped(start, actions) then 0 else 1
  {
    var start := Empty(Options(true, true, unique, false));
    StartsWell(unique);
    OnceMemoryAlways(start, actions);
    RunTakes(start, actions);
    IdleCounts(Run(start, actions), t);
  }

  /** Nothing is dropped exactly when no step takes a waiting entry away. */
  lemma {:induction false} NothingDropped(q: Queue, actions: seq<Action>)
    requires OnceMemory(q) && q.gone == {}
    ensures Run(q, actions).gone == {} <==> Dropped(q, actions) == {}
    ensures (forall a :: a in actions ==> a.DoAdd? || a.DoFire? || a.DoReturn?) ==> Dropped(q, actions) == {}
    decreases |actions|
  {
    RunTakes(q, actions);
    if forall a :: a in actions ==> a.DoAdd? || a.DoFire? || a.DoReturn? { NoneTaken(q, actions); }
  }

  lemma {:induction false} NoneTaken(q: Queue, actions: seq<Action>)
    requires forall a :: a in actions ==> a.DoAdd? || a.DoFire? || a.DoReturn?
    ensures Dropped(q, actions) == {}
    decreases |actions|
  {
    if actions != [] {
      assert actions == [actions[0]] + actions[1..];
      NoneTaken(Step(q, actions[0]), actions[1..]);
    }
  }

  lemma StepDropsNothing(q: Queue, a: Action)
    requires OnceMemory(q) && !q.disabled && (a.DoAdd? || a.DoFire? || a.DoReturn?)
    ensures Step(q, a).gone == q.gone && !Step(q, a).disabled
  {
    match a
    case DoAdd(fns) =>
      if !q.firing && q.memory.Some? {
        assert q.ahead == [];
        StartDropsNothing(Push(q, fns), q.memory.value);
      }
    case DoFire(args) =>
      if !q.fired { StartDropsNothing(q, args); }
    case _ =>
      if q.firing { LoopDropsNothing(q); }
  }

  lemma StartDropsNothing(q: Queue, data: Args)
    requires !q.disabled && q.stack.None? && q.options.memory
    ensures var r := Start(q, data, 0); r.gone == q.gone && r.tickets == q.tickets && !r.disabled
  {
    LoopDropsNothing(Begun(q, data, 0));
  }

  lemma LoopDropsNothing(q: Queue)
    requires !q.disabled && q.stack.None? && q.memory.Some?
    ensures Loop(q).gone == q.gone && Loop(q).tickets == q.tickets && !Loop(q).disabled
  {
    assert TicketSet([]) == {};
  }
}
