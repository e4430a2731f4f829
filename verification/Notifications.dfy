/** Lists that may fire again and again, as a Deferred's progress list does until it settles: who is called,
    in which order, and with what. */
module Notifications {
  import opened Wrappers
  import opened CallbackQueue

  /** A function registered, and the first of the notifications, counted from 0, that it is called with. */
  datatype Registration = Registration(fn: Fn, birth: nat)

  /** The calls a list has made. */
  type Calls = seq<(Entry, Args)>

  /** How often registration `t` is called. */
  function Count(calls: Calls, t: nat): nat {
    if calls == [] then 0
    else Count(calls[..|calls| - 1], t) + if calls[|calls| - 1].0.ticket == t then 1 else 0
  }

  /** Which notification the `i`-th call is about: the first call of a function is about the notification
      of its birth, and each further one about the next. */
  function Round(calls: Calls, regs: seq<Registration>, i: nat): nat
    requires i < |calls| && calls[i].0.ticket < |regs|
  {
    regs[calls[i].0.ticket].birth + Count(calls[..i], calls[i].0.ticket)
  }

  /** The calls made when `started` of the notifications `notes` have been taken up, the last of them for the
      first `full` registrations only: each function is called with each notification from its birth on,
      one after the other, and within one notification in the order of registration. */
  ghost predicate Book(calls: Calls, regs: seq<Registration>, notes: seq<Args>, started: nat, full: nat) {
    && started <= |notes| && full <= |regs| && (full < |regs| ==> started > 0)
    && (forall t :: 0 <= t < |regs| ==> regs[t].birth + Count(calls, t) == if t < full then started else started - 1)
    && (forall i :: 0 <= i < |calls| ==> Told(calls, regs, notes, i))
    && (forall i, j :: 0 <= i < j < |calls| ==> InOrder(calls, regs, i, j))
  }

  /** The `i`-th call is of a registered function, with its notification. */
  ghost predicate Told(calls: Calls, regs: seq<Registration>, notes: seq<Args>, i: nat) {
    && i < |calls| && calls[i].0.ticket < |regs|
    && calls[i].0.fn == regs[calls[i].0.ticket].fn
    && Round(calls, regs, i) < |notes| && calls[i].1 == notes[Round(calls, regs, i)]
  }

  /** Call `i` rightly comes before call `j`. */
  ghost predicate InOrder(calls: Calls, regs: seq<Registration>, i: nat, j: nat) {
    && i < |calls| && j < |calls| && calls[i].0.ticket < |regs| && calls[j].0.ticket < |regs|
    && (Round(calls, regs, i) < Round(calls, regs, j)
        || (Round(calls, regs, i) == Round(calls, regs, j) && calls[i].0.ticket < calls[j].0.ticket))
  }

  // ---------- the book is kept ----------

  lemma {:induction false} CountMore(calls: Calls, more: Calls, t: nat)
    ensures Count(calls, t) <= Count(calls + more, t)
    decreases |more|
  {
    if more == [] {
      assert calls + more == calls;
    } else {
      assert (calls + more)[..|calls + more| - 1] == calls + more[..|more| - 1];
      CountMore(calls, more[..|more| - 1], t);
    }
  }

  lemma CountAppend(calls: Calls, c: (Entry, Args), t: nat)
    ensures Count(calls + [c], t) == Count(calls, t) + if c.0.ticket == t then 1 else 0
  {
    assert (calls + [c])[..|calls|] == calls;
  }

  lemma {:induction false} CountUpTo(calls: Calls, i: nat)
    requires i < |calls|
    ensures Count(calls[..i], calls[i].0.ticket) < Count(calls, calls[i].0.ticket)
  {
    CountAppend(calls[..i], calls[i], calls[i].0.ticket);
    CountMore(calls[..i] + [calls[i]], calls[i + 1..], calls[i].0.ticket);
    assert calls[..i] + [calls[i]] + calls[i + 1..] == calls;
  }

  lemma {:induction false} CountNone(calls: Calls, t: nat)
    requires forall i :: 0 <= i < |calls| ==> calls[i].0.ticket != t
    ensures Count(calls, t) == 0
  {
    if calls != [] { CountNone(calls[..|calls| - 1], t); }
  }

  /** A call made is about a notification already taken up. */
  lemma RoundIsPast(calls: Calls, regs: seq<Registration>, notes: seq<Args>, started: nat, full: nat, i: nat)
    requires Book(calls, regs, notes, started, full) && i < |calls|
    ensures calls[i].0.ticket < |regs|
    ensures Round(calls, regs, i) < if calls[i].0.ticket < full then started else started - 1
  {
    assert Told(calls, regs, notes, i);
    CountUpTo(calls, i);
  }

  /** The next function is called. */
  lemma {:induction false} BookCall(calls: Calls, regs: seq<Registration>, notes: seq<Args>, started: nat, full: nat)
    requires Book(calls, regs, notes, started, full) && full < |regs|
    ensures Book(calls + [(Entry(regs[full].fn, full), notes[started - 1])], regs, notes, started, full + 1)
  {
    var c := (Entry(regs[full].fn, full), notes[started - 1]);
    var r := calls + [c];
    forall t | 0 <= t < |regs|
      ensures regs[t].birth + Count(r, t) == if t < full + 1 then started else started - 1
    {
      CountAppend(calls, c, t);
    }
    assert r[..|calls|] == calls;
    forall i | 0 <= i < |r| ensures Told(r, regs, notes, i) {
      if i < |calls| {
        assert Told(calls, regs, notes, i) && r[..i] == calls[..i];
      }
    }
    forall i, j | 0 <= i < j < |r| ensures InOrder(r, regs, i, j) {
      assert r[..i] == calls[..i];
      if j < |calls| {
        assert InOrder(calls, regs, i, j) && r[..j] == calls[..j];
      } else {
        RoundIsPast(calls, regs, notes, started, full, i);
      }
    }
  }

  /** A function is registered while earlier ones are being called, and joins in. */
  lemma {:induction false} BookJoin(calls: Calls, regs: seq<Registration>, notes: seq<Args>, started: nat,
                                    full: nat, fn: Fn)
    requires Book(calls, regs, notes, started, full) && started > 0
    ensures Book(calls, regs + [Registration(fn, started - 1)], notes, started, full)
  {
    BookRegister(calls, regs, notes, started, full, Registration(fn, started - 1));
  }

  /** A function is registered when all have been called, and waits for the next notification. */
  lemma {:induction false} BookWait(calls: Calls, regs: seq<Registration>, notes: seq<Args>, started: nat, fn: Fn)
    requires Book(calls, regs, notes, started, |regs|)
    ensures Book(calls, regs + [Registration(fn, started)], notes, started, |regs| + 1)
  {
    BookRegister(calls, regs, notes, started, |regs|, Registration(fn, started));
  }

  lemma {:induction false} BookRegister(calls: Calls, regs: seq<Registration>, notes: seq<Args>, started: nat,
                                        full: nat, reg: Registration)
    requires Book(calls, regs, notes, started, full)
    ensures Count(calls, |regs|) == 0
    ensures forall t :: 0 <= t < |regs| ==>
              (regs + [reg])[t].birth + Count(calls, t) == if t < full then started else started - 1
    ensures forall i :: 0 <= i < |calls| ==> Told(calls, regs + [reg], notes, i)
    ensures forall i, j :: 0 <= i < j < |calls| ==> InOrder(calls, regs + [reg], i, j)
  {
    forall i | 0 <= i < |calls| ensures Told(calls, regs + [reg], notes, i) && calls[i].0.ticket != |regs| {
      assert Told(calls, regs, notes, i);
    }
    CountNone(calls, |regs|);
    forall i, j | 0 <= i < j < |calls| ensures InOrder(calls, regs + [reg], i, j) {
      assert InOrder(calls, regs, i, j);
    }
  }

  /** A notification comes in. */
  lemma {:induction false} BookNotify(calls: Calls, regs: seq<Registration>, notes: seq<Args>, started: nat,
                                      full: nat, args: Args)
    requires Book(calls, regs, notes, started, full)
    ensures Book(calls, regs, notes + [args], started, full)
  {
    forall i | 0 <= i < |calls| ensures Told(calls, regs, notes + [args], i) {
      assert Told(calls, regs, notes, i);
    }
  }

  /** The next notification is taken up. */
  lemma {:induction false} BookNext(calls: Calls, regs: seq<Registration>, notes: seq<Args>, started: nat)
    requires Book(calls, regs, notes, started, |regs|) && started < |notes|
    ensures Book(calls, regs, notes, started + 1, 0)
  {
  }

  // ---------- the list keeps it ----------

  /** How many of the notifications have been taken up. */
  function Started(q: Queue, notes: seq<Args>): int {
    |notes| - if q.stack.Some? then |q.stack.value| else 0
  }

  /** Where the list stands between steps. */
  ghost predicate Keeps(q: Queue, notes: seq<Args>, regs: seq<Registration>) {
    && InService(q, notes) && Lined(q.behind + q.ahead, regs) && q.tickets == |regs|
    && Book(q.calls, regs, notes, Started(q, notes), if q.firing then |q.behind| else |regs|)
  }

  /** The entries are the registrations, in order. */
  ghost predicate Lined(es: seq<Entry>, regs: seq<Registration>) {
    |es| == |regs| && forall t :: 0 <= t < |es| ==> es[t] == Entry(regs[t].fn, t)
  }

  /** Not locked or disabled; the notifications not taken up wait; the last one taken up is in use. */
  ghost predicate InService(q: Queue, notes: seq<Args>) {
    && !q.options.once && !q.options.unique && !q.options.stopOnFalse && !q.disabled && q.stack.Some?
    && Started(q, notes) >= 0 && q.stack.value == notes[Started(q, notes)..]
    && (q.firing ==> Started(q, notes) > 0 && q.data == notes[Started(q, notes) - 1])
    && (!q.firing ==> q.stack.value == [] && q.behind == [])
    && q.memory == (if q.options.memory && Started(q, notes) > 0 then Some(notes[Started(q, notes) - 1]) else None)
  }

  /** A firing list calls the next entry, or takes up the next notification, or goes idle. */
  lemma {:induction false} LoopKeepsBook(q: Queue, notes: seq<Args>, regs: seq<Registration>)
    requires Keeps(q, notes, regs) && q.firing
    ensures Keeps(Loop(q), notes, regs)
    decreases |q.stack.value|, 1
  {
    if q.ahead == [] {
      EndKeepsBook(q, notes, regs);
    } else {
      var r := Loop(q);
      assert r.behind + r.ahead == q.behind + q.ahead;
      assert (q.behind + q.ahead)[|q.behind|] == q.ahead[0];
      BookCall(q.calls, regs, notes, Started(q, notes), |q.behind|);
    }
  }

  lemma {:induction false} EndKeepsBook(q: Queue, notes: seq<Args>, regs: seq<Registration>)
    requires Keeps(q, notes, regs) && q.firing && q.ahead == []
    ensures Keeps(Loop(q), notes, regs)
    decreases |q.stack.value|, 0
  {
    assert Loop(q) == Finish(q);
    if q.stack.value == [] {
      GoIdle(q, notes, regs);
    } else {
      FinishNext(q);
      AllHeard(q, notes, regs);
      TakeUp(q.(firing := false, behind := [], ahead := q.behind + q.ahead, stack := Some(q.stack.value[1..])),
             notes, regs, q.stack.value[0]);
    }
  }

  lemma GoIdle(q: Queue, notes: seq<Args>, regs: seq<Registration>)
    requires Keeps(q, notes, regs) && q.firing && q.ahead == [] && q.stack.value == []
    ensures Keeps(Finish(q), notes, regs)
  {
    FinishIdle(q);
    assert q.behind + q.ahead == q.behind && [] + q.behind == q.behind;
  }

  /** At the end of a firing everything registered has been called. */
  lemma AllHeard(q: Queue, notes: seq<Args>, regs: seq<Registration>)
    requires Keeps(q, notes, regs) && q.firing && q.ahead == [] && q.stack.value != []
    ensures Lined(q.behind + q.ahead, regs) && Book(q.calls, regs, notes, Started(q, notes), |regs|)
    ensures 0 <= Started(q, notes) < |notes| && q.stack.value[0] == notes[Started(q, notes)]
    ensures q.stack.value[1..] == notes[Started(q, notes) + 1..]
  {
    TailStep(notes, Started(q, notes));
    assert q.behind + q.ahead == q.behind;
  }

  lemma TailStep(notes: seq<Args>, k: nat)
    requires k < |notes|
    ensures notes[k..][0] == notes[k] && notes[k..][1..] == notes[k + 1..] && |notes[k + 1..]| == |notes| - k - 1
  {
  }

  /** All have been called, and the next notification is `data`. */
  lemma {:induction false} TakeUp(q: Queue, notes: seq<Args>, regs: seq<Registration>, data: Args)
    requires !q.options.once && !q.options.unique && !q.options.stopOnFalse && !q.disabled && q.stack.Some?
    requires !q.firing && q.behind == [] && Lined(q.ahead, regs) && q.tickets == |regs|
    requires 0 < Started(q, notes) && q.stack.value == notes[Started(q, notes)..]
    requires data == notes[Started(q, notes) - 1]
    requires Book(q.calls, regs, notes, Started(q, notes) - 1, |regs|)
    ensures Keeps(Start(q, data, 0), notes, regs)
    decreases |q.stack.value|, 2
  {
    var b := Begun(q, data, 0);
    assert q.ahead[0..] == q.ahead && q.ahead[..0] == [] && [] + q.ahead == q.ahead;
    BookNext(q.calls, regs, notes, Started(q, notes) - 1);
    LoopKeepsBook(b, notes, regs);
  }

  /** The birth of a function registered now: the notification in use if there is one, for a list that
      remembers, and the next one otherwise. */
  function Birth(q: Queue, notes: seq<Args>): nat {
    if (q.firing || q.memory.Some?) && Started(q, notes) > 0 then Started(q, notes) - 1
    else if Started(q, notes) > 0 then Started(q, notes) else 0
  }

  function NewOnes(fns: seq<Fn>, birth: nat): seq<Registration> {
    seq(|fns|, i requires 0 <= i < |fns| => Registration(fns[i], birth))
  }

  /** Functions put at the end of the line. */
  lemma {:induction false} PushKeepsBook(q: Queue, notes: seq<Args>, regs: seq<Registration>, fns: seq<Fn>)
    requires Keeps(q, notes, regs) && (q.firing || q.memory.None?)
    ensures Keeps(Push(q, fns), notes, regs + NewOnes(fns, Birth(q, notes)))
    decreases |fns|
  {
    var birth := Birth(q, notes);
    NewOnesFirst(regs, fns, birth);
    if fns != [] {
      PushOneKeepsBook(q, notes, regs, fns[0]);
      PushKeepsBook(PushOne(q, fns[0]), notes, regs + [Registration(fns[0], birth)], fns[1..]);
    }
  }

  lemma NewOnesFirst(regs: seq<Registration>, fns: seq<Fn>, birth: nat)
    ensures fns == [] ==> regs + NewOnes(fns, birth) == regs
    ensures fns != [] ==>
              regs + [Registration(fns[0], birth)] + NewOnes(fns[1..], birth) == regs + NewOnes(fns, birth)
  {
  }

  lemma {:induction false} PushOneKeepsBook(q: Queue, notes: seq<Args>, regs: seq<Registration>, fn: Fn)
    requires Keeps(q, notes, regs) && (q.firing || q.memory.None?)
    ensures Keeps(PushOne(q, fn), notes, regs + [Registration(fn, Birth(q, notes))])
  {
    var r := PushOne(q, fn);
    assert r.behind + r.ahead == q.behind + q.ahead + [Entry(fn, q.tickets)];
    if q.firing {
      BookJoin(q.calls, regs, notes, Started(q, notes), |q.behind|, fn);
    } else {
      BookWait(q.calls, regs, notes, Started(q, notes), fn);
    }
  }

  lemma {:induction false} AddKeepsBook(q: Queue, notes: seq<Args>, regs: seq<Registration>, fns: seq<Fn>)
    requires Keeps(q, notes, regs)
    ensures Keeps(Add(q, fns), notes, regs + NewOnes(fns, Birth(q, notes)))
  {
    if q.firing || q.memory.None? {
      PushKeepsBook(q, notes, regs, fns);
    } else {
      var b := Begun(q, q.memory.value, |q.ahead|);
      assert q.behind + q.ahead == q.ahead && b.behind == q.ahead && b.ahead == [] && b.behind + b.ahead == q.ahead;
      PushKeepsBook(b, notes, regs, fns);
      LateBegins(q, fns);
      LoopKeepsBook(Push(b, fns), notes, regs + NewOnes(fns, Birth(q, notes)));
    }
  }

  /** Late functions are called with the remembered arguments, and they alone. */
  lemma LateBegins(q: Queue, fns: seq<Fn>)
    requires !q.disabled && !q.firing && q.memory.Some? && q.behind == [] && q.options.memory && !q.options.unique
    ensures Add(q, fns) == Loop(Push(Begun(q, q.memory.value, |q.ahead|), fns))
  {
    var p, b := Push(q, fns), Begun(q, q.memory.value, |q.ahead|);
    PushBehindOrAhead(q, b, fns);
    assert p.ahead == q.ahead + p.ahead[|q.ahead|..];
    assert Begun(p, q.memory.value, |q.ahead|) == Push(b, fns);
  }

  /** What is pushed does not depend on where the cursor is. */
  lemma {:induction false} PushBehindOrAhead(q: Queue, b: Queue, fns: seq<Fn>)
    requires !q.options.unique && !b.options.unique && q.tickets == b.tickets && |b.ahead| <= |q.ahead|
    ensures Push(q, fns).tickets == Push(b, fns).tickets
    ensures |Push(b, fns).ahead| - |b.ahead| == |Push(q, fns).ahead| - |q.ahead| >= 0
    ensures Push(q, fns).ahead[|q.ahead|..] == Push(b, fns).ahead[|b.ahead|..]
    decreases |fns|
  {
    PushAppends(q, fns);
    PushAppends(b, fns);
    var x, y := Push(q, fns).ahead[|q.ahead|..], Push(b, fns).ahead[|b.ahead|..];
    assert |x| == |y| == |fns|;
    forall i | 0 <= i < |fns| ensures x[i] == y[i] {
      assert x[i] == Push(q, fns).ahead[|q.ahead| + i] == Entry(fns[i], q.tickets + i);
      assert y[i] == Push(b, fns).ahead[|b.ahead| + i] == Entry(fns[i], b.tickets + i);
    }
  }

  lemma {:induction false} FireKeepsBook(q: Queue, notes: seq<Args>, regs: seq<Registration>, args: Args)
    requires Keeps(q, notes, regs)
    ensures Keeps(FireWith(q, args), notes + [args], regs)
  {
    var all := notes + [args];
    BookNotify(q.calls, regs, notes, Started(q, notes), if q.firing then |q.behind| else |regs|, args);
    if q.firing {
      assert all[Started(q, notes)..] == notes[Started(q, notes)..] + [args];
    } else {
      assert q.behind + q.ahead == q.ahead && all[|all|..] == [];
      TakeUp(q, all, regs, args);
    }
  }

  // ---------- every run ----------

  /** The notifications made, in order. */
  function Notified(actions: seq<Action>): seq<Args> {
    if actions == [] then []
    else (if actions[0].DoFire? then [actions[0].args] else []) + Notified(actions[1..])
  }

  /** The functions registered in a run from `q`, where `notes` have been made before. */
  function Registrations(q: Queue, notes: seq<Args>, actions: seq<Action>): seq<Registration>
    decreases |actions|
  {
    if actions == [] then []
    else
      (if actions[0].DoAdd? then NewOnes(actions[0].fns, Birth(q, notes)) else [])
      + Registrations(Step(q, actions[0]),
                      if actions[0].DoFire? then notes + [actions[0].args] else notes, actions[1..])
  }

  /** Additions, notifications and returns. */
  predicate Plain(actions: seq<Action>) {
    forall i :: 0 <= i < |actions| ==> actions[i].DoAdd? || actions[i].DoFire? || actions[i].DoReturn?
  }

  lemma {:induction false} RunKeepsBook(q: Queue, notes: seq<Args>, regs: seq<Registration>, actions: seq<Action>)
    requires Keeps(q, notes, regs) && Plain(actions)
    ensures Keeps(CallbackQueue.Run(q, actions), notes + Notified(actions), regs + Registrations(q, notes, actions))
    decreases |actions|
  {
    if actions == [] {
      assert notes + [] == notes && regs + [] == regs;
    } else {
      var a, rest := actions[0], actions[1..];
      var more := notes + if a.DoFire? then [a.args] else [];
      var added := regs + if a.DoAdd? then NewOnes(a.fns, Birth(q, notes)) else [];
      StepKeepsBook(q, notes, regs, a);
      PlainRest(actions);
      NoMore(notes);
      RunKeepsBook(Step(q, a), more, added, rest);
      Together(notes, if a.DoFire? then [a.args] else [], Notified(rest));
      Together(regs, if a.DoAdd? then NewOnes(a.fns, Birth(q, notes)) else [], Registrations(Step(q, a), more, rest));
    }
  }

  lemma PlainRest(actions: seq<Action>)
    requires Plain(actions) && actions != []
    ensures Plain(actions[1..])
  {
    assert forall i :: 0 <= i < |actions[1..]| ==> actions[1..][i] == actions[i + 1];
  }

  lemma NoMore<T>(s: seq<T>)
    ensures s + [] == s
  {
  }

  lemma Together<T>(a: seq<T>, b: seq<T>, c: seq<T>)
    ensures a + b + c == a + (b + c)
  {
  }

  lemma {:induction false} StepKeepsBook(q: Queue, notes: seq<Args>, regs: seq<Registration>, a: Action)
    requires Keeps(q, notes, regs) && (a.DoAdd? || a.DoFire? || a.DoReturn?)
    ensures Keeps(Step(q, a), notes + (if a.DoFire? then [a.args] else []),
                  regs + if a.DoAdd? then NewOnes(a.fns, Birth(q, notes)) else [])
  {
    assert notes + [] == notes && regs + [] == regs;
    match a
    case DoAdd(fns) => AddKeepsBook(q, notes, regs, fns);
    case DoFire(args) => FireKeepsBook(q, notes, regs, args);
    case DoReturn(stop) =>
      ReturnCases(q, stop);
      if q.firing { LoopKeepsBook(q, notes, regs); }
  }

  /** In every run of additions, notifications and returns, from inside callbacks or not, a list that may
      fire again calls each function with each notification from its birth on, notification by
      notification, and within one in the order of registration. */
  lemma {:induction false} EveryNotificationReachesAll(memory: bool, actions: seq<Action>)
    requires Plain(actions)
    ensures var q := Empty(Options(false, memory, false, false));
            Keeps(CallbackQueue.Run(q, actions), Notified(actions), Registrations(q, [], actions))
  {
    var q := Empty(Options(false, memory, false, false));
    NewListKeeps(memory);
    RunKeepsBook(q, [], [], actions);
    NoneBefore(Notified(actions));
    NoneBefore(Registrations(q, [], actions));
  }

  lemma NewListKeeps(memory: bool)
    ensures Keeps(Empty(Options(false, memory, false, false)), [], [])
  {
    assert Book([], [], [], 0, 0);
  }

  lemma NoneBefore<T>(s: seq<T>)
    ensures [] + s == s
  {
  }

  /** What registration `t` was called with, call by call. */
  function ArgsTo(calls: Calls, t: nat): seq<Args> {
    if calls == [] then []
    else
      var last := calls[|calls| - 1];
      ArgsTo(calls[..|calls| - 1], t) + if last.0.ticket == t then [last.1] else []
  }

  lemma {:induction false} ArgsToAre(calls: Calls, regs: seq<Registration>, notes: seq<Args>, t: nat)
    requires t < |regs| && regs[t].birth <= |notes| && forall i :: 0 <= i < |calls| ==> Told(calls, regs, notes, i)
    ensures var b := regs[t].birth;
            b + Count(calls, t) <= |notes| && ArgsTo(calls, t) == notes[b..b + Count(calls, t)]
  {
    if calls != [] {
      var init := calls[..|calls| - 1];
      ToldBefore(calls, regs, notes);
      ArgsToAre(init, regs, notes, t);
      assert Told(calls, regs, notes, |calls| - 1);
      if calls[|calls| - 1].0.ticket == t { OneMoreNote(notes, regs[t].birth, Count(init, t)); }
    }
  }

  lemma OneMoreNote(notes: seq<Args>, b: nat, k: nat)
    requires b + k < |notes|
    ensures notes[b..b + k] + [notes[b + k]] == notes[b..b + k + 1]
  {
  }

  lemma ToldBefore(calls: Calls, regs: seq<Registration>, notes: seq<Args>)
    requires calls != [] && forall i :: 0 <= i < |calls| ==> Told(calls, regs, notes, i)
    ensures var init := calls[..|calls| - 1]; forall i :: 0 <= i < |init| ==> Told(init, regs, notes, i)
  {
    var init := calls[..|calls| - 1];
    forall i | 0 <= i < |init| ensures Told(init, regs, notes, i) {
      assert Told(calls, regs, notes, i) && init[..i] == calls[..i];
    }
  }

  /** On an idle list every function has been called with all notifications from its birth on. */
  lemma {:induction false} IdleHeardAll(q: Queue, notes: seq<Args>, regs: seq<Registration>, t: nat)
    requires Keeps(q, notes, regs) && !q.firing && t < |regs|
    ensures regs[t].birth <= |notes| && ArgsTo(q.calls, t) == notes[regs[t].birth..]
  {
    assert Started(q, notes) == |notes|;
    assert regs[t].birth + Count(q.calls, t) == |notes|;
    ArgsToAre(q.calls, regs, notes, t);
  }
}
