/** jQuery.when over Deferreds: what the master promise says at every moment, for any inputs, settled,
    pending or firing, one Deferred given several times included, and whatever is done to them meanwhile. */
module When {
  import opened Wrappers
  import opened CallbackQueue
  import opened D = Deferreds
  import opened Listeners

  /** An argument of `when`: a plain value, or a promise of one of the page's Deferreds. */
  datatype Input = Plain(v: Arg) | Promise(which: nat)

  /** A call of `when` and the Deferreds of the page, each in any state that a run can lead to. The first
      `|doneTickets|` inputs are attached; input `k` has registrations `doneTickets[k]` and `failTickets[k]`
      on its lists. `heard` and `lost` record whose update function and whose `reject` have run. */
  datatype Case = Case(
    inputs: seq<Input>,
    pool: seq<Deferred>,
    doneTickets: seq<nat>,
    failTickets: seq<nat>,
    heard: seq<bool>,
    lost: seq<bool>,
    remaining: int,
    values: seq<Arg>,
    master: Deferred)

  predicate InRange(inputs: seq<Input>, n: nat) {
    forall k :: 0 <= k < |inputs| && inputs[k].Promise? ==> inputs[k].which < n
  }

  predicate Sized(c: Case) {
    && |c.heard| == |c.lost| == |c.values| == |c.inputs|
    && |c.doneTickets| == |c.failTickets| <= |c.inputs|
    && InRange(c.inputs, |c.pool|)
  }

  /** A single promise is not wrapped: `when` returns it as it is. */
  predicate Single(inputs: seq<Input>) {
    |inputs| == 1 && inputs[0].Promise?
  }

  /** What `when` returned. */
  function MasterOf(c: Case): Deferred
    requires InRange(c.inputs, |c.pool|)
  {
    if Single(c.inputs) then c.pool[c.inputs[0].which] else c.master
  }

  // ---------- the callbacks ----------

  /** What the update function stores: the only argument, or all of them in an array. */
  function One(args: Args): Arg {
    if |args| > 1 then Array(args) else if |args| == 1 then args[0] else Undefined
  }

  /** A single argument is stored as it is; several, or none, can be told from what is stored. */
  lemma OneTells(args: Args, other: Args, a: Arg)
    ensures One([a]) == a && One([]) == Undefined
    ensures |args| > 1 ==> One(args).Array? && One(args).items == args
    ensures |args| > 1 && |other| > 1 && One(args) == One(other) ==> args == other
  {
  }

  /** The update function of input `k`: store, count down, and at zero resolve the master. */
  function Update(c: Case, k: nat, args: Args): (r: Case)
    requires Sized(c) && k < |c.inputs|
  {
    var values, left := c.values[k := One(args)], c.remaining - 1;
    c.(heard := c.heard[k := true], values := values, remaining := left,
       master := if left == 0 then Settle(c.master, true, values) else c.master)
  }

  /** `deferred.reject`, on behalf of input `k`. */
  function RejectBy(c: Case, k: nat, args: Args): (r: Case)
    requires Sized(c) && k < |c.inputs|
  {
    c.(lost := c.lost[k := true], master := Settle(c.master, false, args))
  }

  /** All that concerns one input. */
  datatype Standing = Standing(
    input: Input,
    attached: bool,
    doneTicket: nat,
    failTicket: nat,
    heard: bool,
    lost: bool,
    value: Arg,
    source: Option<Deferred>)

  function At(c: Case, k: nat): Standing
    requires Sized(c) && k < |c.inputs|
  {
    var attached := k < |c.doneTickets|;
    Standing(c.inputs[k], attached, if attached then c.doneTickets[k] else 0, if attached then c.failTickets[k] else 0,
             c.heard[k], c.lost[k], c.values[k], if c.inputs[k].Plain? then None else Some(c.pool[c.inputs[k].which]))
  }

  /** Whether the list has called the callback registered on it for this input. */
  predicate CalledBy(s: Standing, win: bool) {
    s.attached && s.source.Some? && Heard(List(s.source.value, win), if win then s.doneTicket else s.failTicket)
  }

  predicate Calls(c: Case, k: nat, win: bool)
    requires Sized(c) && k < |c.inputs|
  {
    CalledBy(At(c, k), win)
  }

  /** Nothing but the record, the count, the values and the master differ. */
  predicate SameCall(c: Case, r: Case) {
    && Sized(c) && Sized(r)
    && r == c.(heard := r.heard, lost := r.lost, remaining := r.remaining, values := r.values, master := r.master)
  }

  /** The callbacks of input `k` run when their lists call them, with what the list was fired with. */
  function Hear(c: Case, k: nat): (r: Case)
    requires Sized(c) && k < |c.doneTickets|
    ensures SameCall(c, r)
  {
    if c.inputs[k].Plain? then c
    else
      var d := c.pool[c.inputs[k].which];
      if Calls(c, k, true) && !c.heard[k] then Update(c, k, d.done.data)
      else if Calls(c, k, false) && !c.lost[k] then RejectBy(c, k, d.fail.data)
      else c
  }

  function HearFrom(c: Case, k: nat): (r: Case)
    requires Sized(c) && k <= |c.doneTickets| == |c.inputs|
    ensures SameCall(c, r)
    decreases |c.inputs| - k
  {
    if k == |c.inputs| then c else HearFrom(Hear(c, k), k + 1)
  }

  // ---------- the call ----------

  /** Go on to the next input. A list that has fired and is idle calls its new function on the spot; one
      that is firing calls it when its turn comes. */
  function Attach(c: Case): (r: Case)
    requires Sized(c) && |c.doneTickets| < |c.inputs|
  {
    var k := |c.doneTickets|;
    match c.inputs[k]
    case Plain(_) =>
      c.(doneTickets := c.doneTickets + [0], failTickets := c.failTickets + [0],
         heard := c.heard[k := true], remaining := c.remaining - 1)
    case Promise(w) => Hear(Joined(c, w), k)
  }

  /** The registrations for input `w` made. */
  function Joined(c: Case, w: nat): (r: Case)
    requires w < |c.pool|
  {
    var d := c.pool[w];
    c.(pool := c.pool[w := Listened(d, |c.doneTickets|)],
       doneTickets := c.doneTickets + [d.done.tickets], failTickets := c.failTickets + [d.fail.tickets])
  }

  function AttachAll(c: Case): (r: Case)
    requires Sized(c)
    ensures Sized(r) && r.inputs == c.inputs && |r.pool| == |c.pool| && |r.doneTickets| == |r.inputs|
    decreases |c.inputs| - |c.doneTickets|
  {
    if |c.doneTickets| == |c.inputs| then c else AttachAll(Attach(c))
  }

  /** `resolveValues` to begin with: the plain values, and nothing of use for the promises. */
  function Given(inputs: seq<Input>): (values: seq<Arg>)
    ensures |values| == |inputs|
    ensures forall k :: 0 <= k < |inputs| && inputs[k].Plain? ==> values[k] == inputs[k].v
  {
    seq(|inputs|, k requires 0 <= k < |inputs| => if inputs[k].Plain? then inputs[k].v else Undefined)
  }

  function NoneYet(n: nat): (flags: seq<bool>)
    ensures |flags| == n && forall k :: 0 <= k < n ==> !flags[k]
  {
    seq(n, _ => false)
  }

  function Untouched(inputs: seq<Input>, pool: seq<Deferred>): (r: Case)
    requires InRange(inputs, |pool|)
    ensures Sized(r)
  {
    Case(inputs, pool, [], [], NoneYet(|inputs|), NoneYet(|inputs|), |inputs|, Given(inputs), Create())
  }

  /** The call of `when` is over. */
  predicate Returned(c: Case) {
    Sized(c) && (Single(c.inputs) || |c.doneTickets| == |c.inputs|)
  }

  function Begin(inputs: seq<Input>, pool: seq<Deferred>): (r: Case)
    requires InRange(inputs, |pool|)
    ensures Returned(r) && r.inputs == inputs && |r.pool| == |pool|
  {
    if Single(inputs) then Untouched(inputs, pool)
    else
      var c := AttachAll(Untouched(inputs, pool));
      if c.remaining == 0 then c.(master := Settle(c.master, true, c.values)) else c
  }

  // ---------- afterwards ----------

  /** Anything done to a Deferred of the page, from inside callbacks or not, and anything done with the
      master's promise: it can be listened to and its callbacks return, but it cannot be settled. */
  datatype Event = On(which: nat, a: D.Action) | OnMaster(a: D.Action)

  function Next(c: Case, e: Event): (r: Case)
    requires Returned(c)
    ensures Returned(r) && r.inputs == c.inputs && |r.pool| == |c.pool|
  {
    match e
    case On(w, a) =>
      if w >= |c.pool| then c
      else
        var p := c.(pool := c.pool[w := D.Step(c.pool[w], a)]);
        if Single(c.inputs) then p else HearFrom(p, 0)
    case OnMaster(a) =>
      if Single(c.inputs) || a.Resolve? || a.Reject? then c else c.(master := D.Step(c.master, a))
  }

  function Follow(c: Case, events: seq<Event>): (r: Case)
    requires Returned(c)
    ensures Returned(r) && r.inputs == c.inputs && |r.pool| == |c.pool|
    decreases |events|
  {
    if events == [] then c else Follow(Next(c, events[0]), events[1..])
  }
}
