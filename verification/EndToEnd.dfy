/** Two streams joined by a network: every interleaving of writes, flushes, deliveries and reads.
    The steps are the effects that the contracts of OFMessageAsyncStream state. */
module EndToEnd {
  import opened Frames
  import opened AsyncStream

  /** `buffered`: the writer's output buffer; `wire`: everything ever sent; `flight`: sent, not yet read;
      `held`: the reader's input buffer; `written`, of which the first `flushed` have left the buffer;
      `delivered`: every message returned by a read. */
  datatype Link<M> = Link(
    buffered: seq<byte>,
    wire: seq<byte>,
    flight: seq<byte>,
    held: seq<byte>,
    written: seq<M>,
    flushed: nat,
    delivered: seq<M>)

  datatype Action<M> =
    | WriteMessage(m: M)
    | FlushOut
    | ReadSome(count: nat, limit: int)   // a read that the socket answers with `count` bytes
    | ReadPending                        // a read answered by -1 while the connection is pending

  function Start<M>(): Link<M> {
    Link([], [], [], [], [], 0, [])
  }

  ghost predicate Enabled<M(!new)>(s: Link<M>, a: Action<M>) {
    a.ReadSome? ==> a.count <= |s.flight| && |s.held| + a.count <= BUFFER_SIZE
  }

  /** The writer's buffer goes out whole. */
  function SendAll<M>(s: Link<M>): Link<M> {
    s.(buffered := [], wire := s.wire + s.buffered, flight := s.flight + s.buffered, flushed := |s.written|)
  }

  /** The next state, or nothing when the read raises an IOException. */
  ghost function Next<M(!new)>(c: Codec<M>, s: Link<M>, a: Action<M>): (r: seq<Link<M>>)
    requires c.Lawful() && Enabled(s, a)
    ensures |r| <= 1
  {
    match a
    case WriteMessage(m) =>
      assert c.WritesFrame(m);
      var (out, kept) := AfterWrite(s.buffered, c.Encoding(m));
      [s.(buffered := kept, wire := s.wire + out, flight := s.flight + out, written := s.written + [m],
          flushed := if out == [] then s.flushed else |s.written|)]
    case FlushOut =>
      [SendAll(s)]
    case ReadSome(n, limit) =>
      var p := Parse(c, s.held + s.flight[..n], limit, 0);
      if p.ok then [s.(flight := s.flight[n..], held := p.rest, delivered := s.delivered + p.msgs)] else []
    case ReadPending => [s]
  }

  /** The states reached by running `actions` from `s`; empty once a read has failed or an action was
      not possible. */
  ghost function Run<M(!new)>(c: Codec<M>, s: Link<M>, actions: seq<Action<M>>): (r: seq<Link<M>>)
    requires c.Lawful()
    ensures |r| <= 1
    decreases |actions|
  {
    if actions == [] then [s]
    else if !Enabled(s, actions[0]) then []
    else
      var n := Next(c, s, actions[0]);
      if n == [] then [] else Run(c, n[0], actions[1..])
  }

  /** What holds throughout: the bytes past the writer's buffer decode to exactly the flushed messages
      not yet delivered, and the buffer holds exactly the rest. */
  ghost predicate Inv<M(!new)>(c: Codec<M>, s: Link<M>)
    requires c.Lawful()
  {
    && s.flushed <= |s.written|
    && s.buffered == c.EncodeAll(s.written[s.flushed..])
    && |s.buffered| <= BUFFER_SIZE && |s.held| <= BUFFER_SIZE
    && Accounted(c, s.delivered, s.held + s.flight, s.written[..s.flushed])
  }

  /** `sent` is exactly the messages delivered and then those that `b` encodes. */
  ghost predicate Accounted<M(!new)>(c: Codec<M>, delivered: seq<M>, b: seq<byte>, sent: seq<M>)
    requires c.Lawful()
  {
    Prepend(delivered, DecodeAll(c, b)) == Decoded(sent, [], true)
  }

  /** More whole messages arriving behind a fully decodable byte string are decoded behind it. */
  lemma {:induction false} SendMore<M(!new)>(c: Codec<M>, delivered: seq<M>, b: seq<byte>, sent: seq<M>, more: seq<M>)
    requires c.Lawful()
    requires Accounted(c, delivered, b, sent)
    ensures Accounted(c, delivered, b + c.EncodeAll(more), sent + more)
  {
    ParseThenResume(c, b, c.EncodeAll(more), 0, 0);
    DecodeInvertsEncode(c, more);
    assert [] + c.EncodeAll(more) == c.EncodeAll(more);
    PrependTwice(delivered, DecodeAll(c, b).msgs, DecodeAll(c, c.EncodeAll(more)));
  }

  lemma ConcatAssociates<T>(a: seq<T>, b: seq<T>, c: seq<T>)
    ensures a + (b + c) == a + b + c
  {
  }

  lemma SplitAndJoin<T>(s: seq<T>, k: nat)
    requires k <= |s|
    ensures s[..k] + s[k..] == s == s[..|s|] && s[|s|..] == []
  {
  }

  lemma {:induction false} FlushKeeps<M(!new)>(c: Codec<M>, s: Link<M>)
    requires c.Lawful() && Inv(c, s)
    ensures Inv(c, SendAll(s))
  {
    var t := SendAll(s);
    var early, late := s.written[..s.flushed], s.written[s.flushed..];
    SendMore(c, s.delivered, s.held + s.flight, early, late);
    ConcatAssociates(s.held, s.flight, s.buffered);
    SplitAndJoin(s.written, s.flushed);
    assert c.EncodeAll([]) == [];
  }

  lemma {:induction false} WriteKeeps<M(!new)>(c: Codec<M>, s: Link<M>, m: M)
    requires c.Lawful() && Inv(c, s)
    ensures var a := WriteMessage(m); Next(c, s, a) != [] && Inv(c, Next(c, s, a)[0])
  {
    assert c.WritesFrame(m);
    EncodeOne(c, m);
    if |s.buffered| + |c.Encoding(m)| <= BUFFER_SIZE {
      BufferedKeeps(c, s, m);
    } else {
      ForcedKeeps(c, s, m);
    }
  }

  lemma EncodeOne<M(!new)>(c: Codec<M>, m: M)
    requires c.Lawful()
    ensures c.WritesFrame(m) && c.EncodeAll([m]) == c.Encoding(m)
  {
    assert c.WritesFrame(m);
    assert [m][1..] == [] && c.EncodeAll([]) == [];
  }

  /** The message fits behind those in the buffer. */
  lemma {:induction false} BufferedKeeps<M(!new)>(c: Codec<M>, s: Link<M>, m: M)
    requires c.Lawful() && Inv(c, s) && c.WritesFrame(m) && |s.buffered| + |c.Encoding(m)| <= BUFFER_SIZE
    ensures Inv(c, Next(c, s, WriteMessage(m))[0])
  {
    EncodeOne(c, m);
    EncodeAllConcat(c, s.written[s.flushed..], [m]);
    OneMoreWritten(s.written, s.flushed, m);
    assert s.flight + [] == s.flight;
  }

  lemma OneMoreWritten<M>(written: seq<M>, k: nat, m: M)
    requires k <= |written|
    ensures (written + [m])[k..] == written[k..] + [m] && (written + [m])[..k] == written[..k]
    ensures (written + [m])[|written|..] == [m] && (written + [m])[..|written|] == written
  {
  }

  /** It does not: the buffer goes out first, as in a flush. */
  lemma {:induction false} ForcedKeeps<M(!new)>(c: Codec<M>, s: Link<M>, m: M)
    requires c.Lawful() && Inv(c, s) && c.WritesFrame(m) && |s.buffered| + |c.Encoding(m)| > BUFFER_SIZE
    ensures Inv(c, Next(c, s, WriteMessage(m))[0])
  {
    EncodeOne(c, m);
    FlushKeeps(c, s);
    SplitAndJoin(s.written, |s.written|);
    OneMoreWritten(s.written, s.flushed, m);
    assert s.buffered != [];
  }

  lemma {:induction false} ReadKeeps<M(!new)>(c: Codec<M>, s: Link<M>, n: nat, limit: int)
    requires c.Lawful() && Inv(c, s) && Enabled(s, Action<M>.ReadSome(n, limit))
    ensures var a := ReadSome(n, limit); Next(c, s, a) != [] && Inv(c, Next(c, s, a)[0])
  {
    var b, more := s.held + s.flight[..n], s.flight[n..];
    assert s.held + s.flight == b + more;
    ParseThenResume(c, b, more, limit, 0);
    var p := Parse(c, b, limit, 0);
    PrependTwice(s.delivered, p.msgs, DecodeAll(c, p.rest + more));
  }

  // ---------- conservation on the sending side ----------

  /** The bytes sent followed by the bytes buffered are the encodings of everything written. */
  ghost predicate Conserved<M(!new)>(c: Codec<M>, s: Link<M>)
    requires c.Lawful()
  {
    s.wire + s.buffered == c.EncodeAll(s.written) && |s.buffered| <= BUFFER_SIZE
  }

  lemma {:induction false} WriteConserves<M(!new)>(c: Codec<M>, s: Link<M>, m: M)
    requires c.Lawful() && Conserved(c, s)
    ensures Conserved(c, Next(c, s, WriteMessage(m))[0])
  {
    EncodeOne(c, m);
    AfterWriteConserves(s.buffered, c.Encoding(m));
    var (out, kept) := AfterWrite(s.buffered, c.Encoding(m));
    ConcatAssociates(s.wire, out, kept);
    ConcatAssociates(s.wire, s.buffered, c.Encoding(m));
    EncodeAllConcat(c, s.written, [m]);
  }

  lemma NextConserves<M(!new)>(c: Codec<M>, s: Link<M>, a: Action<M>)
    requires c.Lawful() && Conserved(c, s) && Enabled(s, a)
    ensures Next(c, s, a) != [] ==> Conserved(c, Next(c, s, a)[0])
  {
    match a
    case WriteMessage(m) => WriteConserves(c, s, m);
    case FlushOut => assert s.wire + s.buffered + [] == s.wire + s.buffered;
    case _ =>
  }

  /** So it is in every state of every run, with any codec that writes frames. */
  lemma {:induction false} RunConserves<M(!new)>(c: Codec<M>, s: Link<M>, actions: seq<Action<M>>)
    requires c.Lawful() && Conserved(c, s)
    ensures forall t :: t in Run(c, s, actions) ==> Conserved(c, t)
    decreases |actions|
  {
    if actions != [] && Enabled(s, actions[0]) {
      NextConserves(c, s, actions[0]);
      if Next(c, s, actions[0]) != [] {
        RunConserves(c, Next(c, s, actions[0])[0], actions[1..]);
      }
    }
  }

  /** In particular from the start. */
  lemma {:induction false} AlwaysConserved<M(!new)>(c: Codec<M>, actions: seq<Action<M>>, t: Link<M>)
    requires c.Lawful() && t in Run(c, Start(), actions)
    ensures t.wire + t.buffered == c.EncodeAll(t.written)
  {
    assert Conserved(c, Start<M>()) by {
      var none: seq<byte> := []; assert none + none == none;
    }
    RunConserves(c, Start(), actions);
  }

  // ---------- every run ----------

  /** No step of any interleaving breaks the invariant, and no read ever fails. */
  lemma {:induction false} RunKeeps<M(!new)>(c: Codec<M>, s: Link<M>, actions: seq<Action<M>>)
    requires c.Lawful() && Inv(c, s)
    ensures forall t :: t in Run(c, s, actions) ==> Inv(c, t)
    decreases |actions|
  {
    if actions != [] && Enabled(s, actions[0]) {
      match actions[0] {
        case WriteMessage(m) => WriteKeeps(c, s, m);
        case FlushOut => FlushKeeps(c, s);
        case ReadSome(n, limit) => ReadKeeps(c, s, n, limit);
        case ReadPending =>
      }
      RunKeeps(c, Next(c, s, actions[0])[0], actions[1..]);
    }
  }

  lemma StartInv<M(!new)>(c: Codec<M>)
    requires c.Lawful()
    ensures Inv(c, Start<M>())
  {
    assert Start<M>().written[0..] == [];
    var none: seq<byte> := [];
    assert none + none == none;
  }

  lemma NonEmptyEncoding<M(!new)>(c: Codec<M>, ms: seq<M>)
    requires c.Lawful() && ms != []
    ensures c.EncodeAll(ms) != []
  {
    assert c.WritesFrame(ms[0]);
  }

  /** Round trip. In every run: what has been delivered is a prefix of what was flushed; no read can
      fail; and once everything sent has been read by a pass that stopped for want of a whole frame,
      the deliveries are exactly the flushed messages, in order, and nothing is held. */
  lemma {:induction false} EndToEndRoundTrip<M(!new)>(c: Codec<M>, actions: seq<Action<M>>, t: Link<M>)
    requires c.Lawful() && t in Run(c, Start(), actions)
    ensures t.flushed <= |t.written| && t.delivered <= t.written[..t.flushed]
    ensures forall n: nat, limit: int ::
              Enabled(t, Action<M>.ReadSome(n, limit)) ==> Next(c, t, ReadSome(n, limit)) != []
    ensures t.flight == [] && !HasFrame(t.held) ==> t.delivered == t.written[..t.flushed] && t.held == []
    ensures t.buffered == [] && t.flight == [] && !HasFrame(t.held) ==> t.delivered == t.written
  {
    StartInv(c);
    RunKeeps(c, Start(), actions);
    forall n: nat, limit: int | Enabled(t, Action<M>.ReadSome(n, limit))
      ensures Next(c, t, ReadSome(n, limit)) != []
    {
      ReadKeeps(c, t, n, limit);
    }
    if t.flight == [] && !HasFrame(t.held) {
      assert t.held + t.flight == t.held;
    }
    if t.buffered == [] {
      if t.flushed < |t.written| { NonEmptyEncoding(c, t.written[t.flushed..]); }
    }
    assert t.buffered == [] ==> t.written[..t.flushed] == t.written;
  }

  // ---------- reading on ----------

  /** Every step is a read with limit 0. */
  predicate ReadsOnly<M>(actions: seq<Action<M>>) {
    forall i :: 0 <= i < |actions| ==> actions[i].ReadSome? && actions[i].limit == 0
  }

  /** One read of as much as there is room for. */
  lemma {:induction false} ReadMore<M(!new)>(c: Codec<M>, s: Link<M>) returns (n: nat, t: Link<M>)
    requires c.Lawful() && Inv(c, s)
    ensures var a := Action<M>.ReadSome(n, 0); Enabled(s, a) && Next(c, s, a) == [t]
    ensures Inv(c, t) && t.written == s.written && t.flushed == s.flushed && t.flight == s.flight[n..]
    ensures !HasFrame(t.held) && |t.held| <= BUFFER_SIZE - 2
    ensures |s.held| < BUFFER_SIZE && s.flight != [] ==> n > 0
  {
    n := if |s.flight| <= BUFFER_SIZE - |s.held| then |s.flight| else BUFFER_SIZE - |s.held|;
    ReadKeeps(c, s, n, 0);
    t := Next(c, s, ReadSome(n, 0))[0];
    RemainderHasNoFrame(c, s.held + s.flight[..n], 0);
  }

  /** With everything sent read and no frame held, all flushed messages have been delivered. */
  lemma {:induction false} AllRead<M(!new)>(c: Codec<M>, s: Link<M>)
    requires c.Lawful() && Inv(c, s) && s.flight == [] && !HasFrame(s.held)
    ensures s.delivered == s.written[..s.flushed] && s.held == []
  {
    assert s.held + s.flight == s.held;
  }

  lemma {:induction false} ReadsToTheEnd<M(!new)>(c: Codec<M>, s: Link<M>)
    returns (actions: seq<Action<M>>, t: Link<M>)
    requires c.Lawful() && Inv(c, s) && !HasFrame(s.held) && |s.held| < BUFFER_SIZE
    ensures ReadsOnly(actions) && Run(c, s, actions) == [t]
    ensures t.written == s.written && t.delivered == s.written[..s.flushed] && t.flight == [] && t.held == []
    decreases |s.flight|
  {
    if s.flight == [] {
      AllRead(c, s);
      actions, t := [], s;
    } else {
      var n, next := ReadMore(c, s);
      var more;
      more, t := ReadsToTheEnd(c, next);
      actions := [ReadSome(n, 0)] + more;
      assert actions[1..] == more;
    }
  }

  /** From every reachable state reading can go on to the end: some reads with limit 0 deliver every flushed
      message and leave nothing held or on the way. */
  lemma {:induction false} ReadingCompletes<M(!new)>(c: Codec<M>, early: seq<Action<M>>, s: Link<M>)
    returns (actions: seq<Action<M>>, t: Link<M>)
    requires c.Lawful() && s in Run(c, Start(), early)
    ensures ReadsOnly(actions) && Run(c, s, actions) == [t]
    ensures t.written == s.written && s.flushed <= |s.written| && t.delivered == s.written[..s.flushed]
    ensures t.flight == [] && t.held == []
  {
    StartInv(c);
    RunKeeps(c, Start(), early);
    var n, next := ReadMore(c, s);
    var more;
    more, t := ReadsToTheEnd(c, next);
    actions := [ReadSome(n, 0)] + more;
    assert actions[1..] == more;
  }

  // ---------- any bytes at all ----------

  /** One read: the chunk the socket delivers and the limit asked for. */
  datatype Arrival = Arrival(chunk: seq<byte>, limit: int)

  function Received(arrivals: seq<Arrival>): seq<byte> {
    if arrivals == [] then [] else arrivals[0].chunk + Received(arrivals[1..])
  }

  /** Successive reads from `held`; `ok` is false once one of them has failed. */
  ghost function ReadAll<M(!new)>(c: Codec<M>, held: seq<byte>, arrivals: seq<Arrival>): Decoded<M>
    requires c.Lawful()
    decreases |arrivals|
  {
    if arrivals == [] then Decoded([], held, true)
    else
      var p := Parse(c, held + arrivals[0].chunk, arrivals[0].limit, 0);
      if p.ok then Prepend(p.msgs, ReadAll(c, p.rest, arrivals[1..])) else p
  }

  /** Fragmentation and limits do not matter, whatever the bytes are: successive reads followed by one
      unlimited pass over what is still held give what decoding all the bytes at once gives, and they
      fail exactly when that fails. */
  lemma {:induction false} FragmentationIndependence<M(!new)>(c: Codec<M>, held: seq<byte>, arrivals: seq<Arrival>)
    requires c.Lawful()
    ensures var r := ReadAll(c, held, arrivals); var whole := DecodeAll(c, held + Received(arrivals));
            && (r.ok ==> whole == Prepend(r.msgs, DecodeAll(c, r.rest)))
            && (!r.ok ==> !whole.ok && whole.msgs == r.msgs)
    decreases |arrivals|
  {
    if arrivals == [] {
      assert held + [] == held;
      PrependTwice([], [], DecodeAll(c, held));
    } else {
      var b, more := held + arrivals[0].chunk, Received(arrivals[1..]);
      assert held + Received(arrivals) == b + more;
      ParseThenResume(c, b, more, arrivals[0].limit, 0);
      var p := Parse(c, b, arrivals[0].limit, 0);
      if p.ok {
        FragmentationIndependence(c, p.rest, arrivals[1..]);
        var r := ReadAll(c, p.rest, arrivals[1..]);
        if r.ok { PrependTwice(p.msgs, r.msgs, DecodeAll(c, r.rest)); }
      }
    }
  }

  /** With limit 0 throughout, the reads themselves give the whole decoding, the buffer holds exactly
      the undecoded suffix, and that is at most 65534 bytes, so the next read always has room. */
  lemma {:induction false} UnlimitedReadsDecodeAll<M(!new)>(c: Codec<M>, arrivals: seq<Arrival>)
    requires c.Lawful()
    requires forall a :: a in arrivals ==> a.limit == 0
    ensures var r := ReadAll(c, [], arrivals); var whole := DecodeAll(c, Received(arrivals));
            r.ok == whole.ok && r.msgs == whole.msgs && (r.ok ==> r.rest == whole.rest && |r.rest| <= BUFFER_SIZE - 2)
  {
    var r := ReadAll(c, [], arrivals);
    FragmentationIndependence(c, [], arrivals);
    assert [] + Received(arrivals) == Received(arrivals);
    if r.ok { UnlimitedLeavesNoFrame(c, [], arrivals); }
  }

  lemma {:induction false} UnlimitedLeavesNoFrame<M(!new)>(c: Codec<M>, held: seq<byte>, arrivals: seq<Arrival>)
    requires c.Lawful() && ReadAll(c, held, arrivals).ok && !HasFrame(held)
    requires forall a :: a in arrivals ==> a.limit == 0
    ensures var rest := ReadAll(c, held, arrivals).rest;
            !HasFrame(rest) && |rest| <= BUFFER_SIZE - 2 && DecodeAll(c, rest) == Decoded([], rest, true)
    decreases |arrivals|
  {
    if arrivals != [] {
      RemainderHasNoFrame(c, held + arrivals[0].chunk, 0);
      UnlimitedLeavesNoFrame(c, Parse(c, held + arrivals[0].chunk, 0, 0).rest, arrivals[1..]);
    }
  }
}
