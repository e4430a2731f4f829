/** Two streams at work: a writer and a reader on either side of a network. The objects go through the
    states of EndToEnd, whatever the script asks for and however the sockets behave. */
module Session {
  import opened Frames
  import opened ChannelBuffers
  import opened AsyncStream
  import opened EndToEnd

  /** What happens next: the writer buffers a message or flushes, the network carries along what has been
      sent, or the reader reads. */
  datatype Event<M> = Send(m: M) | Flush | Carry | Receive(limit: int)

  lemma {:induction false} RunOneMore<M(!new)>(c: Codec<M>, s: Link<M>, actions: seq<Action<M>>, a: Action<M>)
    requires c.Lawful() && Run(c, s, actions) != [] && Enabled(Run(c, s, actions)[0], a)
    ensures Run(c, s, actions + [a]) == Next(c, Run(c, s, actions)[0], a)
    decreases |actions|
  {
    if actions == [] {
      assert actions + [a] == [a];
      assert [a][1..] == [];
    } else {
      assert (actions + [a])[1..] == actions[1..] + [a];
      RunOneMore(c, Next(c, s, actions[0])[0], actions[1..], a);
    }
  }

  class Conversation<M(!new)> {
    const writer: OFMessageAsyncStream<M>
    const reader: OFMessageAsyncStream<M>
    var carried: nat                 // how much of the wire has reached the reader's socket
    var delivered: seq<M>            // everything the reads returned
    ghost var actions: seq<Action<M>>
    ghost var link: Link<M>

    ghost predicate Distinct()
      reads writer, reader
    {
      && writer.Wired() && reader.Wired() && writer.codec == reader.codec
      && writer.sock != reader.sock && writer.outBuf.data != reader.inBuf.data
    }

    /** The objects are in the state `link`, which the steps taken so far lead to. */
    ghost predicate Valid()
      reads this, writer, writer.outBuf, writer.outBuf.data, writer.sock
      reads reader, reader.inBuf, reader.inBuf.data, reader.sock
    {
      && Distinct()
      && writer.outBuf.Valid() && reader.inBuf.Filling() && carried <= |writer.sock.wire|
      && Run(writer.codec, Start(), actions) == [link]
      && link.buffered == writer.outBuf.Pending() && link.wire == writer.sock.wire
      && writer.sock.wire + writer.outBuf.Pending() == writer.codec.EncodeAll(link.written)
      && link.flight == reader.sock.incoming + writer.sock.wire[carried..]
      && link.held == reader.inBuf.Held()
      && link.delivered == delivered
    }

    constructor (codec: Codec<M>)
      requires codec.Lawful()
      ensures Valid() && delivered == [] && link == Start() && writer.codec == codec
    {
      var here := new SocketChannel();
      var there := new SocketChannel();
      writer := new OFMessageAsyncStream(codec, here);
      reader := new OFMessageAsyncStream(codec, there);
      carried, delivered, actions, link := 0, [], [], Start();
    }

    /** Record a step. */
    ghost method Record(a: Action<M>)
      requires writer.codec.Lawful() && Run(writer.codec, Start(), actions) == [link] && Enabled(link, a)
      requires Next(writer.codec, link, a) != []
      modifies this`actions, this`link
      ensures Run(writer.codec, Start(), actions) == [link]
      ensures [link] == Next(writer.codec, old(link), a)
      ensures link.wire + link.buffered == writer.codec.EncodeAll(link.written)
    {
      RunOneMore(writer.codec, Start(), actions, a);
      link := Next(writer.codec, link, a)[0];
      actions := actions + [a];
      AlwaysConserved(writer.codec, actions, link);
    }

    /** The write step of the link. */
    method SendMessage(m: M) returns (failed: bool)
      requires Valid()
      modifies this, writer.outBuf, writer.outBuf.data, writer.sock
      ensures !failed ==> Valid() && [link] == Next(writer.codec, old(link), WriteMessage(m))
      ensures failed ==> writer.sock.broken
    {
      failed := writer.Write(m);
      if !failed {
        var (out, kept) := AfterWrite(old(writer.outBuf.Pending()), writer.codec.Encoding(m));
        WireGrows(reader.sock.incoming, old(writer.sock.wire), out, carried);
        Record(WriteMessage(m));
      }
    }

    /** The flush step of the link. */
    method FlushOut() returns (failed: bool)
      requires Valid()
      modifies this, writer.outBuf, writer.sock
      ensures !failed ==> Valid() && [link] == Next(writer.codec, old(link), Action.FlushOut)
      ensures failed == writer.sock.broken
    {
      failed := writer.Flush();
      if !failed {
        WireGrows(reader.sock.incoming, old(writer.sock.wire), old(writer.outBuf.Pending()), carried);
        Record(Action.FlushOut);
      }
    }

    /** The network delivers what has been sent so far. */
    method CarryOver()
      requires Valid()
      modifies this`carried, reader.sock`incoming
      ensures Valid() && carried == |writer.sock.wire|
    {
      reader.sock.incoming := reader.sock.incoming + writer.sock.wire[carried..];
      carried := |writer.sock.wire|;
      assert reader.sock.incoming + writer.sock.wire[carried..] == reader.sock.incoming;
    }

    /** The read step of the link for some number of bytes; a pending connection reads nothing and
        changes nothing. */
    method ReceiveSome(limit: int) returns (failed: bool)
      requires Valid()
      modifies this, reader.inBuf, reader.inBuf.data, reader.sock`incoming, reader.sock`idle
      ensures !failed ==> Valid()
      ensures !failed ==> Moved(old(link), limit)
      ensures failed == (reader.sock.ended && !reader.sock.connectionPending)
    {
      var r;
      ghost var chunk;
      r, chunk := ReadSocket(limit);
      match r {
        case Messages(msgs) =>
          delivered := delivered + msgs;
          ReadStep(writer.codec, link, chunk, reader.sock.incoming, writer.sock.wire[carried..], limit,
                   Decoded(msgs, reader.inBuf.Held(), true));
          assert Reads(link, |chunk|, limit);
          Record(ReadSome(|chunk|, limit));
          failed := false;
        case Pending => failed := false;
        case IOFailure => failed := true;
      }
    }

    /** What reading does to the reader; the link has not taken its step yet. */
    method ReadSocket(limit: int) returns (r: ReadResult<M>, ghost chunk: seq<byte>)
      requires Valid()
      modifies reader.inBuf, reader.inBuf.data, reader.sock`incoming, reader.sock`idle
      ensures r.IOFailure? <==> reader.sock.ended && !reader.sock.connectionPending
      ensures r.Pending? ==> Valid()
      ensures r.Messages? ==>
                && reader.inBuf.Filling() && |link.held| + |chunk| <= BUFFER_SIZE
                && link.flight == chunk + reader.sock.incoming + writer.sock.wire[carried..]
                && Parse(writer.codec, link.held + chunk, limit, 0) == Decoded(r.msgs, reader.inBuf.Held(), true)
    {
      ghost var rest := writer.sock.wire[carried..];
      r, chunk := reader.Read(limit);
      assert writer.sock.wire[carried..] == rest;
      TakenFromFlight(old(reader.sock.incoming), chunk, reader.sock.incoming, rest);
      if !reader.sock.ended {
        NothingRefused(writer.codec, actions, link, chunk, reader.sock.incoming, rest, limit);
      }
    }

    /** From `s` the link has taken a read step, or none because the connection is pending. */
    ghost predicate Moved(s: Link<M>, limit: int)
      requires writer.codec.Lawful()
      reads this
    {
      link == s || exists n: nat :: Reads(s, n, limit) && [link] == Next(writer.codec, s, ReadSome(n, limit))
    }

    /** The socket may answer a read with `n` bytes. */
    ghost predicate Reads(s: Link<M>, n: nat, limit: int) {
      Enabled(s, Action<M>.ReadSome(n, limit))
    }

    /** Nothing is buffered, on the way, or complete and unread. */
    ghost predicate Drained()
      requires Valid()
      reads this, writer, writer.outBuf, writer.outBuf.data, writer.sock
      reads reader, reader.inBuf, reader.inBuf.data, reader.sock
    {
      && writer.outBuf.Pending() == [] && carried == |writer.sock.wire| && reader.sock.incoming == []
      && !HasFrame(reader.inBuf.Held())
    }

    /** The writer's socket has raised an error, or the reader's has come to its end. */
    predicate Down()
      reads writer.sock, reader.sock
    {
      writer.sock.broken || (reader.sock.ended && !reader.sock.connectionPending)
    }

    method Do(event: Event<M>) returns (failed: bool)
      requires Valid()
      modifies this, writer.outBuf, writer.outBuf.data, writer.sock, reader.inBuf, reader.inBuf.data, reader.sock
      ensures !failed ==> Valid() && link.written == old(link.written) + (if event.Send? then [event.m] else [])
      ensures failed ==> Down()
    {
      match event
      case Send(m) => failed := SendMessage(m);
      case Flush => failed := FlushOut();
      case Carry => CarryOver(); failed := false;
      case Receive(limit) => failed := ReceiveSome(limit);
    }

    /** Play a script to its end, or to the first I/O failure. Whatever it says, and however the bytes are
        split, what the reads have returned is a prefix of the messages written; and when nothing is left
        in any buffer or on the way, it is all of them. */
    method Play(script: seq<Event<M>>) returns (ok: bool)
      requires Valid()
      modifies this, writer.outBuf, writer.outBuf.data, writer.sock, reader.inBuf, reader.inBuf.data, reader.sock
      ensures ok ==> Valid() && link.written == old(link.written) + Sent(script)
      ensures ok ==> delivered <= link.written
      ensures ok && Drained() ==> delivered == link.written && reader.inBuf.Held() == []
      ensures !ok ==> Down()
    {
      for i := 0 to |script|
        invariant Valid() && link.written == old(link.written) + Sent(script[..i])
      {
        SentOneMore(script, i);
        var failed := Do(script[i]);
        if failed {
          return false;
        }
      }
      assert script[..|script|] == script;
      Conclude();
      return true;
    }

    /** What the round trip says of the live objects. */
    lemma Conclude()
      requires Valid()
      ensures delivered <= link.written
      ensures Drained() ==> delivered == link.written && reader.inBuf.Held() == []
    {
      EndToEndRoundTrip(writer.codec, actions, link);
      if Drained() {
        assert link.flight == [];
      }
    }
  }

  /** The messages a script writes. */
  function Sent<M>(script: seq<Event<M>>): seq<M> {
    if script == [] then []
    else Sent(script[..|script| - 1]) + if script[|script| - 1].Send? then [script[|script| - 1].m] else []
  }

  lemma WireGrows(incoming: seq<byte>, wire: seq<byte>, out: seq<byte>, carried: nat)
    requires carried <= |wire|
    ensures incoming + (wire + out)[carried..] == incoming + wire[carried..] + out
  {
  }

  lemma SentOneMore<M>(script: seq<Event<M>>, i: nat)
    requires i < |script|
    ensures Sent(script[..i + 1]) == Sent(script[..i]) + if script[i].Send? then [script[i].m] else []
  {
    assert script[..i + 1][..i] == script[..i];
  }

  /** No read of a conversation is refused a frame. */
  lemma NothingRefused<M(!new)>(c: Codec<M>, actions: seq<Action<M>>, link: Link<M>, chunk: seq<byte>,
                                incoming: seq<byte>, rest: seq<byte>, limit: int)
    requires c.Lawful() && Run(c, Start(), actions) == [link]
    requires link.flight == chunk + incoming + rest && |link.held| + |chunk| <= BUFFER_SIZE
    ensures Parse(c, link.held + chunk, limit, 0).ok
  {
    EndToEndRoundTrip(c, actions, link);
    ChunkTaken(link.flight, chunk, incoming, rest);
    assert Enabled(link, Action<M>.ReadSome(|chunk|, limit));
  }

  lemma TakenFromFlight(before: seq<byte>, chunk: seq<byte>, incoming: seq<byte>, rest: seq<byte>)
    requires before == chunk + incoming
    ensures before + rest == chunk + incoming + rest
    ensures chunk == [] ==> before == incoming
  {
  }

  lemma ChunkTaken(flight: seq<byte>, chunk: seq<byte>, incoming: seq<byte>, rest: seq<byte>)
    requires flight == chunk + incoming + rest
    ensures |chunk| <= |flight| && flight[..|chunk|] == chunk && flight[|chunk|..] == incoming + rest
  {
  }

  /** A successful read is a read step. */
  lemma ReadStep<M(!new)>(c: Codec<M>, link: Link<M>, chunk: seq<byte>, incoming: seq<byte>, rest: seq<byte>,
                          limit: int, p: Decoded<M>)
    requires c.Lawful() && link.flight == chunk + incoming + rest && |link.held| + |chunk| <= BUFFER_SIZE
    requires Parse(c, link.held + chunk, limit, 0) == p && p.ok
    ensures var a := Action<M>.ReadSome(|chunk|, limit);
            Enabled(link, a) && Next(c, link, a) ==
              [link.(flight := incoming + rest, held := p.rest, delivered := link.delivered + p.msgs)]
  {
    ChunkTaken(link.flight, chunk, incoming, rest);
  }
}
