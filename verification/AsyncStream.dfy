/** OFMessageAsyncStream: framed reading and buffered writing of OpenFlow messages over one socket. */
module AsyncStream {
  import opened Frames
  import opened ChannelBuffers

  datatype ReadResult<+M> =
    | Messages(msgs: seq<M>)
    | Pending       // null: the connection is not established yet
    | IOFailure     // the connection is to be dropped

  /** What buffering one more encoded message does: (bytes forced out, bytes left in the buffer). */
  function AfterWrite(buffered: seq<byte>, encoding: seq<byte>): (seq<byte>, seq<byte>) {
    if |buffered| + |encoding| <= BUFFER_SIZE then ([], buffered + encoding) else (buffered, encoding)
  }

  /** Buffering conserves bytes and order, and an encoding that can fit an empty buffer always ends up
      in one piece within the capacity. */
  lemma AfterWriteConserves(buffered: seq<byte>, encoding: seq<byte>)
    requires |encoding| <= BUFFER_SIZE && |buffered| <= BUFFER_SIZE
    ensures var (out, kept) := AfterWrite(buffered, encoding);
            && out + kept == buffered + encoding && |kept| <= BUFFER_SIZE && (out == [] || out == buffered)
            && (|buffered + encoding| <= BUFFER_SIZE <==> out == [])
  {
    assert [] + (buffered + encoding) == buffered + encoding;
  }

  lemma AppendBehind(before: seq<byte>, done: seq<byte>, more: seq<byte>)
    ensures before + done + more == before + (done + more)
  {
  }

  lemma PatchBehind(before: seq<byte>, done: seq<byte>, offset: nat, patch: seq<byte>)
    requires offset + |patch| <= |done|
    ensures Overwrite(before + done, |before| + offset, patch) == before + Overwrite(done, offset, patch)
  {
  }

  class OFMessageAsyncStream<M(!new)> {
    const codec: Codec<M>
    const inBuf: SocketReadByteChannelBuffer
    const outBuf: SocketWriteByteChannelBuffer
    const sock: SocketChannel

    /** The parts are distinct and of the default size. */
    ghost predicate Sized() {
      && inBuf.data != outBuf.data
      && inBuf.data.Length == outBuf.data.Length == BUFFER_SIZE
    }

    ghost predicate Wired() {
      codec.Lawful() && Sized()
    }

    constructor (codec: Codec<M>, sock: SocketChannel)
      requires codec.Lawful()
      ensures Wired() && this.codec == codec && this.sock == sock
      ensures inBuf.Filling() && inBuf.Held() == [] && outBuf.Valid() && outBuf.Pending() == []
      ensures fresh(inBuf) && fresh(inBuf.data) && fresh(outBuf) && fresh(outBuf.data)
    {
      this.codec, this.sock := codec, sock;
      inBuf := new SocketReadByteChannelBuffer(BUFFER_SIZE);
      outBuf := new SocketWriteByteChannelBuffer(BUFFER_SIZE);
    }

    /** Read what the socket offers (`chunk`) and return the messages it completes. A socket that reports
        -1 answers `Pending` while its connection is being established and fails otherwise; any other read
        fails exactly when a frame is refused, and a read of nothing only if one is held. Every normal
        return, the pending one included, leaves the buffer in fill mode holding exactly the undecoded
        bytes. */
    method Read(limit: int) returns (r: ReadResult<M>, ghost chunk: seq<byte>)
      requires Wired() && inBuf.Filling()
      modifies inBuf, inBuf.data, sock`incoming, sock`idle
      ensures old(sock.incoming) == chunk + sock.incoming
      ensures sock.ended ==> chunk == [] && inBuf.Filling() && inBuf.Held() == old(inBuf.Held())
      ensures sock.ended ==> r == if sock.connectionPending then Pending else IOFailure
      ensures !sock.ended ==> !r.Pending? && |old(inBuf.Held())| + |chunk| <= BUFFER_SIZE
      ensures !sock.ended ==> (r.IOFailure? <==> !Parse(codec, old(inBuf.Held()) + chunk, limit, 0).ok)
      ensures !sock.ended && |old(inBuf.Held())| < BUFFER_SIZE && sock.incoming != [] ==>
                chunk != [] || sock.idle < old(sock.idle)
      ensures r.Messages? ==> !sock.ended && inBuf.Filling()
      ensures r.Messages? ==>
                Parse(codec, old(inBuf.Held()) + chunk, limit, 0) == Decoded(r.msgs, inBuf.Held(), true)
    {
      var read := inBuf.Read(sock);
      if read == -1 {
        chunk := [];
        if sock.connectionPending {
          return Pending, [];
        }
        return IOFailure, [];
      }
      chunk := old(sock.incoming)[..read];
      r := TakeMessages(limit);
    }

    /** Parse what is readable, then go back to fill mode. */
    method TakeMessages(limit: int) returns (r: ReadResult<M>)
      requires Wired() && inBuf.Valid()
      modifies inBuf, inBuf.data
      ensures !r.Pending? && (r.IOFailure? <==> !Parse(codec, old(inBuf.Readable()), limit, 0).ok)
      ensures r.Messages? ==> inBuf.Filling()
      ensures r.Messages? ==> Parse(codec, old(inBuf.Readable()), limit, 0) == Decoded(r.msgs, inBuf.Held(), true)
    {
      var ok, msgs := ParseMessages(limit);
      if !ok {
        return IOFailure;
      }
      if inBuf.position < inBuf.limit {
        inBuf.DiscardReadBytes();
      } else {
        inBuf.Clear();
      }
      r := Messages(msgs);
    }

    /** Cut and decode whole frames from the readable bytes; `!ok` is the IOException. */
    method ParseMessages(limit: int) returns (ok: bool, results: seq<M>)
      requires Wired() && inBuf.Valid()
      modifies inBuf`position, inBuf`mark
      ensures inBuf.Valid()
      ensures ok == Parse(codec, old(inBuf.Readable()), limit, 0).ok
      ensures ok ==> Parse(codec, old(inBuf.Readable()), limit, 0) == Decoded(results, inBuf.Readable(), true)
    {
      results := [];
      ghost var whole := Parse(codec, inBuf.Readable(), limit, 0);
      assert OnTheWay(codec, whole, results, inBuf.Readable(), limit);
      while limit == 0 || |results| <= limit
        invariant inBuf.Valid()
        invariant OnTheWay(codec, whole, results, inBuf.Readable(), limit)
        decreases inBuf.limit - inBuf.position
      {
        ParseTurn(codec, whole, results, inBuf.Readable(), limit);
        var complete, length := PeekLength();
        if !complete {
          break;
        }
        var outcome := DecodeFrame(length);
        match outcome
        case Parsed(msg) =>
          results := results + [msg];
        case _ =>
          return false, [];
      }
      ok := true;
    }

    /** Whether a whole frame is readable, and its declared length; the reader index does not move. */
    method PeekLength() returns (complete: bool, length: nat)
      requires inBuf.Valid()
      modifies inBuf`position, inBuf`mark
      ensures inBuf.Valid() && inBuf.position == old(inBuf.position)
      ensures complete == HasFrame(inBuf.Readable())
      ensures complete ==> length == DeclaredLength(inBuf.Readable())
    {
      length := 0;
      if inBuf.limit - inBuf.position < HEADER_LENGTH {
        return false, length;
      }
      inBuf.MarkReaderIndex();
      length := ReadHeader();
      inBuf.ResetReaderIndex();
      complete := length <= inBuf.limit - inBuf.position;
    }

    /** Decode the frame at the reader index, then move the index past the declared length wherever
        the decoder left it. */
    method DecodeFrame(length: nat) returns (outcome: Outcome<M>)
      requires inBuf.Valid() && length <= inBuf.limit - inBuf.position
      modifies inBuf`position, inBuf`mark
      ensures inBuf.Valid() && outcome == codec.decode(old(inBuf.Readable()))
      ensures inBuf.position == old(inBuf.position) + length
      ensures inBuf.Readable() == old(inBuf.Readable())[length..]
    {
      var start := inBuf.position;
      outcome := codec.decode(inBuf.Readable());
      var reached := start + codec.consumed(inBuf.Readable());
      inBuf.SetReaderIndex(if reached <= inBuf.limit then reached else inBuf.limit);
      inBuf.SetReaderIndex(start + length);
    }

    /** Read the eight header bytes and return the declared length, unsigned. */
    method ReadHeader() returns (length: nat)
      requires inBuf.Valid() && inBuf.limit - inBuf.position >= HEADER_LENGTH
      modifies inBuf`position
      ensures inBuf.Valid() && inBuf.position == old(inBuf.position) + HEADER_LENGTH
      ensures length == DeclaredLength(old(inBuf.Readable()))
    {
      var version := inBuf.ReadByte();
      var kind := inBuf.ReadByte();
      var short := inBuf.ReadShort();
      var xidHi := inBuf.ReadShort();
      var xidLo := inBuf.ReadShort();
      length := U16(short);
    }

    /** Buffer one message, flushing at most once to make room. Without an I/O error the socket and the
        buffer are exactly as `AfterWrite` says. */
    method Write(m: M) returns (failed: bool)
      requires Wired() && outBuf.Valid()
      modifies outBuf, outBuf.data, sock`wire, sock`patience, sock`broken
      ensures outBuf.Valid()
      ensures codec.WritesFrame(m)
      ensures failed == (AfterWrite(old(outBuf.Pending()), codec.Encoding(m)).0 != [] && sock.broken)
      ensures var (out, kept) := AfterWrite(old(outBuf.Pending()), codec.Encoding(m));
              && (!failed ==> sock.wire == old(sock.wire) + out && outBuf.Pending() == kept)
              && (failed ==> out != [] && outBuf.Pending() == [])
    {
      assert codec.WritesFrame(m);
      var writerIndex := outBuf.position;
      ghost var flushed := false;
      while true
        invariant outBuf.Valid()
        invariant !flushed ==> outBuf.Pending() == old(outBuf.Pending()) && sock.wire == old(sock.wire)
        invariant flushed ==> !sock.broken && outBuf.Pending() == []
        invariant flushed ==> sock.wire == old(sock.wire) + old(outBuf.Pending())
        invariant flushed ==> |old(outBuf.Pending())| + |codec.Encoding(m)| > BUFFER_SIZE
        decreases !flushed
      {
        var ok := WriteTo(m);
        if ok {
          break;
        }
        var _ := outBuf.SetWriterIndex(writerIndex);
        failed := Flush();
        if failed {
          return;
        }
        flushed := true;
      }
      failed := false;
    }

    /** Run the message's writer from the current writer index. It completes exactly when the whole
        encoding fits; otherwise what was pending before is still in front of what was added. */
    method WriteTo(m: M) returns (ok: bool)
      requires Sized() && outBuf.Valid() && codec.WritesFrame(m)
      modifies outBuf`position, outBuf.data
      ensures outBuf.Valid()
      ensures ok == (|old(outBuf.Pending())| + |codec.Encoding(m)| <= BUFFER_SIZE)
      ensures ok ==> outBuf.Pending() == old(outBuf.Pending()) + codec.Encoding(m)
      ensures old(outBuf.Pending()) <= outBuf.Pending()
    {
      ok := RunWriter(codec.writer(m));
    }

    method RunWriter(writer: seq<WriteOp>) returns (ok: bool)
      requires Sized() && outBuf.Valid() && PatchesBehind(writer, 0)
      modifies outBuf`position, outBuf.data
      ensures outBuf.Valid()
      ensures ok == (|old(outBuf.Pending())| + |Written(writer, [])| <= BUFFER_SIZE)
      ensures ok ==> outBuf.Pending() == old(outBuf.Pending()) + Written(writer, [])
      ensures old(outBuf.Pending()) <= outBuf.Pending()
    {
      var start, ops := outBuf.position, writer;
      ghost var before := outBuf.Pending();
      ghost var done: seq<byte> := [];
      while ops != []
        invariant outBuf.Valid() && start == |before|
        invariant outBuf.Pending() == before + done
        invariant PatchesBehind(ops, |done|) && Written(ops, done) == Written(writer, [])
        decreases |ops|
      {
        WrittenTurn(ops, done);
        ok := WriteOne(ops[0], start, before, done);
        if !ok {
          return;
        }
        done := Apply(ops[0], done);
        ops := ops[1..];
      }
      ok := true;
    }

    /** One write call of a message that began at `start`, behind the bytes `before`, and has written
        `done` so far. */
    method WriteOne(op: WriteOp, start: nat, ghost before: seq<byte>, ghost done: seq<byte>) returns (ok: bool)
      requires Sized() && outBuf.Valid() && start == |before| && outBuf.Pending() == before + done
      requires op.SetShort? ==> op.offset + 2 <= |done|
      modifies outBuf`position, outBuf.data
      ensures outBuf.Valid()
      ensures ok == (|before| + |done| + |Appended(op)| <= BUFFER_SIZE)
      ensures outBuf.Pending() == before + if ok then Apply(op, done) else done
    {
      AppendBehind(before, done, Appended(op));
      match op
      case SetShort(offset, v) =>
        PatchBehind(before, done, offset, BigEndian(v, 2));
        ok := outBuf.PutShortAt(start + offset, v);
      case WriteZero(n) =>
        ok := outBuf.PutZero(n);
      case _ =>
        ok := outBuf.Put(Appended(op));
    }

    /** Send everything buffered. The buffer is emptied even when the socket fails. */
    method Flush() returns (failed: bool)
      requires outBuf.Valid()
      modifies outBuf, sock`wire, sock`patience, sock`broken
      ensures outBuf.Valid() && outBuf.Pending() == []
      ensures failed == sock.broken && (old(sock.broken) ==> failed)
      ensures exists k :: 0 <= k <= |old(outBuf.Pending())|
                && sock.wire == old(sock.wire) + old(outBuf.Pending())[..k]
      ensures !failed ==> sock.wire == old(sock.wire) + old(outBuf.Pending())
    {
      var sent;
      sent, failed := outBuf.Write(sock);
      assert old(outBuf.Pending())[..sent] == old(outBuf.Pending());
      outBuf.Clear();
    }
  }
}
