/** The two socket buffers and the socket they talk to. Each buffer keeps the indices of the
    `java.nio.ByteBuffer` it wraps as fields of its own. */
module ChannelBuffers {
  import opened Frames

  /** A non-blocking socket: it moves as many bytes as it likes, and may fail. */
  class SocketChannel {
    var incoming: seq<byte>       // arrived, not read yet
    var wire: seq<byte>           // accepted for sending
    var connectionPending: bool
    var ended: bool               // a read reports -1: end of stream, or not connected yet
    var broken: bool              // an I/O error has been raised
    var idle: nat                 // progress assumption: how many more reads may bring nothing of what arrived
    var patience: nat             // and how many more sends may accept nothing in a row

    constructor ()
      ensures incoming == [] && wire == [] && !broken
    {
      incoming, wire, connectionPending, ended, broken, idle, patience := [], [], *, *, false, *, *;
    }

    /** Read at most `space` bytes. */
    method Receive(space: nat) returns (n: int, chunk: seq<byte>)
      modifies this`incoming, this`idle
      ensures n == -1 <==> ended
      ensures n == -1 ==> chunk == [] && incoming == old(incoming)
      ensures n != -1 ==> 0 <= n == |chunk| <= space && old(incoming) == chunk + incoming
      ensures n == 0 && space > 0 && incoming != [] ==> idle < old(idle)
    {
      if ended {
        return -1, [];
      }
      var most := if space <= |incoming| then space else |incoming|;
      n := *;
      n := if 0 <= n <= most then n else most;
      if n == 0 && most > 0 {
        if idle == 0 { n := 1; } else { idle := idle - 1; }
      }
      if n > 0 { idle := *; }
      chunk, incoming := incoming[..n], incoming[n..];
    }

    /** Offer `bytes`; `n` of them are taken, or an I/O error is raised and none is. */
    method Send(bytes: seq<byte>) returns (n: nat, failed: bool)
      modifies this`wire, this`patience, this`broken
      ensures n <= |bytes| && wire == old(wire) + bytes[..n]
      ensures failed ==> n == 0
      ensures failed == broken && (old(broken) ==> broken)
      ensures !failed && n == 0 && bytes != [] ==> patience < old(patience)
    {
      if * {
        broken := true;
      }
      if broken {
        return 0, true;
      }
      failed := false;
      var taken: int := *;
      n := if 0 <= taken <= |bytes| then taken else |bytes|;
      if n == 0 && bytes != [] {
        if patience == 0 { n := 1; } else { patience := patience - 1; }
      }
      if n > 0 { patience := *; }
      wire := wire + bytes[..n];
    }
  }

  class SocketReadByteChannelBuffer {
    const data: array<byte>
    var position: nat
    var limit: nat
    var mark: int  // -1 when undefined

    ghost predicate Valid()
      reads this
    {
      position <= limit <= data.Length && -1 <= mark <= position
    }

    /** Ready to take bytes from the socket behind the ones it already holds. */
    ghost predicate Filling()
      reads this
    {
      Valid() && limit == data.Length
    }

    /** In fill mode, the bytes held over from earlier reads. */
    ghost function Held(): seq<byte>
      requires Valid()
      reads this, data
    {
      data[..position]
    }

    /** In drain mode, the bytes still to be parsed. */
    function Readable(): seq<byte>
      requires Valid()
      reads this, data
    {
      data[position..limit]
    }

    constructor (capacity: nat)
      ensures Filling() && fresh(data) && data.Length == capacity && Held() == []
    {
      data := new byte[capacity](_ => 0);
      position, limit, mark := 0, capacity, -1;
    }

    /** Take bytes from the socket; on success the buffer is flipped into drain mode. */
    method Read(socket: SocketChannel) returns (ret: int)
      requires Filling()
      modifies this, data, socket`incoming, socket`idle
      ensures Valid() && ret >= -1 && (ret == -1 <==> socket.ended)
      ensures ret == 0 && |old(Held())| < data.Length && socket.incoming != [] ==> socket.idle < old(socket.idle)
      ensures ret == -1 ==> Filling() && Held() == old(Held()) && socket.incoming == old(socket.incoming)
      ensures ret >= 0 ==> position == 0 && limit == old(position) + ret
      ensures ret >= 0 ==> ret <= |old(socket.incoming)| && socket.incoming == old(socket.incoming)[ret..]
      ensures ret >= 0 ==> Readable() == old(Held()) + old(socket.incoming)[..ret]
    {
      var chunk;
      ret, chunk := socket.Receive(limit - position);
      if ret >= 0 {
        assert old(socket.incoming)[..ret] == chunk && old(socket.incoming)[ret..] == socket.incoming;
        forall i | 0 <= i < |chunk| {
          data[position + i] := chunk[i];
        }
        limit, position, mark := position + ret, 0, -1;
        assert data[0..limit] == old(Held()) + chunk;
      }
    }

    method MarkReaderIndex()
      requires Valid()
      modifies this`mark
      ensures Valid() && mark == position
    {
      mark := position;
    }

    method ResetReaderIndex()
      requires Valid() && mark >= 0
      modifies this`position
      ensures Valid() && position == mark
    {
      position := mark;
    }

    /** `ByteBuffer.position(int)` drops a mark that would lie ahead of the new position. */
    method SetReaderIndex(index: nat)
      requires Valid() && index <= limit
      modifies this`position, this`mark
      ensures Valid() && position == index && mark == if old(mark) > index then -1 else old(mark)
    {
      position := index;
      if mark > position { mark := -1; }
    }

    method ReadByte() returns (b: byte)
      requires Valid() && position < limit
      modifies this`position
      ensures Valid() && position == old(position) + 1 && b == data[old(position)]
    {
      b := data[position];
      position := position + 1;
    }

    method ReadShort() returns (s: int)
      requires Valid() && position + 2 <= limit
      modifies this`position
      ensures Valid() && position == old(position) + 2
      ensures s == SignedShort(data[old(position)], data[old(position) + 1])
    {
      var hi := ReadByte();
      var lo := ReadByte();
      s := SignedShort(hi, lo);
    }

    /** Shift the unread bytes to the front and return to fill mode (`ByteBuffer.compact`). */
    method DiscardReadBytes()
      requires Valid()
      modifies this, data
      ensures Filling() && Held() == old(Readable())
    {
      var n := limit - position;
      forall i | 0 <= i < n {
        data[i] := data[position + i];
      }
      position, limit, mark := n, data.Length, -1;
    }

    /** Forget everything and return to fill mode; with nothing left to read this is what
        `DiscardReadBytes` does. */
    method Clear()
      requires Valid()
      modifies this
      ensures Filling() && Held() == []
      ensures old(Readable()) == [] ==> Held() == old(Readable())
    {
      position, limit, mark := 0, data.Length, -1;
    }
  }

  class SocketWriteByteChannelBuffer {
    const data: array<byte>
    var position: nat
    var limit: nat

    ghost predicate Valid()
      reads this
    {
      position <= limit == data.Length
    }

    /** The bytes waiting to be flushed. */
    ghost function Pending(): seq<byte>
      requires Valid()
      reads this, data
    {
      data[..position]
    }

    constructor (capacity: nat)
      ensures Valid() && fresh(data) && data.Length == capacity && Pending() == []
    {
      data := new byte[capacity](_ => 0);
      position, limit := 0, capacity;
    }

    /** Append `bytes` whole, or refuse (IndexOutOfBoundsException) and change nothing. */
    method Put(bytes: seq<byte>) returns (ok: bool)
      requires Valid()
      modifies this`position, data
      ensures Valid() && ok == (old(position) + |bytes| <= data.Length)
      ensures Pending() == if ok then old(Pending()) + bytes else old(Pending())
    {
      ok := |bytes| <= limit - position;
      if ok {
        forall i | 0 <= i < |bytes| {
          data[position + i] := bytes[i];
        }
        position := position + |bytes|;
      }
    }

    /** Append `count` zero bytes one at a time, after one check for all of them. */
    method PutZero(count: nat) returns (ok: bool)
      requires Valid()
      modifies this`position, data
      ensures Valid() && ok == (old(position) + count <= data.Length)
      ensures Pending() == if ok then old(Pending()) + seq(count, _ => 0) else old(Pending())
    {
      if limit - position < count {
        return false;
      }
      for i := 0 to count
        invariant Valid() && position == old(position) + i
        invariant Pending() == old(Pending()) + seq(i, _ => 0)
      {
        var _ := Put([0]);
      }
      ok := true;
    }

    /** Overwrite two bytes at an absolute index, pending or not, or refuse (IndexOutOfBoundsException)
        and change nothing. */
    method PutShortAt(index: int, value: int) returns (ok: bool)
      requires Valid()
      modifies data
      ensures ok == (0 <= index && index + 2 <= limit)
      ensures data[..] == if ok then Overwrite(old(data[..]), index, BigEndian(value, 2)) else old(data[..])
      ensures 0 <= index && index + 2 <= position ==>
                Pending() == Overwrite(old(Pending()), index, BigEndian(value, 2))
    {
      ok := 0 <= index && index + 2 <= limit;
      if ok {
        var b := BigEndian(value, 2);
        data[index], data[index + 1] := b[0], b[1];
      }
    }

    /** Move the writer index anywhere up to the limit, or refuse (IllegalArgumentException). */
    method SetWriterIndex(index: int) returns (ok: bool)
      requires Valid()
      modifies this`position
      ensures Valid() && ok == (0 <= index <= limit)
      ensures position == if ok then index else old(position)
      ensures 0 <= index <= old(position) ==> Pending() == old(Pending())[..index]
    {
      ok := 0 <= index <= limit;
      if ok {
        position := index;
      }
    }

    method Clear()
      requires position <= limit <= data.Length
      modifies this
      ensures Valid() && Pending() == []
    {
      position, limit := 0, data.Length;
    }

    /** Flip, then offer the rest again and again until all of it is taken. An I/O error ends the
        loop with a prefix sent. */
    method Write(sock: SocketChannel) returns (ret: nat, failed: bool)
      requires Valid()
      modifies this, sock`wire, sock`patience, sock`broken
      ensures position <= limit == old(position) == ret
      ensures failed == sock.broken && (old(sock.broken) ==> failed)
      ensures exists k :: 0 <= k <= ret && sock.wire == old(sock.wire) + old(Pending())[..k] && (!failed ==> k == ret)
    {
      limit, position := position, 0;
      ret := limit - position;
      var n;
      n, failed := sock.Send(data[position..limit]);
      position := position + n;
      while !failed && limit - position > 0
        invariant position <= limit == old(position) == ret && failed == sock.broken
        invariant sock.wire == old(sock.wire) + old(Pending())[..position]
        decreases !failed, limit - position, sock.patience
      {
        ghost var before := position;
        n, failed := sock.Send(data[position..limit]);
        position := position + n;
        assert data[before..limit] == old(Pending())[before..];
        SentMore(old(Pending()), before, n);
      }
    }
  }

  lemma SentMore(s: seq<byte>, before: nat, n: nat)
    requires before + n <= |s|
    ensures s[..before] + s[before..][..n] == s[..before + n]
  {
  }
}
