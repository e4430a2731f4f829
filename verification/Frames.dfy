/** The byte-level vocabulary of the OpenFlow stream: the fixed header, the messages' sequential
    writers, the abstract codec, and the reference decoder of a byte stream. */
module Frames {

  type byte = b: int | 0 <= b < 256

  const HEADER_LENGTH: nat := 8
  const BUFFER_SIZE: nat := 65536

  // ---------- Java integers ----------

  /** The value of a two-byte big-endian Java `short`, which is signed. */
  function SignedShort(hi: byte, lo: byte): int {
    if hi < 128 then 256 * hi + lo else 256 * hi + lo - 65536
  }

  /** `U16.f`: the unsigned reading of a `short`, as `s & 0xffff`. */
  function U16(s: int): nat {
    s % 65536
  }

  /** The low `width` bytes of an integer, most significant first: a narrowing Java cast followed by
      a big-endian `put`. */
  function BigEndian(value: int, width: nat): (b: seq<byte>)
    ensures |b| == width
    decreases width
  {
    if width == 0 then [] else BigEndian(value / 256, width - 1) + [value % 256]
  }

  /** A length written with `setShort` is the length the header reader sees, for every value that fits
      sixteen bits, although both sides go through a signed `short`. */
  lemma {:induction false} ShortRoundTrip(n: nat)
    requires n < 65536
    ensures var b := BigEndian(n, 2); U16(SignedShort(b[0], b[1])) == n
  {
    assert BigEndian(n, 2) == BigEndian(n / 256, 1) + [n % 256];
    assert BigEndian(n / 256, 1) == BigEndian(n / 256 / 256, 0) + [n / 256 % 256];
  }

  /** The number that bytes write, most significant first. */
  function FromBytes(b: seq<byte>): nat {
    if b == [] then 0 else 256 * FromBytes(b[..|b| - 1]) + b[|b| - 1]
  }

  function Pow256(k: nat): (p: nat)
    ensures p >= 1
  {
    if k == 0 then 1 else 256 * Pow256(k - 1)
  }

  /** Reading the bytes back gives the integer, up to a multiple of what they can hold. */
  lemma {:induction false} BigEndianReadsBack(value: int, width: nat) returns (over: int)
    ensures value == over * Pow256(width) + FromBytes(BigEndian(value, width))
    ensures FromBytes(BigEndian(value, width)) < Pow256(width)
    decreases width
  {
    if width == 0 {
      over := value;
    } else {
      over := BigEndianReadsBack(value / 256, width - 1);
      var b := BigEndian(value, width);
      assert b[..width - 1] == BigEndian(value / 256, width - 1) && b[width - 1] == value % 256;
      LastByte(value, over, Pow256(width - 1), FromBytes(BigEndian(value / 256, width - 1)));
    }
  }

  lemma LastByte(value: int, over: int, p: nat, front: nat)
    requires value / 256 == over * p + front && front < p
    ensures value == over * (256 * p) + (256 * front + value % 256) && 256 * front + value % 256 < 256 * p
  {
    assert value == 256 * (value / 256) + value % 256;
  }

  // ---------- message writers ----------

  /** One call a message writer makes on the output buffer. Offsets of `SetShort` count from the
      writer index at which the message began. */
  datatype WriteOp =
    | WriteByte(value: int)
    | WriteShort(value: int)
    | WriteInt(value: int)
    | WriteLong(value: int)
    | WriteBytes(bytes: seq<byte>)
    | WriteZero(count: nat)
    | SetShort(offset: nat, value: int)

  /** The bytes an operation appends. */
  function Appended(op: WriteOp): seq<byte> {
    match op
    case WriteByte(v) => BigEndian(v, 1)
    case WriteShort(v) => BigEndian(v, 2)
    case WriteInt(v) => BigEndian(v, 4)
    case WriteLong(v) => BigEndian(v, 8)
    case WriteBytes(bs) => bs
    case WriteZero(n) => seq(n, _ => 0)
    case SetShort(_, _) => []
  }

  /** Each operation appends as many bytes as its name says, and they hold the value written. */
  lemma {:induction false} AppendedHolds(v: int, bs: seq<byte>, n: nat)
    ensures |Appended(WriteByte(v))| == 1 && |Appended(WriteShort(v))| == 2
    ensures |Appended(WriteInt(v))| == 4 && |Appended(WriteLong(v))| == 8
    ensures 0 <= v < Pow256(1) ==> FromBytes(Appended(WriteByte(v))) == v
    ensures 0 <= v < Pow256(2) ==> FromBytes(Appended(WriteShort(v))) == v
    ensures 0 <= v < Pow256(4) ==> FromBytes(Appended(WriteInt(v))) == v
    ensures 0 <= v < Pow256(8) ==> FromBytes(Appended(WriteLong(v))) == v
    ensures Appended(WriteBytes(bs)) == bs
    ensures |Appended(WriteZero(n))| == n && FromBytes(Appended(WriteZero(n))) == 0
  {
    FitsReadsBack(v, 1);
    FitsReadsBack(v, 2);
    FitsReadsBack(v, 4);
    FitsReadsBack(v, 8);
    ZerosAreZero(n);
  }

  lemma FitsReadsBack(v: int, width: nat)
    ensures 0 <= v < Pow256(width) ==> FromBytes(BigEndian(v, width)) == v
  {
    var over := BigEndianReadsBack(v, width);
    if 0 <= v < Pow256(width) { NothingOver(v, over, Pow256(width), FromBytes(BigEndian(v, width))); }
  }

  lemma NothingOver(v: int, over: int, p: nat, rest: nat)
    requires v == over * p + rest && rest < p && 0 <= v < p
    ensures rest == v
  {
    AtLeastOnce(over, p);
  }

  lemma AtLeastOnce(k: int, p: nat)
    ensures k >= 1 ==> k * p >= p
    ensures k <= -1 ==> k * p + p <= 0
  {
  }

  lemma {:induction false} ZerosAreZero(n: nat)
    ensures FromBytes(seq(n, _ => 0)) == 0
  {
    if n > 0 {
      ZerosAreZero(n - 1);
      var zeros: seq<byte> := seq(n, _ => 0);
      assert zeros[..n - 1] == seq(n - 1, _ => 0);
    }
  }

  /** `s` with `patch` written over the bytes from `at` on. */
  function Overwrite(s: seq<byte>, at: nat, patch: seq<byte>): (r: seq<byte>)
    requires at + |patch| <= |s|
    ensures |r| == |s|
    ensures forall i :: 0 <= i < |s| ==> r[i] == if at <= i < at + |patch| then patch[i - at] else s[i]
  {
    s[..at] + patch + s[at + |patch|..]
  }

  /** The effect of one operation on the bytes written so far. */
  function Apply(op: WriteOp, done: seq<byte>): seq<byte>
    requires op.SetShort? ==> op.offset + 2 <= |done|
  {
    if op.SetShort? then Overwrite(done, op.offset, BigEndian(op.value, 2)) else done + Appended(op)
  }

  /** A writer only patches what it has already written. */
  predicate PatchesBehind(ops: seq<WriteOp>, done: nat) {
    ops != [] ==>
      && (ops[0].SetShort? ==> ops[0].offset + 2 <= done)
      && PatchesBehind(ops[1..], done + |Appended(ops[0])|)
  }

  /** The bytes left by a writer that starts with `done` and never runs out of room. */
  function Written(ops: seq<WriteOp>, done: seq<byte>): (r: seq<byte>)
    requires PatchesBehind(ops, |done|)
    ensures |r| >= |done|
    decreases |ops|
  {
    if ops == [] then done else Written(ops[1..], Apply(ops[0], done))
  }

  /** One operation done, and the rest still to do. */
  lemma {:induction false} WrittenTurn(ops: seq<WriteOp>, done: seq<byte>)
    requires ops != [] && PatchesBehind(ops, |done|)
    ensures ops[0].SetShort? ==> ops[0].offset + 2 <= |done|
    ensures |Apply(ops[0], done)| == |done| + |Appended(ops[0])| <= |Written(ops, done)|
    ensures var more := Apply(ops[0], done);
            PatchesBehind(ops[1..], |more|) && Written(ops, done) == Written(ops[1..], more)
  {
  }

  // ---------- headers and codecs ----------

  /** The length field of the header at the front of `b`, as OFHeader reads it (section 5.1 of the
      OpenFlow Switch Specification 1.0.0: bytes 2 and 3). */
  function DeclaredLength(b: seq<byte>): (n: nat)
    requires |b| >= HEADER_LENGTH
    ensures n < 65536
  {
    U16(SignedShort(b[2], b[3]))
  }

  /** Whether a whole frame is at the front of `b`. */
  predicate HasFrame(b: seq<byte>) {
    |b| >= HEADER_LENGTH && DeclaredLength(b) <= |b|
  }

  /** What the generic message reader makes of the readable bytes: a message, `null`, or an exception. */
  datatype Outcome<+M> = Parsed(msg: M) | Malformed | Thrown

  /** The generated OpenFlow codec, kept abstract. `consumed` is how far the reader moves the buffer;
      nothing below relies on it. */
  datatype Codec<!M(!new)> = Codec(
    writer: M -> seq<WriteOp>,
    decode: seq<byte> -> Outcome<M>,
    consumed: seq<byte> -> nat)
  {
    ghost function Encoding(m: M): seq<byte>
      requires PatchesBehind(writer(m), 0)
    {
      Written(writer(m), [])
    }

    /** What one message's writer promises: a frame of 8 to 65535 bytes that declares its own size. */
    ghost predicate WritesFrame(m: M) {
      && PatchesBehind(writer(m), 0)
      && HEADER_LENGTH <= |Encoding(m)| < 65536
      && DeclaredLength(Encoding(m)) == |Encoding(m)|
    }

    /** What the reader promises about the readable bytes `b`: it looks at the first frame only, and
        refuses a declared length shorter than a header. */
    ghost predicate ReadsFrame(b: seq<byte>) {
      HasFrame(b) ==>
        && decode(b) == decode(b[..DeclaredLength(b)])
        && (DeclaredLength(b) < HEADER_LENGTH ==> !decode(b).Parsed?)
    }

    ghost predicate Lawful() {
      && (forall m: M {:trigger WritesFrame(m)} :: WritesFrame(m) && decode(Encoding(m)) == Parsed(m))
      && (forall b {:trigger ReadsFrame(b)} :: ReadsFrame(b))
    }

    ghost function EncodeAll(ms: seq<M>): seq<byte>
      requires Lawful()
    {
      if ms == [] then [] else assert WritesFrame(ms[0]); Encoding(ms[0]) + EncodeAll(ms[1..])
    }
  }

  // ---------- the reference decoder ----------

  /** Messages cut from the front of a byte string, the bytes left, and whether no frame was refused. */
  datatype Decoded<+M> = Decoded(msgs: seq<M>, rest: seq<byte>, ok: bool)

  /** Cut frames while the loop condition `limit == 0 || got <= limit` holds, `got` being the messages
      already collected. */
  ghost function Parse<M(!new)>(c: Codec<M>, b: seq<byte>, limit: int, got: nat): (r: Decoded<M>)
    requires c.Lawful()
    ensures |r.rest| <= |b|
    decreases |b|
  {
    if (limit == 0 || got <= limit) && HasFrame(b) then
      assert c.ReadsFrame(b);
      var n := DeclaredLength(b);
      match c.decode(b)
      case Parsed(m) =>
        var r := Parse(c, b[n..], limit, got + 1);
        Decoded([m] + r.msgs, r.rest, r.ok)
      case _ => Decoded([], b[n..], false)
    else
      Decoded([], b, true)
  }

  /** Decode everything at once. */
  ghost function DecodeAll<M(!new)>(c: Codec<M>, b: seq<byte>): Decoded<M>
    requires c.Lawful()
  {
    Parse(c, b, 0, 0)
  }

  /** Put messages back in front of a decoding. */
  ghost function Prepend<M>(ms: seq<M>, d: Decoded<M>): Decoded<M> {
    Decoded(ms + d.msgs, d.rest, d.ok)
  }

  /** With limit 0 the count of messages collected plays no part. */
  lemma {:induction false} UnlimitedIgnoresCount<M(!new)>(c: Codec<M>, b: seq<byte>, got: nat)
    requires c.Lawful()
    ensures Parse(c, b, 0, got) == DecodeAll(c, b)
    decreases |b|
  {
    if HasFrame(b) {
      assert c.ReadsFrame(b);
      if c.decode(b).Parsed? {
        UnlimitedIgnoresCount(c, b[DeclaredLength(b)..], got + 1);
        UnlimitedIgnoresCount(c, b[DeclaredLength(b)..], 1);
      }
    }
  }

  /** One turn of the loop over a frame that parses. */
  lemma ParseStep<M(!new)>(c: Codec<M>, b: seq<byte>, limit: int, got: nat)
    requires c.Lawful() && HasFrame(b) && (limit == 0 || got <= limit)
    ensures DeclaredLength(b) <= |b|
    ensures var n := DeclaredLength(b);
            if c.decode(b).Parsed?
            then n >= HEADER_LENGTH
                 && Parse(c, b, limit, got) == Prepend([c.decode(b).msg], Parse(c, b[n..], limit, got + 1))
            else Parse(c, b, limit, got) == Decoded([], b[n..], false)
  {
    assert c.ReadsFrame(b);
  }

  /** Appending bytes behind a whole frame does not change what the frame decodes to. */
  lemma FrameIsLocal<M(!new)>(c: Codec<M>, b: seq<byte>, more: seq<byte>)
    requires c.Lawful() && HasFrame(b)
    ensures var n := DeclaredLength(b);
            HasFrame(b + more) && DeclaredLength(b + more) == n && c.decode(b + more) == c.decode(b)
            && (b + more)[n..] == b[n..] + more
  {
    assert c.ReadsFrame(b) && c.ReadsFrame(b + more);
    assert (b + more)[..DeclaredLength(b)] == b[..DeclaredLength(b)];
  }

  lemma PrependTwice<M>(a: seq<M>, b: seq<M>, d: Decoded<M>)
    ensures Prepend(a, Prepend(b, d)) == Prepend(a + b, d)
  {
    assert a + (b + d.msgs) == a + b + d.msgs;
  }

  /** The loop invariant of the parser: the messages collected so far, followed by what is still to be
      parsed, are what the whole pass gives. */
  ghost predicate OnTheWay<M(!new)>(c: Codec<M>, whole: Decoded<M>, results: seq<M>, b: seq<byte>, limit: int)
    requires c.Lawful()
  {
    whole == Prepend(results, Parse(c, b, limit, |results|))
  }

  lemma ParseTurn<M(!new)>(c: Codec<M>, whole: Decoded<M>, results: seq<M>, b: seq<byte>, limit: int)
    requires c.Lawful() && OnTheWay(c, whole, results, b, limit) && (limit == 0 || |results| <= limit)
    ensures !HasFrame(b) ==> whole == Decoded(results, b, true)
    ensures HasFrame(b) ==> DeclaredLength(b) <= |b|
    ensures HasFrame(b) && c.decode(b).Parsed? ==>
              DeclaredLength(b) >= HEADER_LENGTH
              && OnTheWay(c, whole, results + [c.decode(b).msg], b[DeclaredLength(b)..], limit)
    ensures HasFrame(b) && !c.decode(b).Parsed? ==> !whole.ok
  {
    if HasFrame(b) {
      ParseStep(c, b, limit, |results|);
      if c.decode(b).Parsed? {
        PrependTwice(results, [c.decode(b).msg], Parse(c, b[DeclaredLength(b)..], limit, |results| + 1));
      }
    }
  }

  /** Stopping early and resuming later loses and repeats nothing: for every limit and every later
      arrival `more`, decoding all the bytes gives the messages of the limited pass followed by what
      decoding its remainder together with `more` gives. */
  lemma {:induction false} ParseThenResume<M(!new)>(c: Codec<M>, b: seq<byte>, more: seq<byte>, limit: int, got: nat)
    requires c.Lawful()
    ensures var r := Parse(c, b, limit, got);
            if r.ok then DecodeAll(c, b + more) == Prepend(r.msgs, DecodeAll(c, r.rest + more))
            else !DecodeAll(c, b + more).ok && DecodeAll(c, b + more).msgs == r.msgs
    decreases |b|
  {
    if (limit == 0 || got <= limit) && HasFrame(b) {
      var n := DeclaredLength(b);
      ParseStep(c, b, limit, got);
      FrameIsLocal(c, b, more);
      ParseStep(c, b + more, 0, 0);
      if c.decode(b).Parsed? {
        var tail := Parse(c, b[n..], limit, got + 1);
        ParseThenResume(c, b[n..], more, limit, got + 1);
        UnlimitedIgnoresCount(c, b[n..] + more, 1);
        PrependTwice([c.decode(b).msg], tail.msgs, DecodeAll(c, tail.rest + more));
      }
    } else {
      PrependTwice([], [], DecodeAll(c, b + more));
    }
  }

  /** How many messages a limited pass returns: `limit + 1` when that many are there, one more than
      the interface documents. */
  lemma {:induction false} LimitCount<M(!new)>(c: Codec<M>, b: seq<byte>, limit: int, got: nat)
    requires c.Lawful() && limit > 0 && Parse(c, b, limit, got).ok
    ensures var all := |DecodeAll(c, b).msgs|; var room := if got <= limit then limit + 1 - got else 0;
            |Parse(c, b, limit, got).msgs| == if all <= room then all else room
    decreases |b|
  {
    if got <= limit && HasFrame(b) {
      assert c.ReadsFrame(b);
      LimitCount(c, b[DeclaredLength(b)..], limit, got + 1);
      UnlimitedIgnoresCount(c, b[DeclaredLength(b)..], 1);
    }
  }

  /** The documented bound, at most `limit` messages, holds exactly when no more than `limit` whole
      messages are buffered. */
  lemma {:induction false} DocumentedLimitIffFewBuffered<M(!new)>(c: Codec<M>, b: seq<byte>, limit: int)
    requires c.Lawful() && limit > 0 && Parse(c, b, limit, 0).ok
    ensures |Parse(c, b, limit, 0).msgs| <= limit <==> |DecodeAll(c, b).msgs| <= limit
    ensures |Parse(c, b, limit, 0).msgs| <= limit + 1
  {
    LimitCount(c, b, limit, 0);
  }

  /** And it does fail: a pass with limit `limit` over more than `limit` encoded messages returns one
      message too many. */
  lemma {:induction false} DocumentedLimitExceeded<M(!new)>(c: Codec<M>, ms: seq<M>, limit: int)
    requires c.Lawful() && 0 < limit < |ms|
    ensures var r := Parse(c, c.EncodeAll(ms), limit, 0); r.ok && |r.msgs| == limit + 1
  {
    var b := c.EncodeAll(ms);
    DecodeInvertsEncode(c, ms);
    assert b + [] == b;
    ParseThenResume(c, b, [], limit, 0);
    LimitCount(c, b, limit, 0);
  }

  /** With a negative limit the loop is not entered. */
  lemma NegativeLimitTakesNothing<M(!new)>(c: Codec<M>, b: seq<byte>, limit: int)
    requires c.Lawful() && limit < 0
    ensures Parse(c, b, limit, 0) == Decoded([], b, true)
  {
  }

  /** A pass that may take at least one message takes one, or fails, whenever a frame is there. */
  lemma {:induction false} ParseMakesProgress<M(!new)>(c: Codec<M>, b: seq<byte>, limit: int)
    requires c.Lawful() && limit >= 0
    ensures var r := Parse(c, b, limit, 0); HasFrame(b) <==> (r.msgs != [] || !r.ok)
  {
    assert c.ReadsFrame(b);
  }

  /** An unlimited pass leaves less than a frame, so a 65536-byte buffer always has room to read. */
  lemma {:induction false} RemainderHasNoFrame<M(!new)>(c: Codec<M>, b: seq<byte>, got: nat)
    requires c.Lawful() && Parse(c, b, 0, got).ok
    ensures var rest := Parse(c, b, 0, got).rest;
            !HasFrame(rest) && |rest| <= BUFFER_SIZE - 2 && DecodeAll(c, rest) == Decoded([], rest, true)
    ensures exists k :: 0 <= k <= |b| && Parse(c, b, 0, got).rest == b[k..]
    decreases |b|
  {
    if HasFrame(b) {
      assert c.ReadsFrame(b);
      var n := DeclaredLength(b);
      RemainderHasNoFrame(c, b[n..], got + 1);
      var k :| 0 <= k <= |b[n..]| && Parse(c, b, 0, got).rest == b[n..][k..];
      assert b[n..][k..] == b[n + k..];
    } else {
      assert b == b[0..];
    }
  }

  /** An encoded message in front is one frame, and decodes to itself. */
  lemma EncodedFront<M(!new)>(c: Codec<M>, m: M, tail: seq<byte>)
    requires c.Lawful()
    ensures c.WritesFrame(m)
    ensures var b := c.Encoding(m) + tail;
            && HasFrame(b) && DeclaredLength(b) == |c.Encoding(m)|
            && c.decode(b) == Parsed(m) && b[DeclaredLength(b)..] == tail
  {
    assert c.WritesFrame(m);
    FrameIsLocal(c, c.Encoding(m), tail);
    assert c.Encoding(m)[|c.Encoding(m)|..] + tail == tail;
  }

  /** Decoding inverts encoding, for every list of messages. */
  lemma {:induction false} DecodeInvertsEncode<M(!new)>(c: Codec<M>, ms: seq<M>)
    requires c.Lawful()
    ensures DecodeAll(c, c.EncodeAll(ms)) == Decoded(ms, [], true)
  {
    if ms != [] {
      var tail := c.EncodeAll(ms[1..]);
      EncodedFront(c, ms[0], tail);
      ParseStep(c, c.Encoding(ms[0]) + tail, 0, 0);
      DecodeInvertsEncode(c, ms[1..]);
      UnlimitedIgnoresCount(c, tail, 1);
      HeadAndTail(ms);
    }
  }

  lemma HeadAndTail<T>(s: seq<T>)
    requires s != []
    ensures [s[0]] + s[1..] == s
  {
  }

  lemma {:induction false} EncodeAllConcat<M(!new)>(c: Codec<M>, a: seq<M>, b: seq<M>)
    requires c.Lawful()
    ensures c.EncodeAll(a + b) == c.EncodeAll(a) + c.EncodeAll(b)
  {
    if a == [] {
      assert a + b == b;
    } else {
      FirstOfBoth(a, b);
      assert c.WritesFrame(a[0]);
      EncodeAllConcat(c, a[1..], b);
      Regroup(c.Encoding(a[0]), c.EncodeAll(a[1..]), c.EncodeAll(b));
    }
  }

  lemma FirstOfBoth<T>(a: seq<T>, b: seq<T>)
    requires a != []
    ensures (a + b)[0] == a[0] && (a + b)[1..] == a[1..] + b
  {
  }

  lemma Regroup<T>(a: seq<T>, b: seq<T>, c: seq<T>)
    ensures a + b + c == a + (b + c)
  {
  }
}
