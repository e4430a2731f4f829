/** A codec that meets the laws: it keeps the body as bytes, writes a zero length first and patches it
    with `setShort` at the end, the way the generated writers do. It shows that the laws assumed of the
    codec can be met together. */
module RawCodec {
  import opened Frames

  datatype RawFrame = RawFrame(version: byte, kind: byte, xid: seq<byte>, body: seq<byte>)

  type Raw = r: RawFrame | |r.xid| == 4 && |r.body| <= 65527 witness RawFrame(1, 0, [0, 0, 0, 0], [])

  function Writer(m: Raw): seq<WriteOp> {
    [WriteByte(m.version), WriteByte(m.kind), WriteShort(0), WriteBytes(m.xid), WriteBytes(m.body),
     SetShort(2, HEADER_LENGTH + |m.body|)]
  }

  function Decode(b: seq<byte>): Outcome<Raw> {
    if !HasFrame(b) || DeclaredLength(b) < HEADER_LENGTH then Malformed
    else
      var n := DeclaredLength(b);
      Parsed(RawFrame(b[0], b[1], b[4..8], b[8..n]))
  }

  function TheCodec(): Codec<Raw> {
    Codec(Writer, Decode, b => 0)
  }

  lemma OneByte(v: byte)
    ensures BigEndian(v, 1) == [v]
  {
    assert BigEndian(v / 256, 0) == [];
  }

  lemma {:induction false} WrittenStep(ops: seq<WriteOp>, k: nat, done: seq<byte>)
    requires k < |ops| && (ops[k].SetShort? ==> ops[k].offset + 2 <= |done|)
    requires PatchesBehind(ops[k + 1..], |Apply(ops[k], done)|)
    ensures PatchesBehind(ops[k..], |done|)
    ensures Written(ops[k..], done) == Written(ops[k + 1..], Apply(ops[k], done))
  {
    assert ops[k..][1..] == ops[k + 1..];
    assert |Apply(ops[k], done)| == |done| + |Appended(ops[k])|;
  }

  /** The header and the length field are in place and the rest is still to be written. */
  lemma {:induction false} WriterTail(m: Raw, b3: seq<byte>)
    requires |b3| == 4
    ensures PatchesBehind(Writer(m)[3..], |b3|)
    ensures Written(Writer(m)[3..], b3) == b3[..2] + BigEndian(HEADER_LENGTH + |m.body|, 2) + m.xid + m.body
  {
    var w, b4, b5 := Writer(m), b3 + m.xid, b3 + m.xid + m.body;
    assert w[6..] == [];
    WrittenStep(w, 5, b5);
    WrittenStep(w, 4, b4);
    WrittenStep(w, 3, b3);
    PatchLength(b3, m.xid, m.body, BigEndian(HEADER_LENGTH + |m.body|, 2));
  }

  lemma PatchLength(b3: seq<byte>, xid: seq<byte>, body: seq<byte>, patch: seq<byte>)
    requires |b3| == 4 && |patch| == 2
    ensures Overwrite(b3 + xid + body, 2, patch) == b3[..2] + patch + xid + body
  {
  }

  lemma {:induction false} WriterShape(m: Raw)
    ensures PatchesBehind(Writer(m), 0)
    ensures Written(Writer(m), []) == [m.version, m.kind] + BigEndian(HEADER_LENGTH + |m.body|, 2) + m.xid + m.body
  {
    var w, b1, b2 := Writer(m), [m.version], [m.version, m.kind];
    var b3 := b2 + BigEndian(0, 2);
    OneByte(m.version);
    OneByte(m.kind);
    assert Apply(w[0], []) == b1 && Apply(w[1], b1) == b2 && Apply(w[2], b2) == b3;
    WriterTail(m, b3);
    WrittenStep(w, 2, b2);
    WrittenStep(w, 1, b1);
    WrittenStep(w, 0, []);
    assert b3[..2] == b2 && w[0..] == w;
  }

  lemma {:induction false} WritesOwnLength(m: Raw)
    ensures TheCodec().WritesFrame(m) && Decode(TheCodec().Encoding(m)) == Parsed(m)
  {
    WriterShape(m);
    ShortRoundTrip(HEADER_LENGTH + |m.body|);
    var e := Written(Writer(m), []);
    var patch := BigEndian(HEADER_LENGTH + |m.body|, 2);
    assert e[2] == patch[0] && e[3] == patch[1];
    assert e[4..8] == m.xid && e[8..|e|] == m.body;
  }

  lemma {:induction false} ReadsFirstFrame(b: seq<byte>)
    ensures TheCodec().ReadsFrame(b)
  {
    if HasFrame(b) && DeclaredLength(b) >= HEADER_LENGTH {
      var f := b[..DeclaredLength(b)];
      assert f[2] == b[2] && f[3] == b[3];
      assert f[4..8] == b[4..8] && f[8..|f|] == b[8..DeclaredLength(b)];
      assert Decode(f) == Decode(b);
    }
  }

  /** The laws are consistent. */
  lemma {:induction false} TheCodecIsLawful()
    ensures TheCodec().Lawful()
  {
    forall m: Raw ensures TheCodec().WritesFrame(m) && Decode(TheCodec().Encoding(m)) == Parsed(m) {
      WritesOwnLength(m);
    }
    forall b ensures TheCodec().ReadsFrame(b) {
      ReadsFirstFrame(b);
    }
  }
}
