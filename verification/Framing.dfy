/**
 * Channel Access frames: a 16-byte header in network byte order and a payload.
 * `Frames` is the one walk over a buffer that every parser and patcher makes.
 */
module Framing {
  import opened Prelude

  const HEADER: nat := 16
  const CMD_VERSION: Word16 := 0x0
  const CMD_SEARCH: Word16 := 0x6

  function Get16(b: Bytes, i: nat): Word16
    requires i + 2 <= |b|
  {
    var high: int, low: int := b[i], b[i + 1];
    high * 256 + low
  }

  function Get32(b: Bytes, i: nat): Word32
    requires i + 4 <= |b|
  {
    var high: int, low: int := Get16(b, i), Get16(b, i + 2);
    high * POW16 + low
  }

  function Put16(v: Word16): Bytes {
    [v / 256, v % 256]
  }

  function Put32(v: Word32): Bytes {
    Put16(v / POW16) + Put16(v % POW16)
  }

  lemma GetPut16(v: Word16, pre: Bytes, post: Bytes)
    ensures Get16(pre + Put16(v) + post, |pre|) == v
  {
    var b := pre + Put16(v) + post;
    assert b[|pre|] == v / 256 && b[|pre| + 1] == v % 256;
  }

  lemma GetPut32(v: Word32, pre: Bytes, post: Bytes)
    ensures Get32(pre + Put32(v) + post, |pre|) == v
  {
    var b := pre + Put32(v) + post;
    assert b == pre + Put16(v / POW16) + (Put16(v % POW16) + post);
    GetPut16(v / POW16, pre, Put16(v % POW16) + post);
    assert b == (pre + Put16(v / POW16)) + Put16(v % POW16) + post;
    GetPut16(v % POW16, pre + Put16(v / POW16), post);
  }

  /** A frame as found in a buffer; the last one may have lost part of its payload. */
  type Frame = f: Bytes | |f| >= 16 witness [0, 0, 0, 0, 0, 0, 0, 0, 0, 0, 0, 0, 0, 0, 0, 0]

  function Command(f: Frame): Word16 { Get16(f, 0) }
  function PayloadLen(f: Frame): Word16 { Get16(f, 2) }
  function DataType(f: Frame): Word16 { Get16(f, 4) }
  function DataCount(f: Frame): Word16 { Get16(f, 6) }
  function Param1(f: Frame): Word32 { Get32(f, 8) }
  function Param2(f: Frame): Word32 { Get32(f, 12) }

  /** The buffer holds at least the payload that the header announces. */
  predicate Complete(f: Frame) {
    HEADER + PayloadLen(f) <= |f|
  }

  function FrameLen(b: Frame): (n: nat)
    ensures HEADER <= n <= |b|
  {
    if Complete(b) then HEADER + PayloadLen(b) else |b|
  }

  /** The frames of a buffer, in order. Fewer than 16 trailing bytes are not a frame. */
  function Frames(b: Bytes): seq<Frame> {
    if |b| < HEADER then [] else [b[..FrameLen(b)]] + Frames(b[FrameLen(b)..])
  }

  /** The frame whose header is at `offset`, and where the walk goes next. */
  function FrameAt(b: Bytes, offset: nat): Frame
    requires offset + HEADER <= |b|
  {
    b[offset..][..FrameLen(b[offset..])]
  }

  function Next(b: Bytes, offset: nat): (n: nat)
    requires offset + HEADER <= |b|
    ensures n >= offset + HEADER
  {
    offset + HEADER + PayloadLen(b[offset..offset + HEADER])
  }

  /** The same walk by offsets, as the loops make it. */
  function FramesFrom(b: Bytes, offset: nat): seq<Frame>
    decreases |b| - offset
  {
    if offset + HEADER > |b| then [] else [FrameAt(b, offset)] + FramesFrom(b, Next(b, offset))
  }

  lemma {:induction false} OffsetWalk(b: Bytes, offset: nat)
    requires offset <= |b|
    ensures FramesFrom(b, offset) == Frames(b[offset..])
    decreases |b| - offset
  {
    if offset + HEADER <= |b| {
      var rest: Frame := b[offset..];
      FieldsAt(b, offset);
      if Complete(rest) {
        OffsetWalk(b, Next(b, offset));
        assert b[Next(b, offset)..] == rest[FrameLen(rest)..];
      }
    }
  }

  /** Reading the header fields in place is reading them from the frame. */
  lemma FieldsAt(b: Bytes, offset: nat)
    requires offset + HEADER <= |b|
    ensures var h: Frame := b[offset..offset + HEADER]; var f := FrameAt(b, offset);
            && Command(f) == Command(h) && PayloadLen(f) == PayloadLen(h)
            && DataType(f) == DataType(h) && DataCount(f) == DataCount(h)
            && Param1(f) == Param1(h) && Param2(f) == Param2(h)
            && f[..HEADER] == h
            && PayloadLen(b[offset..]) == PayloadLen(h)
            && (Complete(f) <==> offset + HEADER + PayloadLen(h) <= |b|)
            && (Complete(f) ==> f == b[offset..offset + HEADER + PayloadLen(h)])
            && (!Complete(f) ==> f == b[offset..])
  {
  }

  /** What the walk does not reach: the short rest of the buffer. */
  function Residue(b: Bytes): Bytes {
    if |b| < HEADER then b else Residue(b[FrameLen(b)..])
  }

  function Concat(fs: seq<Bytes>): Bytes {
    if fs == [] then [] else fs[0] + Concat(fs[1..])
  }

  lemma {:induction false} ConcatAppend(fs: seq<Bytes>, gs: seq<Bytes>)
    ensures Concat(fs + gs) == Concat(fs) + Concat(gs)
  {
    if fs == [] {
      assert fs + gs == gs;
    } else {
      assert (fs + gs)[1..] == fs[1..] + gs;
      ConcatAppend(fs[1..], gs);
    }
  }

  /** The walk covers the buffer: its frames and the residue are the buffer. */
  lemma {:induction false} FramesPartitionBuffer(b: Bytes)
    ensures Concat(Frames(b)) + Residue(b) == b
    ensures |Residue(b)| < HEADER
  {
    if |b| >= HEADER {
      var n := FrameLen(b);
      FramesPartitionBuffer(b[n..]);
      assert Frames(b)[1..] == Frames(b[n..]);
      assert b == b[..n] + b[n..];
    }
  }

  /** A frame that is exactly as long as its header says. */
  predicate Exact(f: Frame) {
    |f| == HEADER + PayloadLen(f)
  }

  lemma FramesOfExact(f: Frame, rest: Bytes)
    requires Exact(f)
    ensures Frames(f + rest) == [f] + Frames(rest)
  {
    var b: Frame := f + rest;
    assert PayloadLen(b) == PayloadLen(f);
    assert b[..FrameLen(b)] == f && b[FrameLen(b)..] == rest;
  }

  /** Round trip of the framing itself. */
  lemma {:induction false} FramesOfConcat(fs: seq<Frame>)
    requires forall f | f in fs :: Exact(f)
    ensures Frames(Concat(fs)) == fs
  {
    if fs != [] {
      FramesOfConcat(fs[1..]);
      FramesOfExact(fs[0], Concat(fs[1..]));
    }
  }

  function HeaderBytes(command: Word16, payloadLen: Word16, dataType: Word16, dataCount: Word16,
                       param1: Word32, param2: Word32): Frame
  {
    Put16(command) + Put16(payloadLen) + Put16(dataType) + Put16(dataCount) + Put32(param1) + Put32(param2)
  }

  lemma HeaderFields(command: Word16, payloadLen: Word16, dataType: Word16, dataCount: Word16,
                     param1: Word32, param2: Word32, payload: Bytes)
    ensures var f: Frame := HeaderBytes(command, payloadLen, dataType, dataCount, param1, param2) + payload;
            && Command(f) == command && PayloadLen(f) == payloadLen
            && DataType(f) == dataType && DataCount(f) == dataCount
            && Param1(f) == param1 && Param2(f) == param2
  {
    var c, l, t, n := Put16(command), Put16(payloadLen), Put16(dataType), Put16(dataCount);
    var p, q := Put32(param1), Put32(param2);
    var f: Frame := HeaderBytes(command, payloadLen, dataType, dataCount, param1, param2) + payload;
    assert f == [] + c + (l + t + n + p + q + payload);
    GetPut16(command, [], l + t + n + p + q + payload);
    assert f == c + l + (t + n + p + q + payload);
    GetPut16(payloadLen, c, t + n + p + q + payload);
    assert f == (c + l) + t + (n + p + q + payload);
    GetPut16(dataType, c + l, n + p + q + payload);
    assert f == (c + l + t) + n + (p + q + payload);
    GetPut16(dataCount, c + l + t, p + q + payload);
    assert f == (c + l + t + n) + p + (q + payload);
    GetPut32(param1, c + l + t + n, q + payload);
    assert f == (c + l + t + n + p) + q + payload;
    GetPut32(param2, c + l + t + n + p, payload);
  }
}
