/**
 * The Channel Access codec. The specification functions fold over `Frames`; the
 * methods below walk offsets through the buffer, each with its own loop.
 */
module ChannelAccess {
  import opened Prelude
  import opened Framing

  // ---------------------------------------------------------------- requests

  /** The name without the NUL bytes that pad it. */
  function TrimNul(s: Bytes): (t: Bytes)
    ensures t <= s && (t != [] ==> t[|t| - 1] != 0)
    ensures forall i | |t| <= i < |s| :: s[i] == 0
  {
    if s == [] || s[|s| - 1] != 0 then s else TrimNul(s[..|s| - 1])
  }

  function RequestOf(f: Frame): seq<(Word32, PvName)> {
    if Command(f) == CMD_SEARCH && Complete(f)
    then [(Param1(f), TrimNul(f[HEADER..HEADER + PayloadLen(f)]))]
    else []
  }

  /** The channel ids and names that the search frames of a datagram ask for. */
  function Requests(fs: seq<Frame>): seq<(Word32, PvName)> {
    if fs == [] then [] else RequestOf(fs[0]) + Requests(fs[1..])
  }

  // ---------------------------------------------------------------- replies

  /** A search reply carries exactly 8 bytes of payload and no data count. */
  predicate IsReply(f: Frame) {
    Command(f) == CMD_SEARCH && Complete(f) && PayloadLen(f) == 8 && DataCount(f) == 0
  }

  /** Each reply is extracted together with the latest VERSION header before it, if any. */
  function Replies(fs: seq<Frame>, version: Bytes): seq<(Word32, Bytes)> {
    if fs == [] then []
    else if Command(fs[0]) == CMD_VERSION then Replies(fs[1..], fs[0][..HEADER])
    else if IsReply(fs[0]) then [(Param2(fs[0]), version + fs[0][..HEADER + 8])] + Replies(fs[1..], version)
    else Replies(fs[1..], version)
  }

  function ReplyPort(fs: seq<Frame>): Option<Word16> {
    if fs == [] then None
    else if IsReply(fs[0]) then Some(DataType(fs[0]))
    else ReplyPort(fs[1..])
  }

  // ---------------------------------------------------------------- patches

  /** What the two overloads of updateSearchReply write into a search header. */
  datatype Edit = SetId(chanId: Word32) | SetAddr(addr: Addr)

  function Edited(f: Frame, e: Edit): (g: Frame)
    ensures |g| == |f|
  {
    if Command(f) != CMD_SEARCH then f
    else match e
      case SetId(id) => f[..12] + Put32(id) + f[16..]
      case SetAddr(a) => f[..4] + Put16(a.port) + f[6..8] + a.ip + f[12..]
  }

  function Patched(b: Bytes, e: Edit): (r: Bytes)
    ensures |r| == |b|
  {
    if |b| < HEADER then b else Edited(b[..FrameLen(b)], e) + Patched(b[FrameLen(b)..], e)
  }

  predicate AnySearch(fs: seq<Frame>) {
    fs != [] && (Command(fs[0]) == CMD_SEARCH || AnySearch(fs[1..]))
  }

  // ---------------------------------------------------------------- encoder

  /** The payload length the encoder writes: name and NUL, padded to 8, in 16 bits. */
  function PaddedLen(length: nat): Word16 {
    ((length + 1) % POW16 + 7) / 8 * 8 % POW16
  }

  const MAX_NAME: nat := 65527

  lemma PaddedLenFits(length: nat)
    requires length <= MAX_NAME
    ensures length < PaddedLen(length) <= length + 8 && PaddedLen(length) % 8 == 0
  {
  }

  type Request = p: (Word32, PvName) | |p.1| <= MAX_NAME witness (0, [])

  const VERSION_FRAME: Frame := HeaderBytes(CMD_VERSION, 0, 1, 13, 0, 0)

  function Zeros(n: nat): (z: Bytes)
    ensures |z| == n && forall i | 0 <= i < n :: z[i] == 0
  {
    if n == 0 then [] else [0] + Zeros(n - 1)
  }

  function SearchFrame(p: Request): Frame {
    PaddedLenFits(|p.1|);
    HeaderBytes(CMD_SEARCH, PaddedLen(|p.1|), 5, 13, p.0, p.0) + p.1 + Zeros(PaddedLen(|p.1|) - |p.1|)
  }

  function SearchFrames(pvs: seq<Request>): seq<Frame> {
    seq(|pvs|, i requires 0 <= i < |pvs| => SearchFrame(pvs[i]))
  }

  function Packet(pvs: seq<Request>): Bytes {
    VERSION_FRAME + Concat(SearchFrames(pvs))
  }

  // ---------------------------------------------------------------- the loops

  method CopyStr(s: Bytes) returns (t: Bytes)
    ensures t == TrimNul(s)
  {
    var len: nat := |s|;
    assert s[..len] == s;
    while len > 0
      invariant 0 <= len <= |s|
      invariant TrimNul(s[..len]) == TrimNul(s)
    {
      if s[len - 1] != 0 {
        break;
      }
      assert s[..len][..len - 1] == s[..len - 1];
      len := len - 1;
    }
    t := s[..len];
  }

  /** The requests in what is left of the buffer at `offset`. */
  function RequestsFrom(b: Bytes, offset: nat): seq<(Word32, PvName)> {
    Requests(FramesFrom(b, offset))
  }

  lemma RequestsStep(b: Bytes, offset: nat)
    requires offset + HEADER <= |b|
    ensures var h: Frame := b[offset..offset + HEADER];
            RequestsFrom(b, offset) ==
            (if Command(h) == CMD_SEARCH && offset + HEADER + PayloadLen(h) <= |b|
             then [(Param1(h), TrimNul(b[offset + HEADER..offset + HEADER + PayloadLen(h)]))] else [])
            + RequestsFrom(b, Next(b, offset))
  {
    hide TrimNul, Get16, Get32, Next, FrameAt;
    var f, h: Frame := FrameAt(b, offset), b[offset..offset + HEADER];
    FieldsAt(b, offset);
    var rest := FramesFrom(b, Next(b, offset));
    assert ([f] + rest)[1..] == rest;
    if Complete(f) {
      assert f[HEADER..HEADER + PayloadLen(f)] == b[offset + HEADER..offset + HEADER + PayloadLen(h)];
    }
  }

  lemma AppendAssoc<T>(s: seq<T>, x: T, t: seq<T>)
    ensures s + [x] + t == s + ([x] + t)
  {
  }

  lemma RequestsStart(b: Bytes)
    ensures RequestsFrom(b, 0) == Requests(Frames(b))
  {
    OffsetWalk(b, 0);
    assert b[0..] == b;
  }

  method ParseSearchRequest(buffer: Bytes) returns (pvs: seq<(Word32, PvName)>)
    ensures pvs == Requests(Frames(buffer))
  {
    hide RequestsFrom, Requests, FramesFrom, Frames, TrimNul;
    RequestsStart(buffer);
    pvs := [];
    var offset: nat := 0;
    while offset + HEADER <= |buffer|
      invariant pvs + RequestsFrom(buffer, offset) == Requests(Frames(buffer))
    {
      RequestsStep(buffer, offset);
      var hdr: Frame := buffer[offset..offset + HEADER];
      var payloadLen := PayloadLen(hdr);
      ghost var rest := RequestsFrom(buffer, Next(buffer, offset));
      if Command(hdr) == CMD_SEARCH && offset + HEADER + payloadLen <= |buffer| {
        var pv := CopyStr(buffer[offset + HEADER..offset + HEADER + payloadLen]);
        AppendAssoc(pvs, (Param1(hdr), pv), rest);
        pvs := pvs + [(Param1(hdr), pv)];
      }
      offset := offset + HEADER + payloadLen;
    }
    RequestsEnd(buffer, offset);
  }

  lemma RequestsEnd(b: Bytes, offset: nat)
    requires offset + HEADER > |b|
    ensures RequestsFrom(b, offset) == []
  {
  }

  function RepliesFrom(b: Bytes, offset: nat, version: Bytes): seq<(Word32, Bytes)> {
    Replies(FramesFrom(b, offset), version)
  }

  lemma RepliesStep(b: Bytes, offset: nat, version: Bytes)
    requires offset + HEADER <= |b|
    ensures var h: Frame := b[offset..offset + HEADER];
            RepliesFrom(b, offset, version) ==
            if Command(h) == CMD_VERSION then RepliesFrom(b, Next(b, offset), h)
            else if Command(h) == CMD_SEARCH && offset + HEADER + PayloadLen(h) <= |b| && PayloadLen(h) == 8
                && DataCount(h) == 0
            then [(Param2(h), version + b[offset..offset + HEADER + 8])] + RepliesFrom(b, Next(b, offset), version)
            else RepliesFrom(b, Next(b, offset), version)
  {
    var f := FrameAt(b, offset);
    FieldsAt(b, offset);
    var rest := FramesFrom(b, Next(b, offset));
    RepliesCons(f, rest, version);
    if IsReply(f) {
      assert f[..HEADER + 8] == b[offset..offset + HEADER + 8];
    }
  }

  lemma RepliesCons(f: Frame, fs: seq<Frame>, version: Bytes)
    ensures Replies([f] + fs, version) ==
            if Command(f) == CMD_VERSION then Replies(fs, f[..HEADER])
            else if IsReply(f) then [(Param2(f), version + f[..HEADER + 8])] + Replies(fs, version)
            else Replies(fs, version)
  {
    assert ([f] + fs)[1..] == fs;
  }

  lemma RepliesStart(b: Bytes)
    ensures RepliesFrom(b, 0, []) == Replies(Frames(b), [])
  {
    OffsetWalk(b, 0);
    assert b[0..] == b;
  }

  lemma RepliesEnd(b: Bytes, offset: nat, version: Bytes)
    requires offset + HEADER > |b|
    ensures RepliesFrom(b, offset, version) == []
  {
  }

  method ParseSearchResponse(buffer: Bytes) returns (searches: seq<(Word32, Bytes)>)
    ensures searches == Replies(Frames(buffer), [])
  {
    hide RepliesFrom, Replies, FramesFrom, Frames;
    RepliesStart(buffer);
    searches := [];
    var version: Bytes := [];  // empty until one has been seen
    var offset: nat := 0;
    while offset + HEADER <= |buffer|
      invariant searches + RepliesFrom(buffer, offset, version) == Replies(Frames(buffer), [])
    {
      RepliesStep(buffer, offset, version);
      var hdr: Frame := buffer[offset..offset + HEADER];
      var payloadLen := PayloadLen(hdr);
      ghost var rest := RepliesFrom(buffer, Next(buffer, offset), version);
      if Command(hdr) == CMD_VERSION {
        version := hdr;
      } else if Command(hdr) == CMD_SEARCH && offset + HEADER + payloadLen <= |buffer| {
        if payloadLen == 8 && DataCount(hdr) == 0 {
          var rsp := version;
          for i := offset to offset + HEADER + 8
            invariant rsp == version + buffer[offset..i]
          {
            rsp := rsp + [buffer[i]];
          }
          AppendAssoc(searches, (Param2(hdr), rsp), rest);
          searches := searches + [(Param2(hdr), rsp)];
        }
      }
      offset := offset + HEADER + payloadLen;
    }
    RepliesEnd(buffer, offset, version);
  }

  function PortFrom(b: Bytes, offset: nat): Option<Word16> {
    ReplyPort(FramesFrom(b, offset))
  }

  lemma PortStart(b: Bytes)
    ensures PortFrom(b, 0) == ReplyPort(Frames(b))
  {
    OffsetWalk(b, 0);
    assert b[0..] == b;
  }

  lemma PortStep(b: Bytes, offset: nat)
    requires offset + HEADER <= |b|
    ensures var h: Frame := b[offset..offset + HEADER];
            PortFrom(b, offset) ==
            if Command(h) == CMD_SEARCH && offset + HEADER + PayloadLen(h) <= |b| && PayloadLen(h) == 8
                && DataCount(h) == 0
            then Some(DataType(h)) else PortFrom(b, Next(b, offset))
  {
    FieldsAt(b, offset);
    hide Command, PayloadLen, DataCount, DataType, FrameAt, Next;
    assert FramesFrom(b, offset)[1..] == FramesFrom(b, Next(b, offset));
  }

  lemma PortEnd(b: Bytes, offset: nat)
    requires offset + HEADER > |b|
    ensures PortFrom(b, offset) == None
  {
  }

  /** The source address is returned only with a port; the failure value is `None`. */
  method ParseIocAddr(ip: IPv4, buffer: Bytes) returns (addr: Option<Addr>)
    ensures addr == match ReplyPort(Frames(buffer)) case Some(port) => Some(Addr(ip, port)) case None => None
  {
    hide PortFrom, ReplyPort, Frames, FramesFrom;
    PortStart(buffer);
    var offset: nat := 0;
    while offset + HEADER <= |buffer|
      invariant PortFrom(buffer, offset) == ReplyPort(Frames(buffer))
    {
      PortStep(buffer, offset);
      var hdr: Frame := buffer[offset..offset + HEADER];
      var payloadLen := PayloadLen(hdr);
      if Command(hdr) == CMD_SEARCH && offset + HEADER + payloadLen <= |buffer| {
        if payloadLen == 8 && DataCount(hdr) == 0 {
          return Some(Addr(ip, DataType(hdr)));
        }
      }
      offset := offset + HEADER + payloadLen;
    }
    PortEnd(buffer, offset);
    return None;
  }

  /** The patched rest of the buffer from `offset` on; nothing once the walk has stepped past the end. */
  function PatchedFrom(b: Bytes, offset: nat, e: Edit): Bytes {
    if offset <= |b| then Patched(b[offset..], e) else []
  }

  lemma PatchedStep(b: Bytes, offset: nat, e: Edit)
    requires offset + HEADER <= |b|
    ensures var f := FrameAt(b, offset);
            && PatchedFrom(b, offset, e) == Edited(f, e) + PatchedFrom(b, Next(b, offset), e)
            && offset + |f| == (if Next(b, offset) <= |b| then Next(b, offset) else |b|)
            && b[offset..] == f + b[offset + |f|..]
  {
    hide Edited, Get16;
    FieldsAt(b, offset);
    var rest: Frame := b[offset..];
    if Complete(rest) {
      assert rest[FrameLen(rest)..] == b[Next(b, offset)..];
    }
  }

  lemma AnySearchStep(b: Bytes, offset: nat)
    requires offset + HEADER <= |b|
    ensures AnySearch(FramesFrom(b, offset)) <==>
            Command(FrameAt(b, offset)) == CMD_SEARCH || AnySearch(FramesFrom(b, Next(b, offset)))
  {
    assert FramesFrom(b, offset)[1..] == FramesFrom(b, Next(b, offset));
  }

  /** `b` with `field` written at `at`. */
  function Stored(b: Bytes, at: nat, field: Bytes): Bytes
    requires at + |field| <= |b|
  {
    b[..at] + field + b[at + |field|..]
  }

  /** Assigning one field of a header that lies in the buffer. */
  method Store(a: array<Byte>, at: nat, field: Bytes)
    requires at + |field| <= a.Length
    modifies a
    ensures a[..] == Stored(old(a[..]), at, field)
  {
    for i := 0 to |field|
      invariant forall k | 0 <= k < a.Length ::
                  a[k] == if at <= k < at + i then field[k - at] else old(a[k])
    {
      a[at + i] := field[i];
    }
  }

  lemma StoredInside(pre: Bytes, f: Bytes, post: Bytes, at: nat, field: Bytes)
    requires at + |field| <= |f|
    ensures Stored(pre + f + post, |pre| + at, field) == pre + Stored(f, at, field) + post
  {
  }

  /** `b` with the frame at `offset` edited. */
  function EditedAt(b: Bytes, offset: nat, e: Edit): (r: Bytes)
    requires offset + HEADER <= |b|
    ensures |r| == |b|
  {
    var f := FrameAt(b, offset);
    b[..offset] + Edited(f, e) + b[offset + |f|..]
  }

  /** The edit, in terms of the stores that make it. */
  lemma EditedInPlace(b: Bytes, offset: nat, e: Edit)
    requires offset + HEADER <= |b|
    ensures EditedAt(b, offset, e) ==
            if Command(FrameAt(b, offset)) != CMD_SEARCH then b
            else match e
              case SetId(id) => Stored(b, offset + 12, Put32(id))
              case SetAddr(a) => Stored(Stored(b, offset + 4, Put16(a.port)), offset + 8, a.ip)
  {
    var f := FrameAt(b, offset);
    var pre, post := b[..offset], b[offset + |f|..];
    assert b == pre + f + post;
    hide FrameAt, Command;
    EditedByStores(f, e);
    hide Stored, Edited;
    match e
    case SetId(id) => StoredInside(pre, f, post, 12, Put32(id));
    case SetAddr(a) =>
      var g := Stored(f, 4, Put16(a.port));
      StoredInside(pre, f, post, 4, Put16(a.port));
      StoredInside(pre, g, post, 8, a.ip);
  }

  lemma EditedByStores(f: Frame, e: Edit)
    ensures Edited(f, e) ==
            if Command(f) != CMD_SEARCH then f
            else match e
              case SetId(id) => Stored(f, 12, Put32(id))
              case SetAddr(a) => Stored(Stored(f, 4, Put16(a.port)), 8, a.ip)
  {
    hide Command;
    if e.SetAddr? {
      var g := Stored(f, 4, Put16(e.addr.port));
      assert Stored(g, 8, e.addr.ip) == f[..4] + Put16(e.addr.port) + f[6..8] + e.addr.ip + f[12..];
    }
  }

  /** The body of the loop: writes the channel id into the header at `offset` if it is a search header. */
  method WriteId(reply: array<Byte>, offset: nat, chanId: Word32) returns (written: bool)
    requires offset + HEADER <= reply.Length
    modifies reply
    ensures var b := old(reply[..]); var f := FrameAt(b, offset);
            && reply[..] == EditedAt(b, offset, SetId(chanId))
            && written == (Command(f) == CMD_SEARCH)
  {
    hide Edited, Stored, FrameAt, EditedAt, Command;
    ghost var b: Bytes := reply[..];
    FieldsAt(b, offset);
    EditedInPlace(b, offset, SetId(chanId));
    var hdr: Frame := reply[offset..offset + HEADER];
    assert hdr == b[offset..offset + HEADER];
    written := Command(hdr) == CMD_SEARCH;
    if written {
      Store(reply, offset + 12, Put32(chanId));
    }
  }

  /** The body of the loop: writes the IOC's address into the header at `offset` if it is a search header. */
  method WriteAddr(reply: array<Byte>, offset: nat, addr: Addr) returns (written: bool)
    requires offset + HEADER <= reply.Length
    modifies reply
    ensures var b := old(reply[..]); var f := FrameAt(b, offset);
            && reply[..] == EditedAt(b, offset, SetAddr(addr))
            && written == (Command(f) == CMD_SEARCH)
  {
    hide Edited, Stored, FrameAt, EditedAt, Command;
    ghost var b: Bytes := reply[..];
    FieldsAt(b, offset);
    EditedInPlace(b, offset, SetAddr(addr));
    var hdr: Frame := reply[offset..offset + HEADER];
    assert hdr == b[offset..offset + HEADER];
    written := Command(hdr) == CMD_SEARCH;
    if written {
      Store(reply, offset + 4, Put16(addr.port));
      Store(reply, offset + 8, addr.ip);
    }
  }

  /** What a patching loop has made of buffer `b` when it stands at `offset`: the frames before are edited. */
  predicate PatchProgress(b: Bytes, e: Edit, offset: nat, now: Bytes) {
    && |now| == |b|
    && now[Reached(b, offset)..] == b[Reached(b, offset)..]
    && now[..Reached(b, offset)] + PatchedFrom(b, offset, e) == Patched(b, e)
  }

  function Reached(b: Bytes, offset: nat): nat {
    if offset <= |b| then offset else |b|
  }

  lemma PatchStart(b: Bytes, e: Edit)
    ensures PatchProgress(b, e, 0, b) && FramesFrom(b, 0) == Frames(b)
  {
    OffsetWalk(b, 0);
    assert b[0..] == b;
  }

  /** The rest of the buffer is as it was, so the loop reads the same header and frame. */
  lemma SameHeader(b: Bytes, e: Edit, offset: nat, now: Bytes)
    requires offset + HEADER <= |b| && PatchProgress(b, e, offset, now)
    ensures |now| == |b| && FrameAt(now, offset) == FrameAt(b, offset)
    ensures Next(b, offset) == offset + HEADER + PayloadLen(now[offset..offset + HEADER])
    ensures AnySearch(FramesFrom(b, offset)) <==>
            Command(FrameAt(now, offset)) == CMD_SEARCH || AnySearch(FramesFrom(b, Next(b, offset)))
  {
    hide PatchedFrom, Patched;
    assert now[offset..offset + HEADER] == now[offset..][..HEADER] == b[offset..][..HEADER] ==
        b[offset..offset + HEADER];
    AnySearchStep(b, offset);
  }

  lemma PatchStep(b: Bytes, e: Edit, offset: nat, now: Bytes)
    requires offset + HEADER <= |b| && PatchProgress(b, e, offset, now)
    ensures |now| == |b| && PatchProgress(b, e, Next(b, offset), EditedAt(now, offset, e))
  {
    hide Edited, PatchedFrom, Patched, FrameAt, Next;
    SameHeader(b, e, offset, now);
    PatchedStep(b, offset, e);
    EditSplits(b, offset, now, e);
    var f := FrameAt(b, offset);
    AppendFrame(now[..offset], Edited(f, e), PatchedFrom(b, Next(b, offset), e));
  }

  lemma AppendFrame(done: Bytes, g: Bytes, rest: Bytes)
    ensures done + g + rest == done + (g + rest)
  {
  }

  lemma EditSplits(b: Bytes, offset: nat, now: Bytes, e: Edit)
    requires offset + HEADER <= |b| == |now| && now[offset..] == b[offset..]
    ensures var f := FrameAt(b, offset); var r := EditedAt(now, offset, e);
            && offset + |f| <= |b|
            && r[..offset + |f|] == now[..offset] + Edited(f, e)
            && r[offset + |f|..] == b[offset + |f|..]
  {
    hide Edited;
    var f := FrameAt(b, offset);
    assert FrameAt(now, offset) == f;
    assert now[offset + |f|..] == now[offset..][|f|..] == b[offset..][|f|..] == b[offset + |f|..];
    SplitAfter(now[..offset], Edited(f, e), b[offset + |f|..]);
  }

  lemma SplitAfter(done: Bytes, g: Bytes, post: Bytes)
    ensures (done + g + post)[..|done| + |g|] == done + g
    ensures (done + g + post)[|done| + |g|..] == post
  {
  }

  lemma PatchEnd(b: Bytes, e: Edit, offset: nat, now: Bytes)
    requires offset + HEADER > |b| && PatchProgress(b, e, offset, now)
    ensures now == Patched(b, e) && !AnySearch(FramesFrom(b, offset))
  {
    assert now == now[..Reached(b, offset)] + now[Reached(b, offset)..];
  }

  method UpdateReplyId(reply: array<Byte>, chanId: Word32) returns (updated: bool)
    modifies reply
    ensures reply[..] == Patched(old(reply[..]), SetId(chanId))
    ensures updated == AnySearch(Frames(old(reply[..])))
  {
    hide PatchProgress, PatchedFrom, Patched, Frames, FramesFrom, EditedAt, AnySearch, Command, PayloadLen, FrameAt,
         Next;
    ghost var b: Bytes, e := reply[..], SetId(chanId);
    PatchStart(b, e);
    var offset: nat := 0;
    updated := false;
    while offset + HEADER <= reply.Length
      invariant reply.Length == |b| && PatchProgress(b, e, offset, reply[..])
      invariant updated || AnySearch(FramesFrom(b, offset)) <==> AnySearch(Frames(b))
      decreases reply.Length - offset
    {
      SameHeader(b, e, offset, reply[..]);
      PatchStep(b, e, offset, reply[..]);
      var payloadLen := PayloadLen(reply[offset..offset + HEADER]);
      var written := WriteId(reply, offset, chanId);
      updated := updated || written;
      offset := offset + HEADER + payloadLen;
    }
    PatchEnd(b, e, offset, reply[..]);
  }

  method UpdateReplyAddr(reply: array<Byte>, addr: Addr) returns (updated: bool)
    modifies reply
    ensures reply[..] == Patched(old(reply[..]), SetAddr(addr))
    ensures updated == AnySearch(Frames(old(reply[..])))
  {
    hide PatchProgress, PatchedFrom, Patched, Frames, FramesFrom, EditedAt, AnySearch, Command, PayloadLen, FrameAt,
         Next;
    ghost var b: Bytes, e := reply[..], SetAddr(addr);
    PatchStart(b, e);
    var offset: nat := 0;
    updated := false;
    while offset + HEADER <= reply.Length
      invariant reply.Length == |b| && PatchProgress(b, e, offset, reply[..])
      invariant updated || AnySearch(FramesFrom(b, offset)) <==> AnySearch(Frames(b))
      decreases reply.Length - offset
    {
      SameHeader(b, e, offset, reply[..]);
      PatchStep(b, e, offset, reply[..]);
      var payloadLen := PayloadLen(reply[offset..offset + HEADER]);
      var written := WriteAddr(reply, offset, addr);
      updated := updated || written;
      offset := offset + HEADER + payloadLen;
    }
    PatchEnd(b, e, offset, reply[..]);
  }

  /** As many requests as fit: the packet is closed by the frame that takes it past 1000 bytes. */
  method CreateSearchRequest(pvs: seq<Request>) returns (buffer: Bytes, nPvs: nat)
    ensures nPvs <= |pvs| && buffer == Packet(pvs[..nPvs])
    ensures forall k | 0 <= k < nPvs :: |Packet(pvs[..k])| <= 1000
    ensures nPvs == |pvs| || |buffer| > 1000
  {
    buffer := VERSION_FRAME;
    nPvs := 0;
    assert SearchFrames(pvs[..0]) == [];
    while nPvs < |pvs|
      invariant nPvs <= |pvs|
      invariant buffer == Packet(pvs[..nPvs])
      invariant forall k | 0 <= k < nPvs :: |Packet(pvs[..k])| <= 1000
      invariant nPvs > 0 ==> |buffer| <= 1000
    {
      var pv := pvs[nPvs];
      PacketGrows(pvs, nPvs);
      buffer := buffer + SearchFrame(pv);
      nPvs := nPvs + 1;
      if |buffer| > 1000 {
        break;
      }
    }
    assert pvs[..|pvs|] == pvs;
  }

  lemma PacketGrows(pvs: seq<Request>, n: nat)
    requires n < |pvs|
    ensures Packet(pvs[..n + 1]) == Packet(pvs[..n]) + SearchFrame(pvs[n])
  {
    hide SearchFrame;
    var fs, last := SearchFrames(pvs[..n]), [SearchFrame(pvs[n])];
    SearchFramesGrow(pvs, n);
    ConcatAppend(fs, last);
    ConcatOne(last[0]);
    hide SearchFrames, Concat;
  }

  lemma SearchFramesGrow(pvs: seq<Request>, n: nat)
    requires n < |pvs|
    ensures SearchFrames(pvs[..n + 1]) == SearchFrames(pvs[..n]) + [SearchFrame(pvs[n])]
  {
    hide SearchFrame;
  }

  lemma ConcatOne(f: Bytes)
    ensures Concat([f]) == f
  {
    assert Concat([f]) == f + Concat([]);
  }
}
