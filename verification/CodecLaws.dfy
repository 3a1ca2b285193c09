/**
 * What the codec promises across its functions: requests and replies survive a round
 * trip, the patches touch only their own fields, and all five loops see the same frames.
 */
module CodecLaws {
  import opened Prelude
  import opened Framing
  import opened ChannelAccess

  // ---------------------------------------------------------------- search requests

  /** Requests as they come back from the wire: trailing NULs count as padding. */
  function OnWire(pvs: seq<(Word32, PvName)>): (r: seq<(Word32, PvName)>)
    ensures |r| == |pvs|
  {
    seq(|pvs|, i requires 0 <= i < |pvs| => (pvs[i].0, TrimNul(pvs[i].1)))
  }

  predicate NoTrailingNul(s: Bytes) {
    s != [] ==> s[|s| - 1] != 0
  }

  lemma {:induction false} TrimPadding(s: Bytes, n: nat)
    ensures TrimNul(s + Zeros(n)) == TrimNul(s)
  {
    var t := s + Zeros(n);
    if n == 0 {
      assert t == s;
    } else {
      assert Zeros(n)[n - 1] == 0;
      ZerosShorter(n);
      assert t[..|t| - 1] == s + Zeros(n - 1);
      TrimPadding(s, n - 1);
    }
  }

  lemma {:induction false} ZerosShorter(n: nat)
    requires n > 0
    ensures Zeros(n)[..n - 1] == Zeros(n - 1)
  {
  }

  lemma HeaderSize(command: Word16, payloadLen: Word16, dataType: Word16, dataCount: Word16, p: Word32, q: Word32)
    ensures |HeaderBytes(command, payloadLen, dataType, dataCount, p, q)| == HEADER
  {
  }

  lemma SearchFrameFields(p: Request)
    ensures var f := SearchFrame(p);
            && Exact(f) && Command(f) == CMD_SEARCH && Complete(f)
            && RequestOf(f) == [(p.0, TrimNul(p.1))]
            && 24 <= |f| == HEADER + PaddedLen(|p.1|)
  {
    hide HeaderBytes, Zeros, TrimNul, PaddedLen, Get16, Get32;
    PaddedLenFits(|p.1|);
    var n: nat := PaddedLen(|p.1|);
    var payload := p.1 + Zeros(n - |p.1|);
    var f := SearchFrame(p);
    var h := HeaderBytes(CMD_SEARCH, n, 5, 13, p.0, p.0);
    assert f == h + payload;
    assert |h| == HEADER by { HeaderSize(CMD_SEARCH, n, 5, 13, p.0, p.0); }
    HeaderFields(CMD_SEARCH, n, 5, 13, p.0, p.0, payload);
    assert f[HEADER..HEADER + n] == payload;
    TrimPadding(p.1, n - |p.1|);
  }

  lemma SearchFramesCons(pvs: seq<Request>)
    requires pvs != []
    ensures SearchFrames(pvs) == [SearchFrame(pvs[0])] + SearchFrames(pvs[1..])
  {
    hide SearchFrame;
  }

  lemma RequestsCons(f: Frame, fs: seq<Frame>)
    ensures Requests([f] + fs) == RequestOf(f) + Requests(fs)
  {
    assert ([f] + fs)[1..] == fs;
  }

  lemma SearchFramesAreExact(pvs: seq<Request>)
    ensures forall f | f in SearchFrames(pvs) :: Exact(f)
  {
    hide Exact, SearchFrame;
    forall i | 0 <= i < |pvs| ensures Exact(SearchFrames(pvs)[i]) {
      SearchFrameFields(pvs[i]);
    }
  }

  lemma {:induction false} RequestsOfSearchFrames(pvs: seq<Request>)
    ensures Requests(SearchFrames(pvs)) == OnWire(pvs)
  {
    hide SearchFrame, SearchFrames, TrimNul, RequestOf, Requests, Exact, Command, Complete, OnWire;
    if pvs == [] {
      NoSearchFrames(pvs);
    } else {
      SearchFrameFields(pvs[0]);
      RequestsOfSearchFrames(pvs[1..]);
      SearchFramesCons(pvs);
      RequestsCons(SearchFrame(pvs[0]), SearchFrames(pvs[1..]));
      OnWireCons(pvs);
    }
  }

  lemma NoSearchFrames(pvs: seq<Request>)
    requires pvs == []
    ensures Requests(SearchFrames(pvs)) == [] && OnWire(pvs) == []
  {
    assert SearchFrames(pvs) == [];
  }

  lemma OnWireCons(pvs: seq<Request>)
    requires pvs != []
    ensures OnWire(pvs) == [(pvs[0].0, TrimNul(pvs[0].1))] + OnWire(pvs[1..])
  {
    hide TrimNul;
  }

  /** A search message by the protocol: no reply wanted on failure, minor version 13, a NUL-terminated, aligned name. */
  predicate AsksFor(f: Frame, p: Request) {
    && Exact(f) && Command(f) == CMD_SEARCH && DataType(f) == 5 && DataCount(f) == 13
    && Param1(f) == p.0 && Param2(f) == p.0
    && PayloadLen(f) % 8 == 0 && |p.1| < PayloadLen(f) <= |p.1| + 8
    && |f| == HEADER + PayloadLen(f) && f[HEADER..HEADER + |p.1|] == p.1
    && forall i | HEADER + |p.1| <= i < |f| :: f[i] == 0
  }

  lemma SearchFrameAsks(p: Request)
    ensures AsksFor(SearchFrame(p), p)
  {
    hide HeaderBytes, Zeros, PaddedLen, Get16, Get32;
    PaddedLenFits(|p.1|);
    var n: nat := PaddedLen(|p.1|);
    HeaderSize(CMD_SEARCH, n, 5, 13, p.0, p.0);
    HeaderFields(CMD_SEARCH, n, 5, 13, p.0, p.0, p.1 + Zeros(n - |p.1|));
    assert SearchFrame(p) == HeaderBytes(CMD_SEARCH, n, 5, 13, p.0, p.0) + (p.1 + Zeros(n - |p.1|));
  }

  lemma PacketFrames(pvs: seq<Request>)
    ensures Frames(Packet(pvs)) == [VERSION_FRAME] + SearchFrames(pvs)
  {
    var fs := SearchFrames(pvs);
    HeaderFields(CMD_VERSION, 0, 1, 13, 0, 0, []);
    assert VERSION_FRAME + [] == VERSION_FRAME;
    SearchFramesAreExact(pvs);
    FramesOfExact(VERSION_FRAME, Concat(fs));
    FramesOfConcat(fs);
  }

  /** A packet is a VERSION message and then one search message for each packed request, and nothing behind. */
  lemma PacketLayout(pvs: seq<Request>)
    ensures var fs := Frames(Packet(pvs));
            && |fs| == |pvs| + 1 && Concat(fs) == Packet(pvs) && Residue(Packet(pvs)) == []
            && Command(fs[0]) == CMD_VERSION && PayloadLen(fs[0]) == 0 && DataType(fs[0]) == 1 && DataCount(fs[0]) == 13
            && forall i | 0 <= i < |pvs| :: AsksFor(fs[i + 1], pvs[i])
  {
    hide AsksFor, SearchFrame, HeaderBytes, Command, PayloadLen, DataType, DataCount, Frames, Residue, Exact;
    var fs := Frames(Packet(pvs));
    PacketFrames(pvs);
    assert VERSION_FRAME + [] == VERSION_FRAME;
    HeaderFields(CMD_VERSION, 0, 1, 13, 0, 0, []);
    FramesPartitionBuffer(Packet(pvs));
    assert fs[1..] == SearchFrames(pvs);
    forall i | 0 <= i < |pvs| ensures AsksFor(fs[i + 1], pvs[i]) {
      SearchFrameAsks(pvs[i]);
      assert fs[i + 1] == SearchFrames(pvs)[i];
    }
  }

  /** Decoding an encoded packet gives the packed requests back. */
  lemma PacketRoundTrip(pvs: seq<Request>)
    ensures Requests(Frames(Packet(pvs))) == OnWire(pvs)
  {
    PacketFrames(pvs);
    RequestsOfSearchFrames(pvs);
    RequestsCons(VERSION_FRAME, SearchFrames(pvs));
    HeaderFields(CMD_VERSION, 0, 1, 13, 0, 0, []);
    assert VERSION_FRAME + [] == VERSION_FRAME;
  }

  /** The round trip is exact for precisely the names that do not end in a NUL. */
  lemma PacketRoundTripExact(pvs: seq<Request>)
    ensures Requests(Frames(Packet(pvs))) == pvs <==> forall i | 0 <= i < |pvs| :: NoTrailingNul(pvs[i].1)
  {
    PacketRoundTrip(pvs);
    if forall i | 0 <= i < |pvs| :: NoTrailingNul(pvs[i].1) {
      assert OnWire(pvs) == pvs;
    }
    if OnWire(pvs) == pvs {
      forall i | 0 <= i < |pvs| ensures NoTrailingNul(pvs[i].1) {
        assert OnWire(pvs)[i].1 == pvs[i].1;
      }
    }
  }

  lemma {:induction false} PacketSize(pvs: seq<Request>)
    ensures |Packet(pvs)| >= HEADER + 24 * |pvs|
  {
    if pvs == [] {
      assert SearchFrames(pvs) == [];
    } else {
      var n := |pvs| - 1;
      PacketSize(pvs[..n]);
      PacketGrows(pvs, n);
      SearchFrameFields(pvs[n]);
      assert pvs[..n + 1] == pvs;
    }
  }

  lemma EmptyPacket(pvs: seq<Request>)
    requires pvs == []
    ensures |Packet(pvs)| == HEADER
  {
    assert SearchFrames(pvs) == [];
  }

  /** What the packing rule of createSearchRequest implies for every packet. */
  lemma PackingBounds(pvs: seq<Request>, n: nat)
    requires pvs != [] && n <= |pvs|
    requires forall k | 0 <= k < n :: |Packet(pvs[..k])| <= 1000
    requires n == |pvs| || |Packet(pvs[..n])| > 1000
    ensures 1 <= n <= 42
    ensures |Packet(pvs[..n])| <= 1016 + PaddedLen(|pvs[n - 1].1|)
  {
    hide Packet, PaddedLen, SearchFrame, RequestOf, Exact, Command, Complete;
    EmptyPacket(pvs[..0]);
    if |pvs| > 42 {
      PacketSize(pvs[..42]);
    }
    PacketGrows(pvs, n - 1);
    SearchFrameFields(pvs[n - 1]);
  }

  /** What a receiver of these packets is asked for, in order. */
  function Received(packets: seq<Bytes>): seq<(Word32, PvName)> {
    if packets == [] then [] else Requests(Frames(packets[0])) + Received(packets[1..])
  }

  lemma {:induction false} ReceivedAppend(packets: seq<Bytes>, p: Bytes)
    ensures Received(packets + [p]) == Received(packets) + Requests(Frames(p))
  {
    hide Requests, Frames;
    if packets == [] {
      assert packets + [p] == [p] && [p][1..] == [];
      assert Received([p]) == Requests(Frames(p)) + Received([]);
    } else {
      assert (packets + [p])[1..] == packets[1..] + [p];
      ReceivedAppend(packets[1..], p);
    }
  }

  /**
   * The send loop of one tick: packets until nothing is left. A receiver of all of them
   * is asked for the whole list, in order, and no packet is longer than 1016 bytes and
   * the padded name that closed it.
   */
  method SendRequests(pvs: seq<Request>) returns (packets: seq<Bytes>)
    ensures Received(packets) == OnWire(pvs)
    ensures forall p | p in packets :: exists q | q in pvs :: |p| <= 1016 + PaddedLen(|q.1|)
    ensures |packets| <= |pvs| <= 42 * |packets|
  {
    hide Received, Requests, Frames, Packet, OnWire, PaddedLen;
    var left := pvs;
    packets := [];
    assert Received([]) == OnWire(pvs[..0]) by { SentNothing(pvs); }
    while left != []
      invariant |left| <= |pvs| && left == pvs[|pvs| - |left|..]
      invariant Received(packets) == OnWire(pvs[..|pvs| - |left|])
      invariant forall p | p in packets :: exists q | q in pvs :: |p| <= 1016 + PaddedLen(|q.1|)
      invariant |packets| <= |pvs| - |left| <= 42 * |packets|
    {
      var msg, nPvs := CreateSearchRequest(left);
      PackingBounds(left, nPvs);
      PacketRoundTrip(left[..nPvs]);
      ReceivedAppend(packets, msg);
      ghost var sent := |pvs| - |left|;
      assert left[nPvs - 1] == pvs[sent + nPvs - 1];
      OnWireSplit(pvs, sent, nPvs);
      packets := packets + [msg];
      left := left[nPvs..];
    }
    assert pvs[..|pvs|] == pvs;
  }

  lemma SentNothing(pvs: seq<Request>)
    ensures Received([]) == OnWire(pvs[..0])
  {
  }

  lemma OnWireSplit(pvs: seq<Request>, i: nat, n: nat)
    requires i + n <= |pvs|
    ensures OnWire(pvs[..i + n]) == OnWire(pvs[..i]) + OnWire(pvs[i..][..n])
  {
  }

  // ---------------------------------------------------------------- patches

  /** An edit writes its own fields of a search header and nothing else. */
  lemma EditedFields(f: Frame, e: Edit)
    ensures var g: Frame := Edited(f, e);
            && Command(g) == Command(f) && PayloadLen(g) == PayloadLen(f) && DataCount(g) == DataCount(f)
            && g[HEADER..] == f[HEADER..]
            && (Command(f) != CMD_SEARCH ==> g == f)
            && (Command(f) == CMD_SEARCH && e.SetId? ==>
                  Param2(g) == e.chanId && g[..12] == f[..12])
            && (Command(f) == CMD_SEARCH && e.SetAddr? ==>
                  DataType(g) == e.addr.port && g[8..12] == e.addr.ip && g[12..] == f[12..])
  {
    hide Edited, Get16, Get32;
    if Command(f) != CMD_SEARCH {
      NotEdited(f, e);
    } else {
      match e
      case SetId(id) => IdEdited(f, id);
      case SetAddr(a) => AddrEdited(f, a);
    }
  }

  lemma NotEdited(f: Frame, e: Edit)
    requires Command(f) != CMD_SEARCH
    ensures Edited(f, e) == f
  {
  }

  lemma IdEdited(f: Frame, id: Word32)
    requires Command(f) == CMD_SEARCH
    ensures var g: Frame := Edited(f, SetId(id));
            && Command(g) == Command(f) && PayloadLen(g) == PayloadLen(f) && DataCount(g) == DataCount(f)
            && g[HEADER..] == f[HEADER..] && Param2(g) == id && g[..12] == f[..12]
  {
    GetPut32(id, f[..12], f[16..]);
  }

  lemma AddrEdited(f: Frame, a: Addr)
    requires Command(f) == CMD_SEARCH
    ensures var g: Frame := Edited(f, SetAddr(a));
            && Command(g) == Command(f) && PayloadLen(g) == PayloadLen(f) && DataCount(g) == DataCount(f)
            && g[HEADER..] == f[HEADER..] && DataType(g) == a.port && g[8..12] == a.ip && g[12..] == f[12..]
  {
    assert Edited(f, SetAddr(a)) == f[..4] + Put16(a.port) + (f[6..8] + a.ip + f[12..]);
    GetPut16(a.port, f[..4], f[6..8] + a.ip + f[12..]);
  }

  function EditAll(fs: seq<Frame>, e: Edit): seq<Frame> {
    seq(|fs|, i requires 0 <= i < |fs| => Edited(fs[i], e))
  }

  lemma PatchedUnfold(b: Frame, e: Edit)
    ensures var r: Frame := Patched(b, e);
            && FrameLen(r) == FrameLen(b)
            && r[..FrameLen(r)] == Edited(b[..FrameLen(b)], e)
            && r[FrameLen(r)..] == Patched(b[FrameLen(b)..], e)
  {
    var n := FrameLen(b);
    var f: Frame, rest := b[..n], b[n..];
    EditedFields(f, e);
    var r: Frame := Patched(b, e);
    assert r == Edited(f, e) + Patched(rest, e);
    assert PayloadLen(r) == PayloadLen(Edited(f, e)) == PayloadLen(f) == PayloadLen(b);
  }

  lemma FramesUnfold(b: Frame)
    ensures Frames(b) == [b[..FrameLen(b)]] + Frames(b[FrameLen(b)..])
    ensures Residue(b) == Residue(b[FrameLen(b)..])
  {
  }

  lemma EditAllCons(f: Frame, fs: seq<Frame>, e: Edit)
    ensures EditAll([f] + fs, e) == [Edited(f, e)] + EditAll(fs, e)
  {
  }

  /** Patching keeps length, framing and residue, and edits each frame by itself. */
  lemma {:induction false} PatchKeepsFraming(b: Bytes, e: Edit)
    ensures Frames(Patched(b, e)) == EditAll(Frames(b), e)
    ensures Residue(Patched(b, e)) == Residue(b)
  {
    if |b| < HEADER {
      assert Patched(b, e) == b;
    } else {
      hide Frames, Residue, Patched, Edited, EditAll, FrameLen;
      var n := FrameLen(b);
      PatchedUnfold(b, e);
      PatchKeepsFraming(b[n..], e);
      FramesUnfold(b);
      FramesUnfold(Patched(b, e));
      EditAllCons(b[..n], Frames(b[n..]), e);
    }
  }

  lemma EditsCommute(f: Frame, id: Word32, a: Addr)
    ensures Edited(Edited(f, SetId(id)), SetAddr(a)) == Edited(Edited(f, SetAddr(a)), SetId(id))
  {
    EditedFields(f, SetId(id));
    EditedFields(f, SetAddr(a));
  }

  /** The two overloads of updateSearchReply can be applied in either order. */
  lemma {:induction false} PatchesCommute(b: Bytes, id: Word32, a: Addr)
    ensures Patched(Patched(b, SetId(id)), SetAddr(a)) == Patched(Patched(b, SetAddr(a)), SetId(id))
  {
    if |b| >= HEADER {
      var n := FrameLen(b);
      PatchedUnfold(b, SetId(id));
      PatchedUnfold(b, SetAddr(a));
      hide Edited;
      PatchesCommute(b[n..], id, a);
      EditsCommute(b[..n], id, a);
    }
  }

  // ---------------------------------------------------------------- search replies

  /** A reply as parseSearchResponse extracts it, for the given channel id. */
  predicate Extracted(id: Word32, r: Bytes) {
    || (|r| == 24 && IsReply(r) && Param2(r) == id)
    || (|r| == 40 && Command(r) == CMD_VERSION && IsReply(r[HEADER..]) && Param2(r[HEADER..]) == id)
  }

  /** The header in front of the reply, if any, announces no payload. */
  predicate Canonical(r: Bytes) {
    |r| == 24 || (|r| == 40 && PayloadLen(r) == 0)
  }

  /** The search frame at the end of an extracted reply. */
  function Body(r: Bytes): Frame
    requires |r| >= 24
  {
    r[|r| - 24..]
  }

  predicate VersionPrefix(v: Bytes) {
    v == [] || (|v| == HEADER && Command(v) == CMD_VERSION)
  }

  lemma ExtractedByParser(v: Bytes, f: Frame)
    requires VersionPrefix(v) && IsReply(f)
    ensures Extracted(Param2(f), v + f[..HEADER + 8]) && Body(v + f[..HEADER + 8]) == f[..HEADER + 8]
  {
    var r := v + f[..HEADER + 8];
    if v != [] {
      assert Command(r) == Command(v) && r[HEADER..] == f[..HEADER + 8];
    } else {
      assert r == f[..HEADER + 8];
    }
  }

  lemma {:induction false} RepliesAreExtracted(fs: seq<Frame>, v: Bytes)
    requires VersionPrefix(v)
    ensures forall x | x in Replies(fs, v) :: Extracted(x.0, x.1)
  {
    if fs != [] {
      if Command(fs[0]) == CMD_VERSION {
        RepliesAreExtracted(fs[1..], fs[0][..HEADER]);
      } else {
        if IsReply(fs[0]) {
          ExtractedByParser(v, fs[0]);
        }
        RepliesAreExtracted(fs[1..], v);
      }
    }
  }

  /** The protocol's rule for VERSION: no payload. */
  predicate VersionsHaveNoPayload(fs: seq<Frame>) {
    forall f | f in fs :: Command(f) == CMD_VERSION ==> PayloadLen(f) == 0
  }

  lemma {:induction false} RepliesAreCanonical(fs: seq<Frame>, v: Bytes)
    requires VersionPrefix(v) && (v != [] ==> PayloadLen(v) == 0)
    requires VersionsHaveNoPayload(fs)
    ensures forall x | x in Replies(fs, v) :: Extracted(x.0, x.1) && Canonical(x.1)
  {
    RepliesAreExtracted(fs, v);
    if fs != [] {
      assert forall f | f in fs[1..] :: f in fs;
      if Command(fs[0]) == CMD_VERSION {
        RepliesAreCanonical(fs[1..], fs[0][..HEADER]);
      } else {
        RepliesAreCanonical(fs[1..], v);
      }
    }
  }

  lemma BareReplyRoundTrip(f: Frame)
    requires IsReply(f) && |f| == 24
    ensures Frames(f) == [f] && Body(f) == f && f[..HEADER + 8] == f
    ensures forall v :: Replies([f], v) == [(Param2(f), v + f)]
    ensures ReplyPort([f]) == Some(DataType(f))
  {
    assert f + [] == f && f[..24] == f;
    FramesOfExact(f, []);
    EmptyFrames();
    hide IsReply, Command, PayloadLen, Frames, FrameLen, Get16, Get32;
    assert [f] + [] == [f];
    forall v ensures Replies([f], v) == [(Param2(f), v + f)] {
      IsReplyIsNoVersion(f);
      RepliesCons(f, [], v);
    }
  }

  lemma EmptyFrames()
    ensures Frames([]) == []
  {
  }

  lemma IsReplyIsNoVersion(f: Frame)
    requires IsReply(f)
    ensures Command(f) != CMD_VERSION
  {
  }

  lemma PrefixedFrames(r: Frame)
    requires |r| == 40 && PayloadLen(r) == 0
    ensures Frames(r) == [r[..HEADER]] + Frames(r[HEADER..])
  {
    var v: Frame := r[..HEADER];
    assert PayloadLen(v) == PayloadLen(r) && r == v + r[HEADER..];
    FramesOfExact(v, r[HEADER..]);
  }

  /** An extracted reply parses to itself alone if its prefix is canonical, and to nothing if not. */
  lemma ReplyRoundTrip(id: Word32, r: Bytes)
    requires Extracted(id, r)
    ensures Replies(Frames(r), []) == if Canonical(r) then [(id, r)] else []
    ensures Canonical(r) ==> ReplyPort(Frames(r)) == Some(DataType(Body(r)))
  {
    hide Frames, IsReply, PayloadLen, FrameLen, Get16, Get32, Replies, ReplyPort;
    if |r| == 24 {
      BareReplyRoundTrip(r);
      assert [] + r == r;
    } else if PayloadLen(r) == 0 {
      PrefixedReply(id, r);
    } else {
      ShortTailHasNoReply(r);
    }
  }

  lemma PrefixedReply(id: Word32, r: Bytes)
    requires Extracted(id, r) && |r| == 40 && PayloadLen(r) == 0
    ensures Replies(Frames(r), []) == [(id, r)]
    ensures ReplyPort(Frames(r)) == Some(DataType(Body(r)))
  {
    hide Frames, IsReply, PayloadLen, FrameLen, Get32;
    var v: Frame, f: Frame := r[..HEADER], r[HEADER..];
    PrefixedFrames(r);
    BareReplyRoundTrip(f);
    assert Command(v) == Command(r) && v[..HEADER] == v && v + f == r;
    RepliesCons(v, [f], []);
    assert ([v] + [f])[1..] == [f];
    NoReplyInVersion(v);
  }

  lemma NoReplyInVersion(f: Frame)
    requires Command(f) == CMD_VERSION
    ensures !IsReply(f)
  {
  }

  lemma ShortTailHasNoReply(r: Frame)
    requires |r| == 40 && Command(r) == CMD_VERSION && PayloadLen(r) > 0
    ensures Replies(Frames(r), []) == []
  {
    var n := FrameLen(r);
    var rest := r[n..];
    assert |rest| < 24 && Command(r[..n]) == CMD_VERSION;
    var fs := Frames(rest);
    FramesPartitionBuffer(rest);
    if fs != [] {
      var m := FrameLen(rest);
      assert |rest[m..]| < HEADER && fs == [rest[..m]];
      RepliesCons(rest[..m], [], r[..n][..HEADER]);
      assert [rest[..m]] + [] == [rest[..m]];
    }
    RepliesCons(r[..n], fs, []);
  }

  /** The address extractor and the reply parser agree on which datagrams hold a reply, and on the first. */
  lemma {:induction false} PortOfFirstReply(fs: seq<Frame>, v: Bytes)
    requires VersionPrefix(v)
    ensures ReplyPort(fs).Some? <==> Replies(fs, v) != []
    ensures Replies(fs, v) != [] ==>
              var r := Replies(fs, v)[0].1; |r| >= 24 && ReplyPort(fs) == Some(DataType(Body(r)))
  {
    if fs != [] {
      if Command(fs[0]) == CMD_VERSION {
        PortOfFirstReply(fs[1..], fs[0][..HEADER]);
      } else if IsReply(fs[0]) {
        ExtractedByParser(v, fs[0]);
        assert DataType(fs[0][..HEADER + 8]) == DataType(fs[0]);
      } else {
        PortOfFirstReply(fs[1..], v);
      }
    }
  }

  // ---------------------------------------------------------------- the reply a client gets

  lemma EditedBody(f: Frame, e: Edit)
    requires IsReply(f) && |f| == 24
    ensures var g: Frame := Edited(f, e); IsReply(g) && Param2(g) == if e.SetId? then e.chanId else Param2(f)
    ensures Patched(f, e) == Edited(f, e)
  {
    EditedFields(f, e);
    if e.SetAddr? {
      var g: Frame := Edited(f, e);
      assert Param2(g) == Get32(g[12..], 0) && Param2(f) == Get32(f[12..], 0);
    }
    assert f[..24] == f && f[24..] == [];
  }

  /** A patched reply is again an extracted one; the edit shows in its search frame. */
  lemma PatchedReply(id: Word32, r: Bytes, e: Edit)
    requires Extracted(id, r) && Canonical(r)
    ensures var p := Patched(r, e);
            && Extracted(if e.SetId? then e.chanId else id, p) && Canonical(p)
            && Body(p) == Edited(Body(r), e)
  {
    hide IsReply, Edited, Patched, Get32;
    if |r| == 24 {
      EditedBody(r, e);
    } else {
      hide Command, PayloadLen;
      PatchedBehindVersion(r, e);
      EditedBody(r[HEADER..], e);
    }
  }

  lemma PatchedBehindVersion(r: Frame, e: Edit)
    requires |r| == 40 && Command(r) == CMD_VERSION && PayloadLen(r) == 0
    ensures var p: Frame := Patched(r, e);
            |p| == 40 && Command(p) == CMD_VERSION && PayloadLen(p) == 0 && p[HEADER..] == Patched(r[HEADER..], e)
  {
    hide Edited;
    var v: Frame := r[..HEADER];
    assert Command(v) == Command(r);
    EditedFields(v, e);
    assert Patched(r, e) == v + Patched(r[HEADER..], e);
    var p: Frame := Patched(r, e);
    assert p[..HEADER] == v;
    assert Command(p) == Command(v) && PayloadLen(p) == PayloadLen(v) == PayloadLen(r);
  }

  /** `r` answers for the IOC at `a` under channel id `id`. */
  predicate AnswersFor(r: Bytes, id: Word32, a: Addr) {
    && Extracted(id, r) && Canonical(r)
    && DataType(Body(r)) == a.port && Body(r)[8..12] == a.ip
  }

  /** The searcher's patch makes a reply answer for the IOC; the listener's patch then makes it answer the client. */
  lemma PatchesAnswer(id: Word32, r: Bytes, a: Addr, client: Word32)
    requires Extracted(id, r) && Canonical(r)
    ensures AnswersFor(Patched(r, SetAddr(a)), id, a)
    ensures AnswersFor(Patched(Patched(r, SetAddr(a)), SetId(client)), client, a)
  {
    PatchedReply(id, r, SetAddr(a));
    EditedFields(Body(r), SetAddr(a));
    var s := Patched(r, SetAddr(a));
    ReplaceId(id, s, a, client);
  }

  lemma ReplaceId(id: Word32, s: Bytes, a: Addr, client: Word32)
    requires AnswersFor(s, id, a)
    ensures AnswersFor(Patched(s, SetId(client)), client, a)
  {
    PatchedReply(id, s, SetId(client));
    EditedFields(Body(s), SetId(client));
    var g := Edited(Body(s), SetId(client));
    assert g[8..12] == g[..12][8..12] && DataType(g) == Get16(g[..12], 4) == Get16(Body(s)[..12], 4);
  }

  /** What a client's own parser makes of an answer: one reply, to its id, with the IOC's port. */
  lemma AnswerDecodes(r: Bytes, id: Word32, a: Addr)
    requires AnswersFor(r, id, a)
    ensures Replies(Frames(r), []) == [(id, r)]
    ensures ReplyPort(Frames(r)) == Some(a.port)
  {
    ReplyRoundTrip(id, r);
  }

  /** The response is a reply as the parser extracts it for the channel id, patched with the IOC's address. */
  ghost predicate FromIoc(response: Bytes, id: Word32, a: Addr) {
    exists r :: Extracted(id, r) && response == Patched(r, SetAddr(a))
  }

  /** An ill-formed VERSION in front of a reply spoils it for the client; nothing else does. */
  lemma FinalReplyExact(id: Word32, r: Bytes, a: Addr, client: Word32)
    requires Extracted(id, r)
    ensures var final := Patched(Patched(r, SetAddr(a)), SetId(client));
            Replies(Frames(final), []) == if Canonical(r) then [(client, final)] else []
  {
    var s := Patched(r, SetAddr(a));
    var final := Patched(s, SetId(client));
    if Canonical(r) {
      PatchesAnswer(id, r, a, client);
      AnswerDecodes(final, client, a);
    } else {
      VersionUntouched(r, SetAddr(a));
      VersionUntouched(s, SetId(client));
      ShortTailHasNoReply(final);
    }
  }

  /** A patch does not touch what makes a reply canonical. */
  lemma PatchKeepsCanonical(id: Word32, r: Bytes, e: Edit)
    requires Extracted(id, r)
    ensures Canonical(Patched(r, e)) <==> Canonical(r)
  {
    hide IsReply, Command, PayloadLen, Patched;
    if |r| == 40 {
      VersionUntouched(r, e);
    }
  }

  /**
   * What a client makes of a cached reply, whatever the IOC has sent: exactly one reply, to its
   * own id and for the IOC, if the VERSION header in front announces no payload, and else none.
   */
  lemma FinalAnswer(response: Bytes, id: Word32, a: Addr, client: Word32)
    requires FromIoc(response, id, a)
    ensures response != []
    ensures var final := Patched(response, SetId(client));
            if Canonical(response) then
              AnswersFor(final, client, a) && Replies(Frames(final), []) == [(client, final)]
              && ReplyPort(Frames(final)) == Some(a.port)
            else Replies(Frames(final), []) == []
  {
    hide Patched, AnswersFor, Replies, Frames, ReplyPort, IsReply, Canonical;
    var r :| Extracted(id, r) && response == Patched(r, SetAddr(a));
    PatchKeepsCanonical(id, r, SetAddr(a));
    FinalReplyExact(id, r, a, client);
    if Canonical(r) {
      PatchesAnswer(id, r, a, client);
      AnswerDecodes(Patched(response, SetId(client)), client, a);
    }
  }

  lemma VersionUntouched(r: Frame, e: Edit)
    requires Command(r) == CMD_VERSION
    ensures var p: Frame := Patched(r, e); Command(p) == CMD_VERSION && PayloadLen(p) == PayloadLen(r)
  {
    hide Edited;
    var v: Frame := r[..FrameLen(r)];
    assert Command(v) == Command(r);
    EditedFields(v, e);
    var p: Frame := Patched(r, e);
    assert p[..FrameLen(r)] == v;
    assert Command(p) == Command(v) && PayloadLen(p) == PayloadLen(v) == PayloadLen(r);
  }
}
