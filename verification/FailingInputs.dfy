/** Inputs on which the server does not do what it is meant to do. */
module FailingInputs {
  import opened Prelude
  import opened Framing
  import opened ChannelAccess
  import opened CodecLaws
  import opened NameServer
  import opened CacheLaws
  import SearchWheel
  import Schedule
  import LostReplies
  import ServerLaws
  import Searchers

  // ---------------------------------------------------------------- a guard that cannot be created

  lemma FirstIsFound(name: PvName, now: Time)
    requires |name| <= ChannelAccess.MAX_NAME
    ensures var w := SearchWheel.Fresh([1]);
            && SearchWheel.Valid(w)
            && SearchWheel.Resolve(SearchWheel.Add(w, name, now).0, 0).1 == Some(name)
  {
    assert SearchWheel.Backoff([1]) == [1, 2, 10];
    var w := SearchWheel.Fresh([1]);
    assert SearchWheel.Find(w.bins, SearchWheel.ScanOrder(10), SearchWheel.ByName(name)).None?;
    var next := SearchWheel.Add(w, name, now).0;
    assert next.bins[0][0].chanId == 0 && next.currentBin == 0 && |next.bins| == 10;
    Schedule.ProbeCoverage(0, 10, 0);
    hide SearchWheel.ProbeOrder;
    assert SearchWheel.Find(next.bins, SearchWheel.ProbeOrder(0, 10), SearchWheel.ById(0)).Some?;
  }

  /** A new server that has been asked for one name finds it under id 0. */
  lemma FirstSearch(n: nat, name: PvName, now: Time)
    requires |name| <= MAX_NAME && n > 0
    ensures Sane(Start(n, 0, [1])) && Enabled(Start(n, 0, [1]), Search(name, now))
    ensures var t := Step(Start(n, 0, [1]), Search(name, now)).0;
            && Inv(t) && InStep(t) && |t.searchers| == n && t.iocs == map[]
            && SearchWheel.Valid(t.searchers[0]) && SearchWheel.Resolve(t.searchers[0], 0).1 == Some(name)
  {
    FirstIsFound(name, now);
    var s, search := Start(n, 0, [1]), Search(name, now);
    ServerLaws.StartIsSound(n, 0, [1]);
    InvIsSane(s);
    StepKeepsInv(s, search);
    StepKeepsInStep(s, search);
    StepKeepsCount(s, search);
    assert Step(s, search).0.searchers[0] == SearchWheel.Add(SearchWheel.Fresh([1]), name, now).0;
  }

  /**
   * The failing input: two searchers, one client request, and a reply for which no guard can be
   * had. The name is gone from one searcher and not from the other.
   */
  lemma GuardCanFail(name: PvName, addr: Addr, response: Bytes, now: Time)
    requires |name| <= ChannelAccess.MAX_NAME
    ensures var s, search, e := Start(2, 0, [1]), Search(name, now), Reply(0, 0, addr, response, false, now);
            && Sane(s) && Enabled(s, search)
            && var t := Step(s, search).0;
               && Enabled(t, e) && GuardFails(t, e) && InStep(t) && !InStep(Step(t, e).0)
  {
    FirstSearch(2, name, now);
    var t, e := Step(Start(2, 0, [1]), Search(name, now)).0, Reply(0, 0, addr, response, false, now);
    InvIsSane(t);
    hide SearchWheel.Resolve, Inv, InStep, Start;
    InStepExactly(t, e);
  }

  // ---------------------------------------------------------------- a VERSION message with a payload

  const SPOILER: Frame := HeaderBytes(CMD_VERSION, 8, 1, 13, 0, 0)

  function ReplyFrame(port: Word16, id: Word32): Frame {
    HeaderBytes(CMD_SEARCH, 8, port, 0, 0xffff_ffff, id) + Zeros(8)
  }

  /** A VERSION message with 8 bytes of payload, and a search reply. */
  function Spoiled(port: Word16, id: Word32): (d: Bytes)
    ensures |d| == 48
  {
    SPOILER + Zeros(8) + ReplyFrame(port, id)
  }

  lemma SpoiledParses(port: Word16, id: Word32)
    ensures var r := SPOILER + ReplyFrame(port, id); var fs := Frames(Spoiled(port, id));
            && Replies(fs, []) == [(id, r)] && ReplyPort(fs) == Some(port)
            && Extracted(id, r) && !Canonical(r) && r != []
  {
    var v: Frame, f := SPOILER + Zeros(8), ReplyFrame(port, id);
    HeaderFields(CMD_VERSION, 8, 1, 13, 0, 0, Zeros(8));
    HeaderFields(CMD_VERSION, 8, 1, 13, 0, 0, f);
    HeaderFields(CMD_SEARCH, 8, port, 0, 0xffff_ffff, id, Zeros(8));
    hide HeaderBytes, Zeros, Get16, Get32;
    FramesOfExact(v, f);
    assert f + [] == f;
    FramesOfExact(f, []);
    EmptyFrames();
    assert Frames(Spoiled(port, id)) == [v] + [f];
    assert v[..HEADER] == SPOILER && f[..HEADER + 8] == f;
    TwoFrames(v, f);
    ExtractedByParser(SPOILER, f);
  }

  lemma TwoFrames(v: Frame, f: Frame)
    requires Command(v) == CMD_VERSION && IsReply(f)
    ensures Replies([v] + [f], []) == [(Param2(f), v[..HEADER] + f[..HEADER + 8])]
            && ReplyPort([v] + [f]) == Some(DataType(f))
  {
    hide Get16, Get32;
    assert ([v] + [f])[1..] == [f] && [f][1..] == [];
    IsReplyIsNoVersion(f);
    NoReplyInVersion(v);
    assert Replies([f], v[..HEADER]) == [(Param2(f), v[..HEADER] + f[..HEADER + 8])] + Replies([], v[..HEADER]);
  }

  /**
   * The failing input: a client asks for a name, the IOC's reply comes behind a VERSION message
   * with a payload, and the next client is sent a packet in which its parser finds no reply.
   */
  lemma AnswerCanBeSpoiled(name: PvName, ip: IPv4, port: Word16, client: Word32, now: Time)
    requires |name| <= MAX_NAME
    ensures var s, search := Start(1, 0, [1]), Search(name, now);
            && Sane(s) && Enabled(s, search)
            && var t, es := Step(s, search).0, ServerLaws.IocEvents(0, Spoiled(port, 0), ip, [true], now);
               && |es| == 1 && Enabled(t, es[0])
               && var rsp := PvSearched(Step(t, es[0]).0, name, now).1;
                  rsp != [] && Replies(Frames(Patched(rsp, SetId(client))), []) == []
  {
    hide SearchWheel.Resolve, Inv, Sane, Frames, Replies, Patched, Spoiled, Start, Step, PvSearched, SpoiledReply;
    FirstSearch(1, name, now);
    var addr := Addr(ip, port);
    SpoiledEvents(port, 0, ip, now);
    SpoiledDecodes(port, 0, addr, client);
    FoundIsServed(Step(Start(1, 0, [1]), Search(name, now)).0, 0, 0, addr, SpoiledReply(port, 0, addr), now, name);
  }

  /** What is cached of the spoiled reply. */
  function SpoiledReply(port: Word16, id: Word32, addr: Addr): Bytes {
    Patched(SPOILER + ReplyFrame(port, id), SetAddr(addr))
  }

  lemma SpoiledEvents(port: Word16, id: Word32, ip: IPv4, now: Time)
    ensures ServerLaws.IocEvents(0, Spoiled(port, id), ip, [true], now) ==
            [Reply(0, id, Addr(ip, port), SpoiledReply(port, id, Addr(ip, port)), true, now)]
  {
    hide Frames, Replies, ReplyPort, Patched, Spoiled, Extracted, Canonical, HeaderBytes, ReplyFrame;
    SpoiledParses(port, id);
  }

  lemma SpoiledDecodes(port: Word16, id: Word32, addr: Addr, client: Word32)
    ensures SpoiledReply(port, id, addr) != []
    ensures Replies(Frames(Patched(SpoiledReply(port, id, addr), SetId(client))), []) == []
  {
    hide Frames, Replies, ReplyPort, Patched, Extracted, Canonical, HeaderBytes, ReplyFrame;
    SpoiledParses(port, id);
    FinalReplyExact(id, SPOILER + ReplyFrame(port, id), addr, client);
  }

  lemma FoundIsServed(t: System, k: nat, id: Word32, addr: Addr, rsp: Bytes, now: Time, name: PvName)
    requires Inv(t) && k < |t.searchers| && |name| <= MAX_NAME
    requires SearchWheel.Resolve(t.searchers[k], id).1 == Some(name)
    ensures PvSearched(Step(t, Reply(k, id, addr, rsp, true, now)).0, name, now).1 == rsp
  {
    var e := Reply(k, id, addr, rsp, true, now);
    InvIsSane(t);
    hide Inv, Sane, SearchWheel.Resolve, ReplyArrived, PvSearched, View, CachedLive;
    FoundIsResolved(t, k, id, addr, rsp, true, now);
    FoundView(t, k, id, addr, rsp, true, now);
    StepKeepsInv(t, e);
    SearchView(Step(t, e).0, name, now);
  }

  // ---------------------------------------------------------------- searches without a pause

  /**
   * The failing input: once 99 ms have passed since its construction, a searcher sends two
   * requests for the same name in two calls at the same instant.
   */
  lemma TwoSearchesAtOnce(s: Searchers.Searcher, name: PvName, asked: Time, now: Time)
    requires |name| <= MAX_NAME && SearchWheel.Valid(SearchWheel.Fresh([1]))
    requires s.Model() == SearchWheel.Add(SearchWheel.Fresh([1]), name, asked).0
             && now >= s.lastSearch + 99 * MILLISECOND
    ensures s.Ticks(now) && SearchWheel.Valid(s.Model())
    ensures var (w, first) := SearchWheel.Tick(s.Model());
            && first == [(0, name)]
            && SearchWheel.Valid(w) && SearchWheel.Tick(w).1 == [(0, name)]
  {
    s.RateLimitIsOnce(now, now);
    assert SearchWheel.Backoff([1]) == [1, 2, 10];
    var w, pv := SearchWheel.Fresh([1]), SearchWheel.SearchedPv(0, name, asked, [1, 2, 10]);
    assert SearchWheel.Find(w.bins, SearchWheel.ScanOrder(10), SearchWheel.ByName(name)).None?;
    assert [pv] + [] == [pv];
    assert s.Model() == LostReplies.Lone(0, 0, pv);
    LostReplies.LoneMoves(0, 1, pv);
    var next := pv.(intervals := Schedule.Left(pv.intervals));
    LostReplies.LoneMoves(1, 3, next);
  }
}
