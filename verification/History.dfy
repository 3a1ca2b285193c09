/**
 * The whole life of a server: any number of turns of the main loop from a fresh start, and
 * what its clients are told meanwhile.
 */
module History {
  import opened Prelude
  import opened Framing
  import opened ChannelAccess
  import opened CodecLaws
  import opened NameServer
  import opened CacheLaws
  import opened ServerLaws
  import opened AccessControl
  import opened Reactor
  import opened Traces
  import opened Attribution
  import SearchWheel

  /** What one turn of the main loop depends on, and what it sends to clients and to IOCs. */
  datatype TurnLog = TurnLog(inputs: seq<Incoming>, world: World, ticking: seq<bool>, purge: Option<Word32>,
                             sent: seq<Bytes>, out: seq<Outgoing>)

  ghost predicate IsTurn(s: System, acl: Acl, log: TurnLog, t: System) {
    Turn(s, log.inputs, acl, log.world, log.ticking, log.purge, t, log.sent, log.out)
  }

  ghost predicate Turns(states: seq<System>, acl: Acl, turns: seq<TurnLog>) {
    |states| == |turns| + 1 && forall k | 0 <= k < |turns| :: IsTurn(states[k], acl, turns[k], states[k + 1])
  }

  lemma TurnsSize(states: seq<System>, acl: Acl, turns: seq<TurnLog>)
    requires Turns(states, acl, turns)
    ensures |states| == |turns| + 1
  {
    hide IsTurn;
  }

  lemma TurnAt(states: seq<System>, acl: Acl, turns: seq<TurnLog>, k: nat)
    requires Turns(states, acl, turns) && k < |turns|
    ensures |states| == |turns| + 1 && IsTurn(states[k], acl, turns[k], states[k + 1])
  {
    hide IsTurn;
  }

  // ---------------------------------------------------------------- replies come from datagrams

  /** Every reply in the run was extracted from a datagram. */
  ghost predicate AllReal(es: seq<Event>) {
    forall i | 0 <= i < |es| :: RealReply(es[i])
  }

  lemma AllRealAppend(es: seq<Event>, fs: seq<Event>)
    requires AllReal(es) && AllReal(fs)
    ensures AllReal(es + fs)
  {
    hide RealReply;
  }

  lemma {:induction false} ReadIocsReal(k: nat, ds: seq<IocDatagram>, now: Time)
    ensures AllReal(ReadIocs(k, ds, now))
    decreases ds
  {
    hide RealReply, IocEvents, Frames;
    if ds != [] {
      DatagramIsReal(k, ds[0].data, ds[0].ip, ds[0].created, now);
      ReadIocsReal(k, ds[1..], now);
      AllRealAppend(IocEvents(k, ds[0].data, ds[0].ip, ds[0].created, now), ReadIocs(k, ds[1..], now));
    }
  }

  lemma {:induction false} ReadClientsReal(acl: Acl, ds: seq<ClientDatagram>, now: Time)
    ensures AllReal(ReadClients(acl, ds, now))
    decreases ds
  {
    hide Wanted, Requests, Frames;
    if ds != [] {
      ReadClientsReal(acl, ds[1..], now);
      AllRealAppend(ClientEvents(acl, ds[0], now), ReadClients(acl, ds[1..], now));
    }
  }

  lemma {:induction false} InputsReal(conns: seq<Conn>, inputs: seq<Incoming>, acl: Acl, now: Time)
    requires |inputs| <= |conns|
    ensures AllReal(InEvents(conns, inputs, acl, now))
    decreases inputs
  {
    hide ReadClients, ReadIocs;
    if inputs != [] {
      match (conns[0], inputs[0]) {
        case (ListenerConn(_), FromClients(ds)) => ReadClientsReal(acl, ds, now);
        case (SearcherConn(k), FromIocs(ds)) => ReadIocsReal(k, ds, now);
        case _ =>
      }
      InputsReal(conns[1..], inputs[1..], acl, now);
      AllRealAppend(ReceiveEvents(conns[0], inputs[0], acl, now), InEvents(conns[1..], inputs[1..], acl, now));
    }
  }

  lemma {:induction false} SweepReal(s: System, i: nat, w: World, ticking: seq<bool>)
    requires Sane(s)
    ensures AllReal(SweepEvents(s, i, w, ticking))
    decreases |s.conns| - i
  {
    hide Sane, Possible, Run, Connected, PollEvents, SweepEvents, AllReal, EraseConn;
    if i < |s.conns| {
      SweepUnfold(s, i, w, ticking);
      PollReal(s.conns[i], w, ticking, i);
      var es := PollEvents(s.conns[i], w, ticking);
      var t := Run(s, es);
      if Connected(t, t.conns[i]) {
        SweepReal(t, i + 1, w, ticking);
        AllRealAppend(es, SweepEvents(t, i + 1, w, ticking));
      } else {
        EraseIsEvent(t, i);
        ErasedLength(t, i);
        SweepReal(EraseConn(t, i), i, w, ticking);
        AllRealAppend(es, [Erasing(i)]);
        AllRealAppend(es + [Erasing(i)], SweepEvents(EraseConn(t, i), i, w, ticking));
      }
    } else {
      SweepOver(s, i, w, ticking);
    }
  }

  lemma PollReal(c: Conn, w: World, ticking: seq<bool>, i: nat)
    ensures AllReal(PollEvents(c, w, ticking)) && AllReal([Erasing(i)])
  {
  }

  lemma ErasedLength(s: System, i: nat)
    requires i < |s.conns|
    ensures |EraseConn(s, i).conns| == |s.conns| - 1
  {
  }

  lemma SweepOver(s: System, i: nat, w: World, ticking: seq<bool>)
    requires Sane(s) && i >= |s.conns|
    ensures AllReal(SweepEvents(s, i, w, ticking))
  {
    hide Sane;
  }

  // ---------------------------------------------------------------- every turn, every history

  lemma TurnKeepsAnswers(s: System, acl: Acl, log: TurnLog, t: System)
    requires Inv(s) && Sane(s) && Answers(s) && IsTurn(s, acl, log, t)
    ensures Inv(t) && Sane(t) && Answers(t)
  {
    hide Inv, Answers, Turn, Dispatched, Grown, Tells, Emits, InEvents, SweepEvents, AfterPurge, Sane, Runs, AllReal;
    var w := log.world;
    var m1, m2 := TurnPhases(s, log.inputs, acl, w, log.ticking, log.purge, t, log.sent, log.out);
    InputsReal(s.conns[..|log.inputs|], log.inputs, acl, w.now);
    RunAnswers(s, InEvents(s.conns[..|log.inputs|], log.inputs, acl, w.now), m1);
    SweepReal(m1, 0, w, log.ticking);
    RunAnswers(m1, SweepEvents(m1, 0, w, log.ticking), m2);
    PurgeAnswers(m2, log.purge, w.now);
    InvIsSane(t);
  }

  lemma RunAnswers(s: System, es: seq<Event>, t: System)
    requires Inv(s) && Runs(s, es, t) && Answers(s) && AllReal(es)
    ensures Inv(t) && Sane(t) && Answers(t)
  {
    hide Inv, Answers, Sane, Run, Possible, RealReply;
    RunKeepsAnswers(s, es);
  }

  lemma PurgeAnswers(s: System, purge: Option<Word32>, now: Time)
    requires Inv(s) && Sane(s) && Answers(s)
    ensures Answers(AfterPurge(s, purge, now)) && Inv(AfterPurge(s, purge, now))
  {
    if purge.Some? {
      PurgeIsEvent(s, now, purge.value);
      var es := [Purging(now, purge.value)];
      assert AllReal(es);
      hide Inv, Answers, AfterPurge, AllReal, Runs, PurgeAll;
      RunAnswers(s, es, PurgeAll(s, now, purge.value));
    }
  }

  /**
   * After every turn the invariant holds, the connection list names exactly the guards of the
   * IOC table, and every cached reply is one that an IOC has sent, patched with the address of
   * the IOC that its guard watches.
   */
  lemma {:induction false} HistoryIsSound(states: seq<System>, acl: Acl, turns: seq<TurnLog>,
                                          searchers: nat, listeners: nat, configured: seq<Word32>, k: nat)
    requires Turns(states, acl, turns) && k <= |turns|
    requires |SearchWheel.Fresh(configured).bins| > 0 && states[0] == Start(searchers, listeners, configured)
    ensures Inv(states[k]) && Sane(states[k])
    ensures forall h :: GuardConn(h) in states[k].conns <==> h in states[k].iocs.Values
    ensures Answers(states[k])
  {
    hide Inv, Answers, IsTurn, Sane, Start;
    if k == 0 {
      StartIsSound(searchers, listeners, configured);
      StartIsEmpty(searchers, listeners, configured);
    } else {
      HistoryIsSound(states, acl, turns, searchers, listeners, configured, k - 1);
      assert IsTurn(states[k - 1], acl, turns[k - 1], states[k - 1 + 1]);
      TurnIsConsistent(states[k - 1], acl, turns[k - 1], states[k]);
      InvIsSane(states[k]);
      TurnKeepsAnswers(states[k - 1], acl, turns[k - 1], states[k]);
    }
  }

  lemma TurnIsConsistent(s: System, acl: Acl, log: TurnLog, t: System)
    requires Inv(s) && IsTurn(s, acl, log, t)
    ensures Inv(t) && forall h :: GuardConn(h) in t.conns <==> h in t.iocs.Values
  {
    hide Inv, Turn;
    TurnKeepsInv(s, log.inputs, acl, log.world, log.ticking, log.purge, t, log.sent, log.out);
  }

  lemma StartIsEmpty(searchers: nat, listeners: nat, configured: seq<Word32>)
    ensures var s := Start(searchers, listeners, configured);
            forall h :: GuardConn(h) !in s.conns && h !in s.iocs.Values
  {
  }

  /** The events of one turn; the guard holds in every history. */
  ghost function EventsOf(s: System, acl: Acl, log: TurnLog): seq<Event> {
    if !Sane(s) || |log.inputs| > |s.conns| then []
    else TurnEvents(s, log.inputs, acl, log.world, log.ticking, log.purge)
  }

  /** The events of the first `k` turns. */
  ghost function PastEvents(states: seq<System>, acl: Acl, turns: seq<TurnLog>, k: nat): seq<Event>
    requires Turns(states, acl, turns) && k <= |turns|
  {
    if k == 0 then [] else PastEvents(states, acl, turns, k - 1) + EventsOf(states[k - 1], acl, turns[k - 1])
  }

  /** The life of a server is one run of events, so all laws of runs hold of it. */
  lemma {:induction false} HistoryIsRun(states: seq<System>, acl: Acl, turns: seq<TurnLog>, k: nat)
    requires Turns(states, acl, turns) && k <= |turns| && Inv(states[0])
    ensures Runs(states[0], PastEvents(states, acl, turns, k), states[k]) && Inv(states[k])
  {
    hide Inv, Turns, IsTurn, Runs, EventsOf;
    TurnsSize(states, acl, turns);
    if k == 0 {
      NoTurns(states[0]);
    } else {
      HistoryIsRun(states, acl, turns, k - 1);
      TurnAt(states, acl, turns, k - 1);
      OneTurnMore(states[0], PastEvents(states, acl, turns, k - 1), states[k - 1], acl, turns[k - 1], states[k]);
    }
  }

  lemma NoTurns(s: System)
    requires Inv(s)
    ensures Runs(s, [], s)
  {
    hide Inv;
    InvIsSane(s);
    RunsNothing(s);
  }

  lemma OneTurnMore(start: System, past: seq<Event>, s: System, acl: Acl, log: TurnLog, t: System)
    requires Runs(start, past, s) && Inv(s) && IsTurn(s, acl, log, t)
    ensures Runs(start, past + EventsOf(s, acl, log), t) && Inv(t)
  {
    hide Inv, IsTurn, TurnEvents, Runs, Sane;
    TurnIsRun(s, acl, log, t);
    RunsAppend(start, past, s, EventsOf(s, acl, log), t);
  }

  lemma TurnIsRun(s: System, acl: Acl, log: TurnLog, t: System)
    requires Inv(s) && IsTurn(s, acl, log, t)
    ensures Sane(s) && |log.inputs| <= |s.conns| && Inv(t)
    ensures Runs(s, TurnEvents(s, log.inputs, acl, log.world, log.ticking, log.purge), t)
  {
    hide Inv, Turn, TurnEvents, Sane, Runs;
    TurnKeepsInv(s, log.inputs, acl, log.world, log.ticking, log.purge, t, log.sent, log.out);
  }

  lemma EventsAreReal(s: System, acl: Acl, log: TurnLog)
    ensures AllReal(EventsOf(s, acl, log))
  {
    hide AllReal, InEvents, SweepEvents, Sane, Possible, Run;
    NothingIsReal(log.world.now);
    if Sane(s) && |log.inputs| <= |s.conns| {
      var w := log.world;
      var received := InEvents(s.conns[..|log.inputs|], log.inputs, acl, w.now);
      InputsReal(s.conns[..|log.inputs|], log.inputs, acl, w.now);
      if Possible(s, received) {
        var swept := SweepEvents(Run(s, received), 0, w, log.ticking);
        SweepReal(Run(s, received), 0, w, log.ticking);
        AllRealAppend(received, swept);
        if log.purge.Some? {
          PurgeIsReal(w.now, log.purge.value);
          AllRealAppend(received + swept, [Purging(w.now, log.purge.value)]);
        } else {
          AllRealAppend(received + swept, []);
        }
      }
    }
  }

  lemma NothingIsReal(now: Time)
    ensures AllReal([])
  {
  }

  lemma PurgeIsReal(now: Time, maxtime: Word32)
    ensures AllReal([Purging(now, maxtime)])
  {
  }

  lemma {:induction false} PastIsReal(states: seq<System>, acl: Acl, turns: seq<TurnLog>, k: nat)
    requires Turns(states, acl, turns) && k <= |turns|
    ensures AllReal(PastEvents(states, acl, turns, k))
  {
    hide Turns, AllReal, EventsOf;
    if k == 0 {
      NothingIsReal(0);
    } else {
      TurnsSize(states, acl, turns);
      PastIsReal(states, acl, turns, k - 1);
      EventsAreReal(states[k - 1], acl, turns[k - 1]);
      AllRealAppend(PastEvents(states, acl, turns, k - 1), EventsOf(states[k - 1], acl, turns[k - 1]));
    }
  }

  // ---------------------------------------------------------------- what clients are told

  /**
   * The packet answers this request in state `m`: it is the reply cached for that very name,
   * under the asker's id. It decodes to that one answer, and names the IOC that the name's own
   * guard watches, which is up, if the IOC's reply came without a VERSION payload; else it
   * decodes to nothing.
   */
  ghost predicate RightAnswer(p: Bytes, ask: (Word32, PvName), m: System)
    requires Sane(m)
  {
    && CachedLive(m, ask.1) && ask.1 in View(m)
    && var (addr, response) := View(m)[ask.1];
       && p == Patched(response, SetId(ask.0))
       && addr == m.guards[m.pvs[ask.1].guard].addr
       && if Canonical(response) then
            AnswersFor(p, ask.0, addr) && Replies(Frames(p), []) == [(ask.0, p)]
                && ReplyPort(Frames(p)) == Some(addr.port)
          else Replies(Frames(p), []) == []
  }

  /** A search is answered exactly if the name is cached live, and then rightly. */
  lemma SearchIsAnswered(m: System, ask: (Word32, PvName), now: Time, p: Bytes)
    requires Inv(m) && Sane(m) && Answers(m) && |ask.1| <= MAX_NAME
    ensures p in PacketFor(Step(m, Search(ask.1, now)).1, Some(ask)) <==> RightAnswer(p, ask, m)
  {
    hide Inv, Sane, Answers, AnswersFor, Canonical, Patched, Replies, Frames, ReplyPort, PvSearched, View, CachedLive,
         Step;
    ClientGetsLiveIoc(m, ask.1, now, ask.0);
    ViewIsLive(m, ask.1);
    SearchIsSeen(m, ask.1, now);
  }

  lemma ViewIsLive(m: System, name: PvName)
    requires Sane(m)
    ensures name in View(m) <==> CachedLive(m, name)
    ensures CachedLive(m, name) ==> name in m.pvs && m.pvs[name].guard < |m.guards|
  {
    hide SearchWheel.Valid;
  }

  lemma SearchIsSeen(m: System, name: PvName, now: Time)
    requires Sane(m) && |name| <= MAX_NAME
    ensures Step(m, Search(name, now)).1 == Answered(name, PvSearched(m, name, now).1)
  {
    hide Sane, PvSearched;
  }

  /** At event `j` of the run the packet rightly answers the request that the event is made for. */
  ghost predicate AnsweredAt(p: Bytes, s: System, es: seq<Event>, asks: seq<Ask>, j: nat) {
    && j < |es| == |asks| && asks[j].Some?
    && exists m :: Runs(s, es[..j], m) && Sane(m) && RightAnswer(p, asks[j].value, m)
  }

  /** Client requests come with searches for their names. */
  ghost predicate Matching(es: seq<Event>, asks: seq<Ask>) {
    |es| == |asks| && forall j | 0 <= j < |es| && asks[j].Some? :: es[j].Search? && es[j].name == asks[j].value.1
  }

  /** One event of a run and its packet. */
  lemma EventIsAnswered(s: System, es: seq<Event>, asks: seq<Ask>, j: nat, p: Bytes)
    requires Inv(s) && Sane(s) && Answers(s) && Possible(s, es) && AllReal(es) && Matching(es, asks) && j < |es|
    ensures p in PacketFor(Trace(s, es)[j], asks[j]) <==> AnsweredAt(p, s, es, asks, j)
  {
    hide Inv, Sane, Answers, Step, Enabled, PacketFor, RightAnswer, RealReply;
    RunUntil(s, es, j);
    var m := Run(s, es[..j]);
    assert Runs(s, es[..j], m);
    assert AllReal(es[..j]);
    RunAnswers(s, es[..j], m);
    if asks[j].Some? {
      SearchIsShort(m, es[j]);
      SearchIsAnswered(m, asks[j].value, es[j].now, p);
    } else {
      NoAskNoPacket(Trace(s, es)[j], p);
    }
  }

  lemma NoAskNoPacket(seen: Seen, p: Bytes)
    ensures p !in PacketFor(seen, None)
  {
  }

  lemma SearchIsShort(m: System, e: Event)
    requires Sane(m) && Enabled(m, e) && e.Search?
    ensures |e.name| <= MAX_NAME
  {
  }

  /** Exactly the right answers are sent. */
  lemma RunAnswersExactly(s: System, es: seq<Event>, asks: seq<Ask>, t: System, sent: seq<Bytes>)
    requires Inv(s) && Sane(s) && Answers(s) && AllReal(es) && Matching(es, asks) && Tells(s, es, asks, t, sent)
    ensures forall p :: p in sent <==> exists j :: AnsweredAt(p, s, es, asks, j)
  {
    hide Inv, Sane, Answers, AllReal, Possible, Trace, Packets, PacketFor;
    forall p ensures p in sent <==> exists j :: AnsweredAt(p, s, es, asks, j) {
      PacketsMember(Trace(s, es), asks, p);
      forall j: nat | j < |es| ensures p in PacketFor(Trace(s, es)[j], asks[j]) <==> AnsweredAt(p, s, es, asks, j) {
        EventIsAnswered(s, es, asks, j, p);
      }
    }
  }

  /** The packets are sent in the order of the requests that they answer, one for each. */
  lemma RunAnswersInOrder(s: System, es: seq<Event>, asks: seq<Ask>, t: System, sent: seq<Bytes>)
    returns (idx: seq<nat>)
    requires Inv(s) && Sane(s) && Answers(s) && AllReal(es) && Matching(es, asks) && Tells(s, es, asks, t, sent)
    ensures |idx| == |sent| && Increasing(idx, |es|)
    ensures forall i | 0 <= i < |sent| :: AnsweredAt(sent[i], s, es, asks, idx[i])
    ensures forall p, j | AnsweredAt(p, s, es, asks, j) :: j in idx
  {
    hide Inv, Sane, Answers, AllReal, Possible, Trace, Packets, PacketFor, AnsweredAt;
    idx := PacketsInOrder(Trace(s, es), asks);
    forall i | 0 <= i < |sent| ensures AnsweredAt(sent[i], s, es, asks, idx[i]) {
      EventIsAnswered(s, es, asks, idx[i], sent[i]);
    }
    forall p, j | AnsweredAt(p, s, es, asks, j) ensures j in idx {
      AnsweredInRange(p, s, es, asks, j);
      EventIsAnswered(s, es, asks, j, p);
    }
  }

  lemma AnsweredInRange(p: Bytes, s: System, es: seq<Event>, asks: seq<Ask>, j: nat)
    requires AnsweredAt(p, s, es, asks, j)
    ensures j < |es| == |asks|
  {
    hide Runs, Sane, RightAnswer;
  }

  /** Some listener read a datagram that makes this request, and the rules allow it. */
  ghost predicate Requested(conns: seq<Conn>, inputs: seq<Incoming>, acl: Acl, ask: (Word32, PvName)) {
    exists k, d | 0 <= k < |inputs| <= |conns| && conns[k].ListenerConn? && inputs[k].FromClients?
        && d in inputs[k].requests ::
      ask in WantedIn(acl, d)
  }

  lemma {:induction false} ReadAsksMatch(acl: Acl, ds: seq<ClientDatagram>, now: Time)
    ensures Matching(ReadClients(acl, ds, now), ReadAsks(acl, ds))
    ensures forall ask :: Some(ask) in ReadAsks(acl, ds) <==> exists d | d in ds :: ask in WantedIn(acl, d)
    decreases ds
  {
    hide WantedIn;
    if ds != [] {
      ReadAsksMatch(acl, ds[1..], now);
      var wanted := WantedIn(acl, ds[0]);
      forall ask ensures Some(ask) in ReadAsks(acl, ds) <==> exists d | d in ds :: ask in WantedIn(acl, d) {
        AskersMember(wanted, ask);
        assert ds == [ds[0]] + ds[1..];
      }
    }
  }

  lemma AskersMember(wanted: seq<(Word32, PvName)>, ask: (Word32, PvName))
    ensures Some(ask) in AskersOf(wanted) <==> ask in wanted
  {
    if ask in wanted {
      var i :| 0 <= i < |wanted| && wanted[i] == ask;
      assert AskersOf(wanted)[i] == Some(ask);
    }
  }

  lemma ReceiveAsksMatch(c: Conn, input: Incoming, acl: Acl, now: Time)
    ensures Matching(ReceiveEvents(c, input, acl, now), ReceiveAsks(c, input, acl, now))
    ensures forall ask :: Some(ask) in ReceiveAsks(c, input, acl, now) <==>
              c.ListenerConn? && input.FromClients? && exists d | d in input.requests :: ask in WantedIn(acl, d)
  {
    hide WantedIn, ReadClients, ReadIocs, ReadAsks;
    if c.ListenerConn? && input.FromClients? {
      ReadAsksMatch(acl, input.requests, now);
    }
  }

  /** The requests that a dispatch answers are exactly those that came in. */
  lemma {:induction false} AsksAreRequests(conns: seq<Conn>, inputs: seq<Incoming>, acl: Acl, now: Time)
    requires |inputs| <= |conns|
    ensures Matching(InEvents(conns, inputs, acl, now), InAsks(conns, inputs, acl, now))
    ensures forall ask :: Some(ask) in InAsks(conns, inputs, acl, now) <==> Requested(conns, inputs, acl, ask)
    decreases inputs
  {
    hide WantedIn, ReceiveEvents, ReceiveAsks;
    if inputs != [] {
      ReceiveAsksMatch(conns[0], inputs[0], acl, now);
      AsksAreRequests(conns[1..], inputs[1..], acl, now);
      forall ask ensures Some(ask) in InAsks(conns, inputs, acl, now) <==> Requested(conns, inputs, acl, ask) {
        RequestedCons(conns, inputs, acl, ask);
      }
    }
  }

  lemma RequestedCons(conns: seq<Conn>, inputs: seq<Incoming>, acl: Acl, ask: (Word32, PvName))
    requires inputs != [] && |inputs| <= |conns|
    ensures Requested(conns, inputs, acl, ask) <==>
              || (conns[0].ListenerConn? && inputs[0].FromClients?
                  && exists d | d in inputs[0].requests :: ask in WantedIn(acl, d))
              || Requested(conns[1..], inputs[1..], acl, ask)
  {
    hide WantedIn;
    if Requested(conns[1..], inputs[1..], acl, ask) {
      var k, d :| 0 <= k < |inputs[1..]| && conns[1..][k].ListenerConn? && inputs[1..][k].FromClients?
                  && d in inputs[1..][k].requests && ask in WantedIn(acl, d);
      assert conns[1..][k] == conns[k + 1] && inputs[1..][k] == inputs[k + 1];
    }
    if Requested(conns, inputs, acl, ask) {
      var k, d :| 0 <= k < |inputs| && conns[k].ListenerConn? && inputs[k].FromClients?
                  && d in inputs[k].requests && ask in WantedIn(acl, d);
      if k > 0 {
        assert conns[1..][k - 1] == conns[k] && inputs[1..][k - 1] == inputs[k];
      }
    }
  }

  /**
   * What a turn tells clients, exactly. Each request that came in is an event of the turn's own
   * run, and nothing else is; a packet is sent if and only if it rightly answers one of them
   * in the state which that run has reached at its event. There is one for each that has an
   * answer, in the order of the requests.
   */
  lemma TurnIsHonest(s: System, acl: Acl, log: TurnLog, t: System) returns (idx: seq<nat>)
    requires Inv(s) && Sane(s) && Answers(s) && IsTurn(s, acl, log, t)
    ensures |log.inputs| <= |s.conns|
    ensures var conns := s.conns[..|log.inputs|];
            var es, asks := InEvents(conns, log.inputs, acl, log.world.now),
                InAsks(conns, log.inputs, acl, log.world.now);
            && (forall ask :: Some(ask) in asks <==> Requested(conns, log.inputs, acl, ask))
            && (forall p :: p in log.sent <==> exists j :: AnsweredAt(p, s, es, asks, j))
            && |idx| == |log.sent| && Increasing(idx, |es|)
            && (forall i | 0 <= i < |log.sent| :: AnsweredAt(log.sent[i], s, es, asks, idx[i]))
            && (forall p, j | AnsweredAt(p, s, es, asks, j) :: j in idx)
  {
    hide Inv, Sane, Answers, Turn, Dispatched, Grown, Tells, Emits, InEvents, InAsks, SweepEvents, AfterPurge, Runs,
         AllReal, Requested, AnsweredAt, Matching;
    var now := log.world.now;
    var m1, m2 := TurnPhases(s, log.inputs, acl, log.world, log.ticking, log.purge, t, log.sent, log.out);
    var conns := s.conns[..|log.inputs|];
    InputsReal(conns, log.inputs, acl, now);
    AsksAreRequests(conns, log.inputs, acl, now);
    var es, asks := InEvents(conns, log.inputs, acl, now), InAsks(conns, log.inputs, acl, now);
    RunAnswersExactly(s, es, asks, m1, log.sent);
    idx := RunAnswersInOrder(s, es, asks, m1, log.sent);
  }

  /** Fewer than 2^32 names have been added in each searcher. */
  ghost predicate FewAdded(s: System, es: seq<Event>)
    requires Sane(s) && Possible(s, es)
  {
    forall k | 0 <= k < |s.searchers| :: |OwnersIn(s, es, k)| < POW32
  }

  /** The reply cached for the name was extracted from a datagram and came under the name's own channel id. */
  ghost predicate HasEarned(s: System, es: seq<Event>, name: PvName)
    requires Sane(s) && Possible(s, es)
  {
    exists i: nat :: Earned(s, es, name, i) && RealReply(es[i])
  }

  /** The packet is the right answer to the request after this run, and earned by an IOC in it. */
  ghost predicate Truthful(p: Bytes, s: System, es: seq<Event>, ask: (Word32, PvName)) {
    && Sane(s) && Possible(s, es) && (FewAdded(s, es) ==> HasEarned(s, es, ask.1))
    && exists m :: Runs(s, es, m) && Sane(m) && RightAnswer(p, ask, m)
  }

  /**
   * No client is ever misled, from the start of the server on and whatever datagrams arrive: a
   * packet sent in any turn answers a request, made in that turn and allowed by the rules, with
   * the reply which an IOC, up at that moment, has sent under the channel id that the requested
   * name owns. It decodes to just that, or to nothing if that one reply had a VERSION payload.
   */
  lemma EveryAnswerIsEarned(states: seq<System>, acl: Acl, turns: seq<TurnLog>, searchers: nat, listeners: nat,
                            configured: seq<Word32>, k: nat, p: Bytes)
    returns (j: nat, ask: (Word32, PvName))
    requires Turns(states, acl, turns) && k < |turns| && p in turns[k].sent
    requires |SearchWheel.Fresh(configured).bins| > 0 && states[0] == Start(searchers, listeners, configured)
    ensures |turns[k].inputs| <= |states[k].conns|
    ensures var conns := states[k].conns[..|turns[k].inputs|];
            var es := InEvents(conns, turns[k].inputs, acl, turns[k].world.now);
            && Requested(conns, turns[k].inputs, acl, ask) && j <= |es|
            && Truthful(p, states[0], PastEvents(states, acl, turns, k) + es[..j], ask)
  {
    hide Inv, Sane, Answers, Turns, IsTurn, Requested, RightAnswer, AnsweredAt, Start, InEvents, InAsks, AllReal,
         Runs, Truthful;
    TurnsSize(states, acl, turns);
    HistoryIsSound(states, acl, turns, searchers, listeners, configured, k);
    HistoryIsSound(states, acl, turns, searchers, listeners, configured, 0);
    HistoryIsRun(states, acl, turns, k);
    TurnAt(states, acl, turns, k);
    var s, log := states[k], turns[k];
    var idx := TurnIsHonest(s, acl, log, states[k + 1]);
    var conns := s.conns[..|log.inputs|];
    var es, asks := InEvents(conns, log.inputs, acl, log.world.now), InAsks(conns, log.inputs, acl, log.world.now);
    j :| AnsweredAt(p, s, es, asks, j);
    var m := MomentOf(p, s, es, asks, j);
    ask := asks[j].value;
    assert Some(ask) in asks;
    RunsAppend(states[0], PastEvents(states, acl, turns, k), s, es[..j], m);
    PastIsReal(states, acl, turns, k);
    InputsReal(conns, log.inputs, acl, log.world.now);
    RealPrefix(PastEvents(states, acl, turns, k), es, j);
    IsTruthful(searchers, listeners, configured, PastEvents(states, acl, turns, k) + es[..j], m, p, ask);
  }

  lemma IsTruthful(searchers: nat, listeners: nat, configured: seq<Word32>, past: seq<Event>, m: System,
                   p: Bytes, ask: (Word32, PvName))
    requires |SearchWheel.Fresh(configured).bins| > 0 && AllReal(past) && Sane(m) && RightAnswer(p, ask, m)
    requires Runs(Start(searchers, listeners, configured), past, m)
    ensures Truthful(p, Start(searchers, listeners, configured), past, ask)
  {
    hide Start, Sane, Possible, Run, OwnersIn, View, Earned, RealReply, RightAnswer, HasEarned;
    var s := Start(searchers, listeners, configured);
    RunsTo(s, past, m);
    AnswerIsCached(p, ask, m);
    if FewAdded(s, past) {
      var i := CachedIsEarned(searchers, listeners, configured, past, ask.1);
      EarnedIsHad(s, past, ask.1, i);
    }
  }

  lemma EarnedIsHad(s: System, es: seq<Event>, name: PvName, i: nat)
    requires Sane(s) && Possible(s, es) && Earned(s, es, name, i) && AllReal(es)
    ensures HasEarned(s, es, name)
  {
    hide Sane, Possible, OwnersIn, RealReply;
  }

  lemma RealPrefix(past: seq<Event>, es: seq<Event>, j: nat)
    requires AllReal(past) && AllReal(es) && j <= |es|
    ensures AllReal(past + es[..j])
  {
    hide RealReply;
  }

  lemma MomentOf(p: Bytes, s: System, es: seq<Event>, asks: seq<Ask>, j: nat) returns (m: System)
    requires AnsweredAt(p, s, es, asks, j)
    ensures j < |es| == |asks| && asks[j].Some? && Runs(s, es[..j], m) && Sane(m) && RightAnswer(p, asks[j].value, m)
  {
    hide Runs, Sane, RightAnswer;
    m :| Runs(s, es[..j], m) && Sane(m) && RightAnswer(p, asks[j].value, m);
  }

  lemma AnswerIsCached(p: Bytes, ask: (Word32, PvName), m: System)
    requires Sane(m) && RightAnswer(p, ask, m)
    ensures ask.1 in View(m)
  {
    hide Sane, View;
  }
}
