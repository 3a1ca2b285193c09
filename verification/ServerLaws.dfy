/**
 * What a client can rely on: the laws of the searchers, the guards and the codec, carried
 * over to whole runs of the name server.
 */
module ServerLaws {
  import opened Prelude
  import opened Framing
  import opened ChannelAccess
  import opened CodecLaws
  import opened NameServer
  import opened CacheLaws
  import SearchWheel
  import SearchRuns
  import Heartbeat

  // ---------------------------------------------------------------- each searcher runs on its own

  /** What one event of the server means to searcher `k`. */
  function SearcherEvents(s: System, e: Event, k: nat): seq<SearchRuns.Event>
    requires Sane(s) && Enabled(s, e)
  {
    match e
    case Search(name, now) => if CachedLive(s, name) then [] else [SearchRuns.Search(name, now)]
    case Reply(i, id, addr, _, created, _) =>
      var found := SearchWheel.Resolve(s.searchers[i], id).1;
      (if i == k then [SearchRuns.Reply(id)] else [])
      + (if found.Some? && (addr in s.iocs || created) then [SearchRuns.Forget(found.value)] else [])
    case Ticking(i) => if i == k then [SearchRuns.SendTick] else []
    case Purging(now, maxtime) => [SearchRuns.PurgeAt(now, maxtime)]
    case Guarding(_, _) => []
    case Erasing(_) => []
  }

  function SearcherRun(s: System, es: seq<Event>, k: nat): seq<SearchRuns.Event>
    requires Sane(s) && Possible(s, es)
    decreases es
  {
    if es == [] then [] else SearcherEvents(s, es[0], k) + SearcherRun(Step(s, es[0]).0, es[1..], k)
  }

  lemma {:induction false} WheelRunAppend(w: SearchWheel.Wheel, es: seq<SearchRuns.Event>, fs: seq<SearchRuns.Event>)
    requires SearchWheel.Valid(w)
    ensures SearchRuns.Run(w, es + fs) == SearchRuns.Run(SearchRuns.Run(w, es), fs)
    decreases es
  {
    hide SearchRuns.Step;
    if es == [] {
      assert es + fs == fs;
    } else {
      assert (es + fs)[1..] == es[1..] + fs && (es + fs)[0] == es[0];
      WheelRunAppend(SearchRuns.Step(w, es[0]).0, es[1..], fs);
    }
  }

  lemma WheelRunOne(w: SearchWheel.Wheel, e: SearchRuns.Event)
    requires SearchWheel.Valid(w)
    ensures SearchRuns.Run(w, [e]) == SearchRuns.Step(w, e).0 && SearchRuns.Run(w, []) == w
  {
    hide SearchRuns.Step;
    assert [e][1..] == [];
  }

  lemma StepProjects(s: System, e: Event, k: nat)
    requires Sane(s) && Enabled(s, e) && k < |s.searchers|
    ensures |Step(s, e).0.searchers| == |s.searchers|
    ensures Step(s, e).0.searchers[k] == SearchRuns.Run(s.searchers[k], SearcherEvents(s, e, k))
  {
    hide SearchRuns.Run, SearchWheel.Valid, SearchWheel.Add, SearchWheel.Remove, SearchWheel.Resolve,
         SearchWheel.Tick, SearchWheel.Purge, GuardFor;
    var w := s.searchers[k];
    assert SearchWheel.Valid(w);
    match e
    case Search(name, now) => WheelRunOne(w, SearchRuns.Search(name, now));
    case Reply(i, id, addr, response, created, now) => ReplyProjects(s, e, k);
    case Ticking(i) => WheelRunOne(w, SearchRuns.SendTick);
    case Purging(now, maxtime) => WheelRunOne(w, SearchRuns.PurgeAt(now, maxtime));
    case Guarding(_, _) => WheelRunOne(w, SearchRuns.SendTick);
    case Erasing(_) => WheelRunOne(w, SearchRuns.SendTick);
  }

  lemma PvFoundSearchers(s: System, name: PvName, addr: Addr, response: Bytes, created: bool, now: Time, k: nat)
    requires Sane(s) && k < |s.searchers|
    ensures var s' := PvFound(s, name, addr, response, created, now);
            && |s'.searchers| == |s.searchers|
            && s'.searchers[k] ==
                 if addr in s.iocs || created then SearchWheel.Remove(s.searchers[k], name)
                 else s.searchers[k]
  {
    hide SearchWheel.Valid, SearchWheel.Remove;
  }

  lemma ReplyProjects(s: System, e: Event, k: nat)
    requires Sane(s) && Enabled(s, e) && k < |s.searchers| && e.Reply?
    ensures |Step(s, e).0.searchers| == |s.searchers|
    ensures Step(s, e).0.searchers[k] == SearchRuns.Run(s.searchers[k], SearcherEvents(s, e, k))
  {
    var Reply(i, id, addr, response, created, now) := e;
    assert SearchWheel.Valid(s.searchers[k]);
    hide Sane, SearchRuns.Run, SearchWheel.Valid, SearchWheel.Remove, SearchWheel.Resolve, PvFound, ReplyArrived;
    ReplyIs(s, i, id, addr, response, created, now);
    var (w, found) := SearchWheel.Resolve(s.searchers[i], id);
    var first := if i == k then [SearchRuns.Reply(id)] else [];
    var after := if i == k then w else s.searchers[k];
    assert SearchRuns.Run(s.searchers[k], first) == after by {
      WheelRunOne(s.searchers[k], SearchRuns.Reply(id));
    }
    match found
    case None =>
      ResolveNone(s.searchers[i], id);
      assert first + [] == first;
    case Some(name) =>
      PvFoundSearchers(s.(searchers := s.searchers[i := w]), name, addr, response, created, now, k);
      if addr in s.iocs || created {
        WheelRunAppend(s.searchers[k], first, [SearchRuns.Forget(name)]);
        WheelRunOne(after, SearchRuns.Forget(name));
      } else {
        assert first + [] == first;
      }
  }

  lemma ResolveNone(w: SearchWheel.Wheel, id: Word32)
    requires SearchWheel.Valid(w) && SearchWheel.Resolve(w, id).1.None?
    ensures SearchWheel.Resolve(w, id).0 == w
  {
  }

  /**
   * Inside the server every searcher goes through a run of its own, so all laws of searcher
   * runs (send times, fairness, attribution of replies) hold for it.
   */
  lemma {:induction false} SearchersRun(s: System, es: seq<Event>, k: nat)
    requires Sane(s) && Possible(s, es) && k < |s.searchers|
    ensures |Run(s, es).searchers| == |s.searchers| && SearchWheel.Valid(s.searchers[k])
    ensures Run(s, es).searchers[k] == SearchRuns.Run(s.searchers[k], SearcherRun(s, es, k))
    decreases es
  {
    assert SearchWheel.Valid(s.searchers[k]);
    hide Sane, Step, Enabled, SearchRuns.Run, SearcherEvents, SearchWheel.Valid;
    if es == [] {
      WheelRunOne(s.searchers[k], SearchRuns.SendTick);
    } else {
      var s' := Step(s, es[0]).0;
      StepProjects(s, es[0], k);
      SearchersRun(s', es[1..], k);
      WheelRunAppend(s.searchers[k], SearcherEvents(s, es[0], k), SearcherRun(s', es[1..], k));
    }
  }

  // ---------------------------------------------------------------- each guard runs on its own

  function GuardEvents(es: seq<Event>, h: nat): seq<Heartbeat.Event> {
    if es == [] then []
    else if es[0].Guarding? && es[0].handle == h then [es[0].beat] + GuardEvents(es[1..], h)
    else GuardEvents(es[1..], h)
  }

  lemma GuardOfStep(s: System, e: Event, h: nat)
    requires Sane(s) && Enabled(s, e) && h < |s.guards|
    ensures var s' := Step(s, e).0;
            && |s'.guards| >= |s.guards|
            && s'.guards[h] ==
                 if e.Guarding? && e.handle == h then Heartbeat.Step(s.guards[h], e.beat).0
                 else s.guards[h]
  {
    hide SearchWheel.Valid, Heartbeat.Step;
  }

  lemma {:induction false} GuardsRun(s: System, es: seq<Event>, h: nat)
    requires Sane(s) && Possible(s, es) && h < |s.guards|
    ensures |Run(s, es).guards| >= |s.guards|
    ensures Run(s, es).guards[h] == Heartbeat.Run(s.guards[h], GuardEvents(es, h))
    decreases es
  {
    hide Sane, Step, Enabled, Heartbeat.Step;
    if es != [] {
      GuardOfStep(s, es[0], h);
      GuardsRun(Step(s, es[0]).0, es[1..], h);
      if es[0].Guarding? && es[0].handle == h {
        assert ([es[0].beat] + GuardEvents(es[1..], h))[1..] == GuardEvents(es[1..], h);
      }
    }
  }

  /**
   * No stale answers: if an IOC has been silent for 22 seconds and d, with the reactor
   * polling at least every d, a search for any PV cached on it is a miss.
   */
  lemma SilentIocIsForgotten(s: System, es: seq<Event>, h: nat, heard: Time, last: Time, d: int, name: PvName,
                             now: Time)
    requires Inv(s) && Possible(s, es) && h < |s.guards|
    requires var g := s.guards[h]; g.alive && g.connected && g.lastResponse <= heard && g.lastRequest <= heard
    requires d >= 0 && heard <= last < heard + 11 * SECOND
    requires var beats := GuardEvents(es, h);
             Heartbeat.SilentPolls(beats, last, d) && Heartbeat.EndTime(beats, last) >= heard + 22 * SECOND + d
    requires var final := Run(s, es);
             |name| <= MAX_NAME && name in final.pvs && final.pvs[name].guard == h
    ensures PvSearched(Run(s, es), name, now).1 == []
  {
    InvIsSane(s);
    hide Heartbeat.Run, Heartbeat.SilentPolls, Heartbeat.EndTime, Inv, Sane, Run, Possible, PvSearched, GuardEvents;
    GuardsRun(s, es, h);
    Heartbeat.SilentIocIsDropped(s.guards[h], GuardEvents(es, h), heard, last, d);
    DeadGuardMisses(Run(s, es), name, now, h);
  }

  lemma DeadGuardMisses(s: System, name: PvName, now: Time, h: nat)
    requires Sane(s) && |name| <= MAX_NAME && name in s.pvs && s.pvs[name].guard == h && !s.guards[h].alive
    ensures PvSearched(s, name, now).1 == []
  {
    hide SearchWheel.Valid;
  }

  // ---------------------------------------------------------------- datagrams

  /** The events that one datagram from an IOC amounts to: each reply in it, patched with the first reply's port. */
  function IocEvents(searcher: nat, data: Bytes, ip: IPv4, created: seq<bool>, now: Time): seq<Event> {
    match ReplyPort(Frames(data))
    case None => []
    case Some(port) =>
      var replies := Replies(Frames(data), []);
      seq(|replies|, j requires 0 <= j < |replies| =>
        Reply(searcher, replies[j].0, Addr(ip, port), Patched(replies[j].1, SetAddr(Addr(ip, port))),
              j < |created| && created[j], now))
  }

  /** The event carries a reply that the parser has extracted, patched with the event's own address. */
  ghost predicate RealReply(e: Event) {
    e.Reply? ==> FromIoc(e.response, e.id, e.addr)
  }

  /** Every reply in a datagram is delivered; all answer for the sender if the VERSION messages carry no payload. */
  lemma DatagramIsReal(searcher: nat, data: Bytes, ip: IPv4, created: seq<bool>, now: Time)
    ensures forall e | e in IocEvents(searcher, data, ip, created, now) :: e.Reply? && RealReply(e)
    ensures |IocEvents(searcher, data, ip, created, now)| == |Replies(Frames(data), [])|
    ensures VersionsHaveNoPayload(Frames(data)) ==>
              forall e | e in IocEvents(searcher, data, ip, created, now) :: AnswersFor(e.response, e.id, e.addr)
  {
    var replies, es := Replies(Frames(data), []), IocEvents(searcher, data, ip, created, now);
    RepliesAreExtracted(Frames(data), []);
    PortOfFirstReply(Frames(data), []);
    if VersionsHaveNoPayload(Frames(data)) {
      RepliesAreCanonical(Frames(data), []);
    }
    hide AnswersFor, Replies, Frames, Patched, Extracted, Canonical, VersionsHaveNoPayload;
    match ReplyPort(Frames(data))
    case None =>
    case Some(port) =>
      forall e | e in es
        ensures e.Reply? && RealReply(e)
        ensures VersionsHaveNoPayload(Frames(data)) ==> AnswersFor(e.response, e.id, e.addr)
      {
        var j :| 0 <= j < |replies| && e == es[j];
        assert replies[j] in replies;
        if VersionsHaveNoPayload(Frames(data)) {
          PatchesAnswer(replies[j].0, replies[j].1, Addr(ip, port), 0);
        }
      }
  }

  /** Every cached reply is one that was extracted and patched with the address of the IOC that its guard watches. */
  ghost predicate Answers(s: System)
    requires Sane(s)
  {
    forall name | name in s.pvs :: exists id :: FromIoc(s.pvs[name].response, id, s.guards[s.pvs[name].guard].addr)
  }

  /** Fewer entries, or the same guards at the same addresses: the answers stay right. */
  lemma AnswersFrame(s: System, t: System)
    requires Sane(s) && Sane(t) && Answers(s)
    requires forall name | name in t.pvs :: name in s.pvs && t.pvs[name] == s.pvs[name]
    requires forall h | 0 <= h < |s.guards| :: h < |t.guards| && t.guards[h].addr == s.guards[h].addr
    ensures Answers(t)
  {
    hide FromIoc, SearchWheel.Valid;
    forall name | name in t.pvs
      ensures exists id :: FromIoc(t.pvs[name].response, id, t.guards[t.pvs[name].guard].addr)
    {
      var id :| FromIoc(s.pvs[name].response, id, s.guards[s.pvs[name].guard].addr);
    }
  }

  lemma CacheAnswer(s: System, name: PvName, h: nat, response: Bytes, id: Word32)
    requires Sane(s) && Answers(s) && h < |s.guards| && FromIoc(response, id, s.guards[h].addr)
    ensures Sane(s.(pvs := s.pvs[name := CachedPv(h, response)]))
    ensures Answers(s.(pvs := s.pvs[name := CachedPv(h, response)]))
  {
    hide FromIoc, SearchWheel.Valid;
  }

  lemma PvFoundAnswers(s: System, name: PvName, addr: Addr, response: Bytes, created: bool, now: Time, id: Word32)
    requires Sane(s) && Answers(s) && FromIoc(response, id, addr)
    requires addr in s.iocs ==> s.guards[s.iocs[addr]].addr == addr
    ensures Answers(PvFound(s, name, addr, response, created, now))
  {
    hide FromIoc, SearchWheel.Valid, RemoveFromAll, Answers;
    var (t, guard) := GuardFor(s, addr, created, now);
    if guard.Some? {
      AnswersFrame(s, t);
      CacheAnswer(t, name, guard.value, response, id);
      AnswersFrame(t.(pvs := t.pvs[name := CachedPv(guard.value, response)]),
                   PvFound(s, name, addr, response, created, now));
    }
  }

  lemma StepKeepsAnswers(s: System, e: Event)
    requires Inv(s) && Enabled(s, e) && Answers(s) && RealReply(e)
    ensures Answers(Step(s, e).0)
  {
    hide Inv, FromIoc, Answers, SearchWheel.Valid, SearchWheel.Resolve, Heartbeat.Step, PvFound, RemoveFromAll,
         ReplyArrived;
    InvIsSane(s);
    if e.Reply? {
      var Reply(i, id, addr, response, created, now) := e;
      ReplyIs(s, i, id, addr, response, created, now);
      var (w, found) := SearchWheel.Resolve(s.searchers[i], id);
      if found.Some? {
        var t := s.(searchers := s.searchers[i := w]);
        TableIsLive(s, addr);
        AnswersFrame(s, t);
        PvFoundAnswers(t, found.value, addr, response, created, now, id);
      }
    } else {
      if e.Guarding? {
        GuardEffect(s.guards[e.handle], e.beat);
      }
      AnswersFrame(s, Step(s, e).0);
    }
  }

  lemma {:induction false} RunKeepsAnswers(s: System, es: seq<Event>)
    requires Inv(s) && Possible(s, es) && Answers(s)
    requires forall i | 0 <= i < |es| :: RealReply(es[i])
    ensures Answers(Run(s, es)) && Inv(Run(s, es))
    decreases es
  {
    InvIsSane(s);
    hide Inv, Answers, Step, Enabled, RealReply;
    if es != [] {
      StepKeepsInv(s, es[0]);
      StepKeepsAnswers(s, es[0]);
      RunKeepsAnswers(Step(s, es[0]).0, es[1..]);
    }
  }

  /**
   * End to end: in every state reached through datagrams from IOCs, a client is sent something
   * exactly if the name is cached live. That decodes to one reply, to the client's own channel
   * id, that points to the IOC of the name's own guard, whose connection is up, if the IOC's
   * reply came without a VERSION payload, and to nothing if not.
   */
  lemma ClientGetsLiveIoc(s: System, name: PvName, now: Time, client: Word32)
    requires Inv(s) && Sane(s) && Answers(s) && |name| <= MAX_NAME
    ensures PvSearched(s, name, now).1 != [] <==> CachedLive(s, name)
    ensures CachedLive(s, name) ==>
              var rsp, addr := PvSearched(s, name, now).1, s.guards[s.pvs[name].guard].addr;
              var final := Patched(rsp, SetId(client));
              && View(s)[name] == (addr, rsp)
              && if Canonical(rsp) then
                   AnswersFor(final, client, addr) && Replies(Frames(final), []) == [(client, final)]
                   && ReplyPort(Frames(final)) == Some(addr.port)
                 else Replies(Frames(final), []) == []
  {
    hide Inv, AnswersFor, FromIoc, Canonical, SearchWheel.Valid, Frames, Replies, ReplyPort, Patched, AddToAll;
    if CachedLive(s, name) {
      var h := s.pvs[name].guard;
      var id :| FromIoc(s.pvs[name].response, id, s.guards[h].addr);
      FinalAnswer(s.pvs[name].response, id, s.guards[h].addr, client);
    }
  }

  /** A fresh server satisfies all invariants. */
  lemma StartIsSound(searchers: nat, listeners: nat, configured: seq<Word32>)
    requires |SearchWheel.Fresh(configured).bins| > 0
    ensures Inv(Start(searchers, listeners, configured)) && Answers(Start(searchers, listeners, configured))
    ensures InStep(Start(searchers, listeners, configured))
  {
    SearchRuns.FreshRefines(configured, 0);
    var s := Start(searchers, listeners, configured);
    forall i, j | 0 <= i < j < |s.conns| ensures s.conns[i] != s.conns[j] {
    }
  }
}
