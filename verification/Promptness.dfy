/**
 * What a client can count on: a request that misses goes out in the very same turn, and a reply
 * that comes back is served from then on, until its IOC disconnects.
 */
module Promptness {
  import opened Prelude
  import opened ChannelAccess
  import opened CodecLaws
  import opened NameServer
  import opened Asked
  import opened CacheLaws
  import opened ServerLaws
  import opened AccessControl
  import opened Reactor
  import opened Traces
  import opened History
  import Schedule
  import SearchWheel
  import Heartbeat
  import SearchRuns
  import Lockstep
  import Framing

  // ---------------------------------------------------------------- a reply is served

  /** A cached entry stays as it is while its IOC does not disconnect. */
  lemma {:induction false} EntryStays(c: Cache, trace: seq<Seen>, name: PvName)
    requires name in c && forall i | 0 <= i < |trace| :: trace[i] != Disconnected(c[name].0)
    requires AllAllowed(c, trace)
    ensures name in EagerRun(c, trace) && EagerRun(c, trace)[name] == c[name]
    decreases trace
  {
    if trace != [] {
      assert trace[..0] == [] && EagerRun(c, trace[..0]) == c;
      var next, tail := EagerStep(c, trace[0]), trace[1..];
      forall i | 0 <= i < |tail| ensures tail[i] == trace[i + 1] && EagerAllows(EagerRun(next, tail[..i]), tail[i]) {
        assert trace[..i + 1][0] == trace[0] && trace[..i + 1][1..] == tail[..i];
      }
      EntryStays(next, tail, name);
    }
  }

  /**
   * A reply that finds a name, with a guard to be had, answers every later request for the name,
   * whatever else happens, until its IOC disconnects.
   */
  lemma FoundIsServed(s: System, k: nat, id: Word32, addr: Addr, response: Bytes, created: bool, now: Time,
                      es: seq<Event>, name: PvName, later: Time)
    requires Inv(s) && k < |s.searchers| && |name| <= MAX_NAME && (addr in s.iocs || created)
    requires Sane(s) && SearchWheel.Resolve(s.searchers[k], id).1 == Some(name)
    requires var t := ReplyArrived(s, k, id, addr, response, created, now).0;
             Possible(t, es) && forall i | 0 <= i < |es| :: Trace(t, es)[i] != Disconnected(addr)
    ensures PvSearched(Run(ReplyArrived(s, k, id, addr, response, created, now).0, es), name, later).1 == response
  {
    hide Inv, Sane, SearchWheel.Resolve, ReplyArrived, PvSearched, View, CachedLive, Possible, Run, Trace, EagerRun;
    var t := ReplyArrived(s, k, id, addr, response, created, now).0;
    FoundIsResolved(s, k, id, addr, response, created, now);
    FoundView(s, k, id, addr, response, created, now);
    ReplyKeeps(s, k, id, addr, response, created, now);
    RunRefinesEager(t, es);
    EntryStays(View(t), Trace(t, es), name);
    SearchView(Run(t, es), name, later);
  }

  /**
   * So a reply under the id that a searched name owns in searcher `k` is served to every later
   * request until the disconnect, unless the name is in the bin that the lookup does not reach.
   */
  lemma OwnReplyIsServed(s: System, k: nat, spec: SearchRuns.Spec, names: seq<PvName>, name: PvName, addr: Addr,
                         response: Bytes, created: bool, now: Time, es: seq<Event>, later: Time)
    requires Inv(s) && Sane(s) && k < |s.searchers| && |name| <= MAX_NAME && (addr in s.iocs || created)
    requires SearchRuns.Refines(s.searchers[k], spec) && SearchRuns.Attributed(spec, names) && name in spec.plan
    requires spec.n > 0 && !Schedule.Escapes(spec.plan[name], spec.now, spec.cur, spec.n)
    requires var t := ReplyArrived(s, k, spec.plan[name].chanId, addr, response, created, now).0;
             Possible(t, es) && forall i | 0 <= i < |es| :: Trace(t, es)[i] != Disconnected(addr)
    ensures var t := ReplyArrived(s, k, spec.plan[name].chanId, addr, response, created, now).0;
            PvSearched(Run(t, es), name, later).1 == response
  {
    hide Inv, Sane, SearchWheel.Resolve, ReplyArrived, PvSearched, Possible, Run, Trace, SearchRuns.Refines,
         SearchRuns.Attributed, Schedule.Escapes;
    SearchRuns.AcceptedExactly(s.searchers[k], spec, names, name);
    FoundIsServed(s, k, spec.plan[name].chanId, addr, response, created, now, es, name, later);
  }

  // ---------------------------------------------------------------- what is newly searched for is due

  /** Requests, finds and replies do not turn the wheel: what they add is due at once. */
  lemma {:induction false} NewIsDue(w: SearchWheel.Wheel, s: SearchRuns.Spec, es: seq<SearchRuns.Event>)
    returns (s': SearchRuns.Spec)
    requires SearchRuns.Refines(w, s) && forall i | 0 <= i < |es| :: !es[i].SendTick? && !es[i].PurgeAt?
    ensures SearchWheel.Valid(w) && SearchRuns.Refines(SearchRuns.Run(w, es), s') && s'.now == s.now
    ensures forall name | name in s'.plan ::
              s'.plan[name].due == s'.now || (name in s.plan && s'.plan[name].due == s.plan[name].due)
    decreases es
  {
    SearchRuns.ValidWheel(w, s);
    hide SearchRuns.Refines, SearchRuns.SpecStep, SearchRuns.Step, SearchRuns.Run;
    if es == [] {
      SearchRuns.NothingRun(w);
      s' := s;
    } else {
      var next := SearchRuns.StepRefines(w, s, es[0]);
      StandsStill(s, es[0], next, SearchRuns.Step(w, es[0]).1);
      assert forall i | 0 <= i < |es[1..]| :: es[1..][i] == es[i + 1];
      s' := NewIsDue(SearchRuns.Step(w, es[0]).0, next, es[1..]);
      SearchRuns.FirstOutput(w, es);
    }
  }

  lemma StandsStill(s: SearchRuns.Spec, e: SearchRuns.Event, s': SearchRuns.Spec, out: SearchRuns.Output)
    requires SearchRuns.SpecStep(s, e, s', out) && !e.SendTick? && !e.PurgeAt?
    ensures s'.now == s.now
    ensures forall name | name in s'.plan :: s'.plan[name].due == if name in s.plan then s.plan[name].due else s.now
  {
  }

  /** A tick sends whatever has been added to the wheel since the last one and is still in it. */
  lemma NewIsSent(w: SearchWheel.Wheel, es: seq<SearchRuns.Event>, name: PvName) returns (id: Word32)
    requires Indexed(w) && forall i | 0 <= i < |es| :: !es[i].SendTick? && !es[i].PurgeAt?
    requires name !in AskedFor(w) && name in AskedFor(SearchRuns.Run(w, es))
    ensures (id, name) in SearchWheel.Tick(SearchRuns.Run(w, es)).1
  {
    var now, m :| Schedule.Agrees(w, now, m);
    var s := SearchRuns.Spec(now, w.currentBin, |w.bins|, w.searchIntervals, w.chanId, m);
    assert SearchRuns.Refines(w, s);
    hide AskedFor, SearchRuns.Run, SearchWheel.Valid, SearchWheel.Tick, Schedule.Agrees, Schedule.PlanTick;
    AskedIs(w, now, m);
    var s' := NewIsDue(w, s, es);
    var w' := SearchRuns.Run(w, es);
    AskedIs(w', s'.now, s'.plan);
    Schedule.TickRefines(w', s'.now, s'.plan);
    id := s'.plan[name].chanId;
  }

  // ---------------------------------------------------------------- the dispatch turns no wheel

  predicate TurnsNoWheel(e: Event) {
    !e.Ticking? && !e.Purging?
  }

  predicate NoTurning(es: seq<Event>) {
    forall i | 0 <= i < |es| :: TurnsNoWheel(es[i])
  }

  lemma NoTurningAppend(es: seq<Event>, fs: seq<Event>)
    requires NoTurning(es) && NoTurning(fs)
    ensures NoTurning(es + fs)
  {
    hide TurnsNoWheel;
  }

  lemma {:induction false} ReadClientsTurnNothing(acl: Acl, ds: seq<ClientDatagram>, now: Time)
    ensures NoTurning(ReadClients(acl, ds, now))
    decreases ds
  {
    hide WantedIn;
    if ds != [] {
      ReadClientsTurnNothing(acl, ds[1..], now);
      NoTurningAppend(ClientEvents(acl, ds[0], now), ReadClients(acl, ds[1..], now));
    }
  }

  lemma {:induction false} ReadIocsTurnNothing(k: nat, ds: seq<IocDatagram>, now: Time)
    ensures NoTurning(ReadIocs(k, ds, now))
    decreases ds
  {
    hide Framing.Frames, Replies, ReplyPort, Patched;
    if ds != [] {
      ReadIocsTurnNothing(k, ds[1..], now);
      NoTurningAppend(IocEvents(k, ds[0].data, ds[0].ip, ds[0].created, now), ReadIocs(k, ds[1..], now));
    }
  }

  lemma {:induction false} InputsTurnNothing(conns: seq<Conn>, inputs: seq<Incoming>, acl: Acl, now: Time)
    requires |inputs| <= |conns|
    ensures NoTurning(InEvents(conns, inputs, acl, now))
    decreases inputs
  {
    hide ReadClients, ReadIocs;
    if inputs != [] {
      match (conns[0], inputs[0]) {
        case (ListenerConn(_), FromClients(ds)) => ReadClientsTurnNothing(acl, ds, now);
        case (SearcherConn(k), FromIocs(ds)) => ReadIocsTurnNothing(k, ds, now);
        case _ =>
      }
      InputsTurnNothing(conns[1..], inputs[1..], acl, now);
      NoTurningAppend(ReceiveEvents(conns[0], inputs[0], acl, now), InEvents(conns[1..], inputs[1..], acl, now));
    }
  }

  lemma {:induction false} SearcherStandsStill(s: System, es: seq<Event>, k: nat)
    requires Sane(s) && Possible(s, es) && NoTurning(es)
    ensures var run := SearcherRun(s, es, k); forall i | 0 <= i < |run| :: !run[i].SendTick? && !run[i].PurgeAt?
    decreases es
  {
    hide Sane, Step, Enabled, SearcherEvents, TurnsNoWheel;
    if es != [] {
      assert TurnsNoWheel(es[0]) && forall i | 0 <= i < |es[1..]| :: es[1..][i] == es[i + 1];
      StandsAt(s, es[0], k);
      SearcherStandsStill(Step(s, es[0]).0, es[1..], k);
      assert SearcherRun(s, es, k) == SearcherEvents(s, es[0], k) + SearcherRun(Step(s, es[0]).0, es[1..], k);
    }
  }

  lemma StandsAt(s: System, e: Event, k: nat)
    requires Sane(s) && Enabled(s, e) && TurnsNoWheel(e)
    ensures var run := SearcherEvents(s, e, k); forall i | 0 <= i < |run| :: !run[i].SendTick? && !run[i].PurgeAt?
  {
    hide Sane, CachedLive, SearchWheel.Resolve;
  }

  // ---------------------------------------------------------------- the sweep sends what is due

  /** Polling any other connection leaves searcher `k` alone. */
  lemma PollLeavesSearcher(s: System, i: nat, w: World, ticking: seq<bool>, k: nat)
    requires Sane(s) && i < |s.conns| && s.conns[i] != SearcherConn(k) && k < |s.searchers|
    ensures Possible(s, PollEvents(s.conns[i], w, ticking))
    ensures var t := Run(s, PollEvents(s.conns[i], w, ticking));
            |t.searchers| == |s.searchers| && t.searchers[k] == s.searchers[k]
  {
    hide Sane, Possible, Run, Step;
    PollPossible(s, i, w, ticking);
    ListedIndex(s, i);
    NoEvents(s);
    var es := PollEvents(s.conns[i], w, ticking);
    if es != [] {
      OneEvent(s, es[0]);
      OthersLeaveSearcher(s, es[0], k);
    }
  }

  lemma OthersLeaveSearcher(s: System, e: Event, k: nat)
    requires Sane(s) && Enabled(s, e) && k < |s.searchers| && (e.Guarding? || (e.Ticking? && e.searcher != k))
    ensures var t := Step(s, e).0; |t.searchers| == |s.searchers| && t.searchers[k] == s.searchers[k]
  {
    hide SearchWheel.Valid, SearchWheel.Tick;
  }

  lemma TickIsSeen(s: System, i: nat, w: World, ticking: seq<bool>, k: nat)
    requires Sane(s) && i < |s.conns| && s.conns[i] == SearcherConn(k) && k < |s.searchers| && k < |ticking|
             && ticking[k]
    ensures SearchWheel.Valid(s.searchers[k])
    ensures var es := PollEvents(s.conns[i], w, ticking);
            Possible(s, es) && Trace(s, es) == [Queried(k, SearchWheel.Tick(s.searchers[k]).1)]
  {
    hide SearchWheel.Valid, SearchWheel.Tick;
    OneEvent(s, Ticking(k));
  }

  lemma ErasedSearchers(s: System, i: nat)
    requires i < |s.conns|
    ensures EraseConn(s, i).searchers == s.searchers && EraseConn(s, i).conns[i..] == s.conns[i + 1..]
    ensures |EraseConn(s, i).conns| == |s.conns| - 1
  {
  }

  /** A sweep, cut behind its first poll. */
  lemma SweepSplits(s: System, i: nat, w: World, ticking: seq<bool>) returns (es: seq<Event>, rest: seq<Event>)
    requires Sane(s) && Distinct(s.conns) && i < |s.conns|
    ensures es == PollEvents(s.conns[i], w, ticking) && SweepEvents(s, i, w, ticking) == es + rest
    ensures Possible(s, SweepEvents(s, i, w, ticking)) && Possible(s, es)
    ensures var t := Run(s, es);
            && t.conns == s.conns && Possible(t, rest)
            && Trace(s, es + rest) == Trace(s, es) + Trace(t, rest)
            && rest == if Connected(t, t.conns[i]) then SweepEvents(t, i + 1, w, ticking)
                       else [Erasing(i)] + SweepEvents(EraseConn(t, i), i, w, ticking)
  {
    hide Sane, Possible, Run, Trace, Connected, PollEvents, SweepEvents, EraseConn, Distinct, Swept;
    SweepUnfold(s, i, w, ticking);
    SweepFilters(s, i, w, ticking);
    es := PollEvents(s.conns[i], w, ticking);
    var t, all := Run(s, es), SweepEvents(s, i, w, ticking);
    if Connected(t, t.conns[i]) {
      rest := SweepEvents(t, i + 1, w, ticking);
    } else {
      EraseIsEvent(t, i);
      rest := [Erasing(i)] + SweepEvents(EraseConn(t, i), i, w, ticking);
    }
    assert all == es + rest;
    RunUntil(s, all, |es|);
    assert all[..|es|] == es && all[|es|..] == rest;
    RunAppend(s, es, rest);
  }

  /** The sweep from position `i` on shows this to an observer. */
  ghost predicate Sees(s: System, i: nat, w: World, ticking: seq<bool>, x: Seen) {
    Sane(s) && Possible(s, SweepEvents(s, i, w, ticking)) && x in Trace(s, SweepEvents(s, i, w, ticking))
  }

  lemma SeesFirst(s: System, i: nat, w: World, ticking: seq<bool>, x: Seen)
    requires Sane(s) && Distinct(s.conns) && i < |s.conns|
    requires var es := PollEvents(s.conns[i], w, ticking); Possible(s, es) && x in Trace(s, es)
    ensures Sees(s, i, w, ticking, x)
  {
    hide Sane, Possible, Run, Trace, Connected, PollEvents, SweepEvents, EraseConn, Distinct;
    var es, rest := SweepSplits(s, i, w, ticking);
  }

  lemma SeesLater(s: System, i: nat, w: World, ticking: seq<bool>, x: Seen)
    requires Sane(s) && Distinct(s.conns) && i < |s.conns| && Possible(s, PollEvents(s.conns[i], w, ticking))
    requires var t := Run(s, PollEvents(s.conns[i], w, ticking));
             && i < |t.conns|
             && if Connected(t, t.conns[i]) then Sees(t, i + 1, w, ticking, x)
                else Sees(EraseConn(t, i), i, w, ticking, x)
    ensures Sees(s, i, w, ticking, x)
  {
    hide Sane, Possible, Run, Trace, Connected, PollEvents, SweepEvents, EraseConn, Distinct;
    var es, rest := SweepSplits(s, i, w, ticking);
    var t := Run(s, es);
    if !Connected(t, t.conns[i]) {
      EraseIsEvent(t, i);
      RunAppend(t, [Erasing(i)], SweepEvents(EraseConn(t, i), i, w, ticking));
    }
  }

  /** A listed searcher that ticks sends the requests of its current bin in the sweep. */
  lemma {:induction false} SweepQueries(s: System, i: nat, w: World, ticking: seq<bool>, k: nat,
                                        wheel: SearchWheel.Wheel)
    requires Sane(s) && Distinct(s.conns) && k < |s.searchers| && i <= |s.conns| && SearcherConn(k) in s.conns[i..]
    requires k < |ticking| && ticking[k] && s.searchers[k] == wheel && SearchWheel.Valid(wheel)
    ensures Sees(s, i, w, ticking, Queried(k, SearchWheel.Tick(wheel).1))
    decreases |s.conns| - i
  {
    hide Sane, Possible, Run, Trace, Connected, PollEvents, EraseConn, SearchWheel.Valid, SearchWheel.Tick, Distinct,
         Sees, SweepEvents;
    var x := Queried(k, SearchWheel.Tick(wheel).1);
    if s.conns[i] == SearcherConn(k) {
      TickIsSeen(s, i, w, ticking, k);
      SeesFirst(s, i, w, ticking, x);
    } else {
      var t := PollOther(s, i, w, ticking, k);
      if Connected(t, t.conns[i]) {
        SweepQueries(t, i + 1, w, ticking, k, wheel);
      } else {
        EraseIsEvent(t, i);
        ErasedSearchers(t, i);
        DistinctErased(t, i);
        SweepQueries(EraseConn(t, i), i, w, ticking, k, wheel);
      }
      SeesLater(s, i, w, ticking, x);
    }
  }

  lemma PollOther(s: System, i: nat, w: World, ticking: seq<bool>, k: nat) returns (t: System)
    requires Sane(s) && i < |s.conns| && s.conns[i] != SearcherConn(k) && k < |s.searchers|
    ensures Possible(s, PollEvents(s.conns[i], w, ticking)) && t == Run(s, PollEvents(s.conns[i], w, ticking))
    ensures Sane(t) && t.conns == s.conns && |t.searchers| == |s.searchers| && t.searchers[k] == s.searchers[k]
    ensures SearcherConn(k) in s.conns[i..] ==> SearcherConn(k) in s.conns[i + 1..]
  {
    hide Sane, Possible, Run, Connected, PollEvents, SweepEvents, EraseConn;
    assert s.conns[i..] == [s.conns[i]] + s.conns[i + 1..];
    PollLeavesSearcher(s, i, w, ticking, k);
    SweepUnfold(s, i, w, ticking);
    t := Run(s, PollEvents(s.conns[i], w, ticking));
  }

  lemma DistinctErased(s: System, i: nat)
    requires i < |s.conns| && Distinct(s.conns)
    ensures Distinct(EraseConn(s, i).conns)
  {
    DistinctErase(s.conns, i);
  }

  // ---------------------------------------------------------------- requests go out at once

  /** Among the packets to IOCs is one of searcher `k` that asks for the name. */
  ghost predicate AsksOut(out: seq<Outgoing>, k: nat, name: PvName) {
    exists i, id | 0 <= i < |out| :: out[i].SearchPackets? && out[i].searcher == k
        && (id, TrimNul(name)) in Received(out[i].packets)
  }

  lemma {:induction false} SeenGoesOut(trace: seq<Seen>, x: Seen)
    requires x in trace && x.Queried?
    ensures x in ToIocs(trace)
    decreases trace
  {
    if x != trace[0] {
      SeenGoesOut(trace[1..], x);
    }
  }

  lemma QueryGoesOut(s: System, es: seq<Event>, t: System, out: seq<Outgoing>, k: nat, pvs: seq<(Word32, PvName)>,
                     id: Word32, name: PvName)
    requires Emits(s, es, t, out) && Sane(s) && Possible(s, es) && Queried(k, pvs) in Trace(s, es) && (id, name) in pvs
    ensures AsksOut(out, k, name)
  {
    hide Sane, Possible, Trace, ToIocs, Received, TrimNul, Runs;
    SeenGoesOut(Trace(s, es), Queried(k, pvs));
    var sends := ToIocs(Trace(s, es));
    var i :| 0 <= i < |sends| && sends[i] == Queried(k, pvs);
    assert Carries(out[i], sends[i]);
    var j :| 0 <= j < |pvs| && pvs[j] == (id, name);
    assert OnWire(pvs)[j] == (id, TrimNul(name));
    assert (id, TrimNul(name)) in Received(out[i].packets);
  }

  /**
   * Whatever the clients of a turn have newly asked a searcher for, and no reply of that turn has
   * found, that searcher asks the IOCs for in the very same turn, if it ticks.
   */
  lemma NewlyAskedIsSent(s: System, acl: Acl, log: TurnLog, t: System, k: nat, name: PvName)
    requires Inv(s) && Sane(s) && IsTurn(s, acl, log, t) && |log.inputs| <= |s.conns|
    requires k < |s.searchers| && SearcherConn(k) in s.conns && k < |log.ticking| && log.ticking[k]
    requires var received := InEvents(s.conns[..|log.inputs|], log.inputs, acl, log.world.now);
             && Possible(s, received) && k < |Run(s, received).searchers|
             && name !in AskedFor(s.searchers[k]) && name in AskedFor(Run(s, received).searchers[k])
    ensures AsksOut(log.out, k, name)
  {
    hide Inv, Turn, Dispatched, Grown, Tells, Emits, InEvents, SweepEvents, AfterPurge, Sane, Run, Possible, Distinct,
         AskedFor, Indexed, SearchRuns.Run, SearchWheel.Valid, SearchWheel.Tick, AsksOut, NoTurning, Trace,
         SearcherRun;
    var w := log.world;
    var m, m2 := TurnPhases(s, log.inputs, acl, w, log.ticking, log.purge, t, log.sent, log.out);
    var conns := s.conns[..|log.inputs|];
    var received := InEvents(conns, log.inputs, acl, w.now);
    RunsTo(s, received, m);
    RunKeepsInv(s, received);
    InputsTurnNothing(conns, log.inputs, acl, w.now);
    SearcherStandsStill(s, received, k);
    SearchersRun(s, received, k);
    SearcherIsIndexed(s, k);
    var id := NewIsSent(s.searchers[k], SearcherRun(s, received, k), name);
    StillListed(s, m, SearcherConn(k));
    ConnsDistinct(m);
    assert m.conns[0..] == m.conns;
    SearcherIsIndexed(m, k);
    SweepQueries(m, 0, w, log.ticking, k, m.searchers[k]);
    QueryGoesOut(m, SweepEvents(m, 0, w, log.ticking), m2, log.out, k, SearchWheel.Tick(m.searchers[k]).1, id, name);
  }

  lemma StillListed(s: System, m: System, c: Conn)
    requires Grown(s, m) && c in s.conns
    ensures c in m.conns
  {
    GrownKeeps(s, m, c);
  }

  lemma ConnsDistinct(s: System)
    requires Inv(s)
    ensures Sane(s) && Distinct(s.conns)
  {
    hide Sane, AllIndexed, Bijection, Exclusive;
    InvIsSane(s);
  }

  // ---------------------------------------------------------------- one request

  /** Some reply of the run is accepted for the name. */
  predicate FoundIn(s: System, es: seq<Event>, name: PvName)
    requires Sane(s) && Possible(s, es)
    decreases es
  {
    es != []
    && ((es[0].Reply? && SearchWheel.Resolve(s.searchers[es[0].searcher], es[0].id).1 == Some(name))
        || FoundIn(Step(s, es[0]).0, es[1..], name))
  }

  lemma StepKeepsAsked(s: System, e: Event, k: nat, name: PvName)
    requires Inv(s) && Enabled(s, e) && TurnsNoWheel(e) && k < |s.searchers| && name in AskedFor(s.searchers[k])
    requires !(e.Reply? && SearchWheel.Resolve(s.searchers[e.searcher], e.id).1 == Some(name))
    ensures k < |Step(s, e).0.searchers| && name in AskedFor(Step(s, e).0.searchers[k])
  {
    Lockstep.StepActs(s, e, k);
    NotCachedWhileAsked(s, k, name);
    hide Inv, Sane, AskedFor, SearchWheel.Resolve, SearchWheel.Valid, Step, CachedLive, GuardFails;
  }

  /** A name that is asked for stays so until a reply finds it. */
  lemma {:induction false} AskedUnlessFound(s: System, es: seq<Event>, k: nat, name: PvName)
    requires Inv(s) && Sane(s) && Possible(s, es) && NoTurning(es)
    requires k < |s.searchers| && name in AskedFor(s.searchers[k]) && !FoundIn(s, es, name)
    ensures k < |Run(s, es).searchers| && name in AskedFor(Run(s, es).searchers[k])
    decreases es
  {
    hide Inv, Sane, AskedFor, SearchWheel.Resolve, Step, Enabled, TurnsNoWheel;
    if es != [] {
      assert TurnsNoWheel(es[0]) && forall i | 0 <= i < |es[1..]| :: es[1..][i] == es[i + 1];
      StepKeepsAsked(s, es[0], k, name);
      StepKeepsInv(s, es[0]);
      InvIsSane(Step(s, es[0]).0);
      AskedUnlessFound(Step(s, es[0]).0, es[1..], k, name);
    }
  }

  lemma MissIsAsked(m: System, name: PvName, now: Time, k: nat)
    requires Inv(m) && Sane(m) && |name| <= MAX_NAME && k < |m.searchers| && !CachedLive(m, name)
    ensures var u := PvSearched(m, name, now).0;
            Inv(u) && Sane(u) && k < |u.searchers| && name in AskedFor(u.searchers[k])
  {
    hide Inv, Sane, AskedFor, PvSearched, CachedLive;
    PvSearchedKeeps(m, name, now);
    Lockstep.SearchActs(m, name, now, k);
    MissIsSearchedEverywhere(m, name, now, k);
  }

  lemma SearchLeaves(m: System, name: PvName, now: Time, rest: seq<Event>)
    requires Sane(m) && |name| <= MAX_NAME && Possible(m, [Search(name, now)] + rest)
    ensures var u := PvSearched(m, name, now).0;
            Possible(u, rest) && Run(m, [Search(name, now)] + rest) == Run(u, rest)
  {
    hide Sane, PvSearched;
    assert ([Search(name, now)] + rest)[1..] == rest;
  }

  /** A request that misses is in the searcher at the end of the dispatch, unless it has been found. */
  lemma RequestStaysAsked(s: System, es: seq<Event>, j: nat, m: System, k: nat)
    requires Inv(s) && Sane(s) && Possible(s, es) && NoTurning(es) && k < |s.searchers|
    requires j < |es| && Runs(s, es[..j], m) && Sane(m) && es[j].Search? && |es[j].name| <= MAX_NAME
    requires !CachedLive(m, es[j].name)
    ensures var name, rest := es[j].name, es[j + 1..]; var u := PvSearched(m, name, es[j].now).0;
            && Possible(u, rest) && k < |Run(s, es).searchers|
            && (FoundIn(u, rest, name) || name in AskedFor(Run(s, es).searchers[k]))
  {
    hide Inv, Sane, Run, Possible, AskedFor, NoTurning, PvSearched, CachedLive, FoundIn;
    var name, now, rest := es[j].name, es[j].now, es[j + 1..];
    RunsTo(s, es[..j], m);
    RunUntil(s, es, j);
    assert es[j..] == [Search(name, now)] + rest;
    SearchLeaves(m, name, now, rest);
    RunKeepsInv(s, es[..j]);
    SearchersRun(s, es[..j], k);
    SearchersRun(s, es, k);
    MissIsAsked(m, name, now, k);
    var u := PvSearched(m, name, now).0;
    NoTurningTail(es, j + 1);
    if !FoundIn(u, rest, name) {
      AskedUnlessFound(u, rest, k, name);
    }
  }

  /**
   * A request that misses, for a name that searcher `k` was not asked for before the turn, is
   * among the packets which that searcher sends in the very same turn, if it ticks; unless a
   * reply for the name has come in behind the request.
   */
  lemma RequestIsSent(s: System, acl: Acl, log: TurnLog, t: System, j: nat, m: System, k: nat)
    requires Inv(s) && Sane(s) && IsTurn(s, acl, log, t) && |log.inputs| <= |s.conns|
    requires k < |s.searchers| && SearcherConn(k) in s.conns && k < |log.ticking| && log.ticking[k]
    requires var received := InEvents(s.conns[..|log.inputs|], log.inputs, acl, log.world.now);
             && j < |received| && Runs(s, received[..j], m) && Sane(m) && received[j].Search?
             && |received[j].name| <= MAX_NAME && !CachedLive(m, received[j].name)
             && received[j].name !in AskedFor(s.searchers[k])
    ensures var received := InEvents(s.conns[..|log.inputs|], log.inputs, acl, log.world.now);
            var name, rest := received[j].name, received[j + 1..]; var u := PvSearched(m, name, received[j].now).0;
            Possible(u, rest) && (FoundIn(u, rest, name) || AsksOut(log.out, k, name))
  {
    hide Inv, Turn, Dispatched, Grown, Tells, Emits, InEvents, SweepEvents, AfterPurge, Sane, Run, Possible, AskedFor,
         AsksOut, NoTurning, PvSearched, CachedLive, FoundIn, Runs;
    var conns := s.conns[..|log.inputs|];
    var received := InEvents(conns, log.inputs, acl, log.world.now);
    var m1, m2 := TurnPhases(s, log.inputs, acl, log.world, log.ticking, log.purge, t, log.sent, log.out);
    RunsTo(s, received, m1);
    InputsTurnNothing(conns, log.inputs, acl, log.world.now);
    RequestStaysAsked(s, received, j, m, k);
    if received[j].name in AskedFor(Run(s, received).searchers[k]) {
      NewlyAskedIsSent(s, acl, log, t, k, received[j].name);
    }
  }

  lemma NoTurningTail(es: seq<Event>, j: nat)
    requires NoTurning(es) && j <= |es|
    ensures NoTurning(es[j..])
  {
    hide TurnsNoWheel;
    assert forall i | 0 <= i < |es| - j :: es[j..][i] == es[i + j];
  }

  /** Listeners and searchers are listed from the start and stay so in all turns. */
  lemma {:induction false} StaysListed(states: seq<System>, acl: Acl, turns: seq<TurnLog>, searchers: nat,
                                       listeners: nat, configured: seq<Word32>, k: nat, c: Conn)
    requires Turns(states, acl, turns) && k <= |turns|
    requires |SearchWheel.Fresh(configured).bins| > 0 && states[0] == Start(searchers, listeners, configured)
    requires match c
             case ListenerConn(i) => i < listeners
             case SearcherConn(i) => i < searchers
             case GuardConn(_) => false
    ensures c in states[k].conns
    decreases k
  {
    hide Turns, IsTurn, Start, Inv, Sane, Answers;
    TurnsSize(states, acl, turns);
    if k == 0 {
      ListedAtStart(searchers, listeners, configured, c);
    } else {
      StaysListed(states, acl, turns, searchers, listeners, configured, k - 1, c);
      HistoryIsSound(states, acl, turns, searchers, listeners, configured, k - 1);
      TurnAt(states, acl, turns, k - 1);
      TurnKeepsListed(states[k - 1], acl, turns[k - 1], states[k], c);
    }
  }

  /** The connections of a new server are its listeners, in order, and then its searchers. */
  lemma ListedAtStart(searchers: nat, listeners: nat, configured: seq<Word32>, c: Conn)
    ensures var conns := Start(searchers, listeners, configured).conns;
            && |conns| == listeners + searchers
            && (forall i | 0 <= i < listeners :: conns[i] == ListenerConn(i))
            && (forall i | 0 <= i < searchers :: conns[listeners + i] == SearcherConn(i))
            && (c in conns <==> match c
                                case ListenerConn(i) => i < listeners
                                case SearcherConn(i) => i < searchers
                                case GuardConn(_) => false)
  {
    var conns := Start(searchers, listeners, configured).conns;
    match c
    case ListenerConn(i) =>
      if i < listeners {
        assert conns[i] == c;
      }
    case SearcherConn(i) =>
      if i < searchers {
        assert conns[listeners + i] == c;
      }
    case GuardConn(_) =>
  }

  /** Only guards are ever dropped from the list. */
  lemma TurnKeepsListed(s: System, acl: Acl, log: TurnLog, t: System, c: Conn)
    requires Inv(s) && IsTurn(s, acl, log, t) && c in s.conns && !c.GuardConn?
    ensures c in t.conns
  {
    hide Inv, Turn, Sane;
    TurnKeepsInv(s, log.inputs, acl, log.world, log.ticking, log.purge, t, log.sent, log.out);
    assert Connected(t, c);
  }

  // ---------------------------------------------------------------- all that a sweep sends

  /** What polling one connection sends, in the state in which the sweep begins. */
  function SentBy(m: System, c: Conn, w: World, ticking: seq<bool>): seq<Seen>
    requires Sane(m)
  {
    match c
    case ListenerConn(_) => []
    case SearcherConn(k) =>
      if k < |m.searchers| && k < |ticking| && ticking[k]
      then [Queried(k, SearchWheel.Tick(m.searchers[k]).1)] else []
    case GuardConn(h) =>
      if h < |m.guards| then
        match Heartbeat.Step(m.guards[h], Heartbeat.Poll(w.now, h in w.writable, h in w.sendOk)).1.sent
        case Some(version) => [Beat(h, version)]
        case None => []
      else []
  }

  function SentByAll(m: System, conns: seq<Conn>, w: World, ticking: seq<bool>): seq<Seen>
    requires Sane(m)
    decreases conns
  {
    if conns == [] then [] else SentBy(m, conns[0], w, ticking) + SentByAll(m, conns[1..], w, ticking)
  }

  /** The connection is in the same state in both. */
  predicate SameAt(s: System, m: System, c: Conn) {
    match c
    case ListenerConn(_) => true
    case SearcherConn(k) => |s.searchers| == |m.searchers| && (k < |m.searchers| ==> s.searchers[k] == m.searchers[k])
    case GuardConn(h) => |s.guards| == |m.guards| && (h < |m.guards| ==> s.guards[h] == m.guards[h])
  }

  lemma PollLeaves(s: System, i: nat, w: World, ticking: seq<bool>, c: Conn)
    requires Sane(s) && i < |s.conns| && s.conns[i] != c
    ensures Possible(s, PollEvents(s.conns[i], w, ticking))
    ensures SameAt(Run(s, PollEvents(s.conns[i], w, ticking)), s, c)
  {
    hide Sane, Possible, Run, Step;
    PollPossible(s, i, w, ticking);
    ListedIndex(s, i);
    NoEvents(s);
    var es := PollEvents(s.conns[i], w, ticking);
    if es != [] {
      OneEvent(s, es[0]);
      EventLeaves(s, es[0], c);
    }
  }

  lemma EventLeaves(s: System, e: Event, c: Conn)
    requires Sane(s) && Enabled(s, e) && (e.Guarding? || e.Ticking?)
    requires c != if e.Guarding? then GuardConn(e.handle) else SearcherConn(e.searcher)
    ensures SameAt(Step(s, e).0, s, c)
  {
    hide SearchWheel.Valid, SearchWheel.Tick, Heartbeat.Step;
  }

  lemma PollSends(s: System, i: nat, w: World, ticking: seq<bool>)
    requires Sane(s) && i < |s.conns|
    ensures Possible(s, PollEvents(s.conns[i], w, ticking))
    ensures ToIocs(Trace(s, PollEvents(s.conns[i], w, ticking))) == SentBy(s, s.conns[i], w, ticking)
  {
    PollPossible(s, i, w, ticking);
    ListedIndex(s, i);
    hide Sane, SearchWheel.Tick, Heartbeat.Step;
    NoEvents(s);
    var es := PollEvents(s.conns[i], w, ticking);
    if es != [] {
      OneEvent(s, es[0]);
      ToIocsCons(Step(s, es[0]).1, []);
      assert [Step(s, es[0]).1] + [] == [Step(s, es[0]).1];
      if es[0].Guarding? {
        DropSendsNothing(s.guards[es[0].handle], es[0].beat);
      }
    }
  }

  lemma DropSendsNothing(g: Heartbeat.Guard, beat: Heartbeat.Event)
    ensures Heartbeat.Step(g, beat).1.dropped ==> Heartbeat.Step(g, beat).1.sent.None?
  {
  }

  lemma SameSends(s: System, m: System, c: Conn, w: World, ticking: seq<bool>)
    requires Sane(s) && Sane(m) && SameAt(s, m, c)
    ensures SentBy(s, c, w, ticking) == SentBy(m, c, w, ticking)
  {
    hide SearchWheel.Valid, SearchWheel.Tick, Heartbeat.Step;
  }

  /** All connections from position `i` on are still as they were in `m`. */
  predicate Untouched(s: System, m: System, i: nat) {
    i <= |s.conns| && forall x | i <= x < |s.conns| :: SameAt(s, m, s.conns[x])
  }

  lemma SameTransitive(t: System, s: System, m: System, c: Conn)
    requires SameAt(t, s, c) && SameAt(s, m, c)
    ensures SameAt(t, m, c)
  {
  }

  lemma {:induction false} SweepSendsFrom(s: System, i: nat, w: World, ticking: seq<bool>, m: System)
    requires Sane(s) && Sane(m) && Distinct(s.conns) && Untouched(s, m, i)
    ensures Possible(s, SweepEvents(s, i, w, ticking))
    ensures ToIocs(Trace(s, SweepEvents(s, i, w, ticking))) == SentByAll(m, s.conns[i..], w, ticking)
    decreases |s.conns| - i
  {
    hide Sane, Possible, Run, Trace, Connected, PollEvents, SweepEvents, EraseConn, SameAt, SentBy, ToIocs, Swept;
    if i == |s.conns| {
      NothingToSweep(s, i, w, ticking);
    } else {
      var c := s.conns[i];
      var es, rest := SweepSplits(s, i, w, ticking);
      var t := Run(s, es);
      PollSends(s, i, w, ticking);
      SameSends(s, m, c, w, ticking);
      ToIocsAppend(Trace(s, es), Trace(t, rest));
      forall x | i + 1 <= x < |s.conns| ensures SameAt(t, m, s.conns[x]) {
        PollLeaves(s, i, w, ticking, s.conns[x]);
        SameTransitive(t, s, m, s.conns[x]);
      }
      RunIsSane(s, es);
      assert s.conns[i..][0] == c && s.conns[i..][1..] == s.conns[i + 1..];
      if Connected(t, t.conns[i]) {
        SweepSendsFrom(t, i + 1, w, ticking, m);
      } else {
        var u := EraseConn(t, i);
        EraseIsEvent(t, i);
        ErasedSearchers(t, i);
        DistinctErased(t, i);
        ErasedUntouched(t, m, i);
        SweepSendsFrom(u, i, w, ticking, m);
        RunAppend(t, [Erasing(i)], SweepEvents(u, i, w, ticking));
        EraseSendsNothing(t, i);
        ToIocsAppend(Trace(t, [Erasing(i)]), Trace(u, SweepEvents(u, i, w, ticking)));
      }
    }
  }

  lemma RunIsSane(s: System, es: seq<Event>)
    requires Sane(s) && Possible(s, es)
    ensures Sane(Run(s, es))
  {
    hide Sane;
  }

  lemma NothingToSweep(s: System, i: nat, w: World, ticking: seq<bool>)
    requires Sane(s) && i == |s.conns|
    ensures Possible(s, SweepEvents(s, i, w, ticking)) && ToIocs(Trace(s, SweepEvents(s, i, w, ticking))) == []
  {
    hide Sane;
    NoEvents(s);
  }

  lemma EraseSendsNothing(t: System, i: nat)
    requires Sane(t) && i < |t.conns| && !Connected(t, t.conns[i])
    ensures Possible(t, [Erasing(i)]) && ToIocs(Trace(t, [Erasing(i)])) == []
  {
    hide Sane;
    OneEvent(t, Erasing(i));
    ToIocsCons(Other, []);
    assert [Other] + [] == [Other];
  }

  lemma ErasedUntouched(t: System, m: System, i: nat)
    requires i < |t.conns| && Untouched(t, m, i + 1)
    ensures Untouched(EraseConn(t, i), m, i)
  {
    var u := EraseConn(t, i);
    forall x | i <= x < |u.conns| ensures SameAt(u, m, u.conns[x]) {
      assert u.conns[x] == t.conns[x + 1] && SameAt(t, m, t.conns[x + 1]);
    }
  }

  /**
   * All that a turn sends to IOCs: for each connection listed after the dispatch, in order, the
   * requests of a searcher's current bin if it ticks, and a guard's heartbeat if it is due.
   */
  lemma TurnSends(s: System, acl: Acl, log: TurnLog, t: System)
    requires Inv(s) && IsTurn(s, acl, log, t)
    ensures Sane(s) && |log.inputs| <= |s.conns|
    ensures var received := InEvents(s.conns[..|log.inputs|], log.inputs, acl, log.world.now);
            && Possible(s, received)
            && var m := Run(s, received); var sends := SentByAll(m, m.conns, log.world, log.ticking);
               |log.out| == |sends| && forall i | 0 <= i < |sends| :: Carries(log.out[i], sends[i])
  {
    hide Inv, Turn, Dispatched, Grown, Tells, InEvents, SweepEvents, AfterPurge, Sane, Run, Possible, Distinct, SameAt,
         SentByAll, Trace, ToIocs, Carries;
    var w := log.world;
    var m, m2 := TurnPhases(s, log.inputs, acl, w, log.ticking, log.purge, t, log.sent, log.out);
    var received := InEvents(s.conns[..|log.inputs|], log.inputs, acl, w.now);
    RunsTo(s, received, m);
    RunKeepsInv(s, received);
    ConnsDistinct(m);
    SameAsItself(m);
    SweepSendsFrom(m, 0, w, log.ticking, m);
    assert m.conns[0..] == m.conns;
  }

  lemma SameAsItself(m: System)
    ensures Untouched(m, m, 0)
  {
  }
}
