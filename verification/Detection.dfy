/**
 * How soon the server gives up a silent IOC, counted in turns of the main loop: every turn polls
 * every live guard exactly once, so the spacing of the turns bounds the detection.
 */
module Detection {
  import opened Prelude
  import opened NameServer
  import opened CacheLaws
  import opened ServerLaws
  import opened AccessControl
  import opened Reactor
  import opened Traces
  import opened History
  import SearchWheel
  import Heartbeat
  import ChannelAccess

  // ---------------------------------------------------------------- what a turn does to one guard

  function PollOf(w: World, h: nat): Heartbeat.Event {
    Heartbeat.Poll(w.now, h in w.writable, h in w.sendOk)
  }

  lemma {:induction false} GuardEventsAppend(es: seq<Event>, fs: seq<Event>, h: nat)
    ensures GuardEvents(es + fs, h) == GuardEvents(es, h) + GuardEvents(fs, h)
    decreases es
  {
    if es == [] {
      assert es + fs == fs;
    } else {
      assert (es + fs)[1..] == es[1..] + fs;
      GuardEventsAppend(es[1..], fs, h);
    }
  }

  lemma {:induction false} NoGuardEvents(es: seq<Event>, h: nat)
    requires forall i | 0 <= i < |es| :: es[i].Guarding? ==> es[i].handle != h
    ensures GuardEvents(es, h) == []
    decreases es
  {
    if es != [] {
      assert forall i | 0 <= i < |es[1..]| :: es[1..][i] == es[i + 1];
      NoGuardEvents(es[1..], h);
    }
  }

  /** The sweep polls guard `h` once if it is listed, and has no other event for it. */
  lemma {:induction false} SweepPollsOnce(s: System, i: nat, w: World, ticking: seq<bool>, h: nat)
    requires Sane(s) && Distinct(s.conns) && i <= |s.conns|
    ensures GuardEvents(SweepEvents(s, i, w, ticking), h) == if GuardConn(h) in s.conns[i..] then [PollOf(w, h)] else []
    decreases |s.conns| - i
  {
    hide Sane, Possible, Run, Connected, PollEvents, SweepEvents, GuardEvents, EraseConn, PollOf;
    if i == |s.conns| {
      SweepIsOver(s, i, w, ticking);
    } else {
      SweepUnfold(s, i, w, ticking);
      var c, es := s.conns[i], PollEvents(s.conns[i], w, ticking);
      var t := Run(s, es);
      PolledEvents(c, w, ticking, h, i);
      assert s.conns[i..] == [c] + s.conns[i + 1..];
      if Connected(t, t.conns[i]) {
        GuardEventsAppend(es, SweepEvents(t, i + 1, w, ticking), h);
        SweepPollsOnce(t, i + 1, w, ticking, h);
      } else {
        EraseIsEvent(t, i);
        var u := EraseConn(t, i);
        ErasedList(t, i);
        GuardEventsAppend(es, [Erasing(i)], h);
        GuardEventsAppend(es + [Erasing(i)], SweepEvents(u, i, w, ticking), h);
        SweepPollsOnce(u, i, w, ticking, h);
      }
    }
  }

  lemma SweepIsOver(s: System, i: nat, w: World, ticking: seq<bool>)
    requires Sane(s) && i == |s.conns|
    ensures SweepEvents(s, i, w, ticking) == [] && forall h :: GuardEvents([], h) == []
  {
    hide Sane;
  }

  lemma PolledEvents(c: Conn, w: World, ticking: seq<bool>, h: nat, i: nat)
    ensures GuardEvents(PollEvents(c, w, ticking), h) == if c == GuardConn(h) then [PollOf(w, h)] else []
    ensures GuardEvents([Erasing(i)], h) == []
  {
    var es := PollEvents(c, w, ticking);
    assert es == [] || es[1..] == [];
    assert [Erasing(i)][1..] == [];
  }

  lemma ErasedList(s: System, i: nat)
    requires i < |s.conns| && Distinct(s.conns)
    ensures var u := EraseConn(s, i);
            |u.conns| == |s.conns| - 1 && u.conns[i..] == s.conns[i + 1..] && Distinct(u.conns)
    ensures s.conns[i] !in s.conns[i + 1..]
  {
    DistinctErase(s.conns, i);
  }

  /** The guard's socket has nothing to read in this turn. */
  predicate Silent(conns: seq<Conn>, inputs: seq<Incoming>, h: nat)
    requires |inputs| <= |conns|
  {
    forall i | 0 <= i < |inputs| :: conns[i] == GuardConn(h) ==> !inputs[i].FromTcp?
  }

  lemma {:induction false} SearchesNoGuard(acl: Acl, ds: seq<ClientDatagram>, now: Time)
    ensures forall i | 0 <= i < |ReadClients(acl, ds, now)| :: !ReadClients(acl, ds, now)[i].Guarding?
    decreases ds
  {
    hide WantedIn;
    if ds != [] {
      SearchesNoGuard(acl, ds[1..], now);
    }
  }

  lemma {:induction false} RepliesNoGuard(k: nat, ds: seq<IocDatagram>, now: Time)
    ensures forall i | 0 <= i < |ReadIocs(k, ds, now)| :: !ReadIocs(k, ds, now)[i].Guarding?
    decreases ds
  {
    hide Framing.Frames, ChannelAccess.Replies, ChannelAccess.ReplyPort, ChannelAccess.Patched;
    if ds != [] {
      RepliesNoGuard(k, ds[1..], now);
    }
  }

  lemma ReceiveIsSilent(c: Conn, input: Incoming, acl: Acl, now: Time, h: nat)
    requires c == GuardConn(h) ==> !input.FromTcp?
    ensures GuardEvents(ReceiveEvents(c, input, acl, now), h) == []
  {
    match (c, input) {
      case (ListenerConn(_), FromClients(ds)) => SearchesNoGuard(acl, ds, now);
      case (SearcherConn(k), FromIocs(ds)) => RepliesNoGuard(k, ds, now);
      case _ =>
    }
    hide ReadClients, ReadIocs;
    NoGuardEvents(ReceiveEvents(c, input, acl, now), h);
  }

  lemma {:induction false} DispatchIsSilent(conns: seq<Conn>, inputs: seq<Incoming>, acl: Acl, now: Time, h: nat)
    requires |inputs| <= |conns| && Silent(conns, inputs, h)
    ensures GuardEvents(InEvents(conns, inputs, acl, now), h) == []
    decreases inputs
  {
    hide ReceiveEvents;
    if inputs != [] {
      ReceiveIsSilent(conns[0], inputs[0], acl, now, h);
      assert forall i | 0 <= i < |inputs[1..]| :: conns[1..][i] == conns[i + 1] && inputs[1..][i] == inputs[i + 1];
      DispatchIsSilent(conns[1..], inputs[1..], acl, now, h);
      GuardEventsAppend(ReceiveEvents(conns[0], inputs[0], acl, now), InEvents(conns[1..], inputs[1..], acl, now), h);
    }
  }

  /** Nothing comes in for guard `h` in this turn. */
  predicate SilentTurn(s: System, log: TurnLog, h: nat) {
    |log.inputs| <= |s.conns| && Silent(s.conns, log.inputs, h)
  }

  predicate SilentTurns(states: seq<System>, turns: seq<TurnLog>, from: nat, k: nat, h: nat)
    requires from <= k <= |turns| < |states|
  {
    forall i | from <= i < k :: SilentTurn(states[i], turns[i], h)
  }

  /**
   * Every turn polls each guard that is listed after the dispatch exactly once, behind all that
   * the guard has received in the turn, and no other; among them are all that are up then.
   */
  lemma TurnPollsEach(s: System, acl: Acl, log: TurnLog, t: System, h: nat)
    requires Inv(s) && IsTurn(s, acl, log, t)
    ensures Sane(s) && |log.inputs| <= |s.conns|
    ensures var received := InEvents(s.conns[..|log.inputs|], log.inputs, acl, log.world.now);
            && Possible(s, received)
            && var m := Run(s, received);
               && GuardEvents(EventsOf(s, acl, log), h) ==
                    GuardEvents(received, h) + (if GuardConn(h) in m.conns then [PollOf(log.world, h)] else [])
               && (h < |m.guards| && m.guards[h].alive ==> GuardConn(h) in m.conns)
  {
    hide Inv, Turn, Dispatched, Grown, Tells, Emits, InEvents, SweepEvents, AfterPurge, Sane, Run, Possible,
         GuardEvents, Distinct;
    var w := log.world;
    var m1, m2 := TurnPhases(s, log.inputs, acl, w, log.ticking, log.purge, t, log.sent, log.out);
    var received := InEvents(s.conns[..|log.inputs|], log.inputs, acl, w.now);
    RunsTo(s, received, m1);
    RunKeepsInv(s, received);
    ListIsDistinct(m1);
    ListedIfAlive(m1, h);
    var swept := SweepEvents(m1, 0, w, log.ticking);
    SweepPollsOnce(m1, 0, w, log.ticking, h);
    assert m1.conns[0..] == m1.conns;
    GuardEventsAppend(received, swept, h);
    var purge := match log.purge case Some(maxtime) => [Purging(w.now, maxtime)] case None => [];
    GuardEventsAppend(received + swept, purge, h);
    NoGuardEvents(purge, h);
    assert EventsOf(s, acl, log) == received + swept + purge;
  }

  /** A turn in which it hears nothing is one poll for a live guard, and nothing for a dead one. */
  lemma TurnPollsOnce(s: System, acl: Acl, log: TurnLog, t: System, h: nat)
    requires Inv(s) && IsTurn(s, acl, log, t) && h < |s.guards| && SilentTurn(s, log, h)
    ensures h < |t.guards|
    ensures t.guards[h] ==
            if s.guards[h].alive then Heartbeat.Step(s.guards[h], PollOf(log.world, h)).0 else s.guards[h]
  {
    hide Inv, Turn, Dispatched, Grown, Tells, Emits, InEvents, SweepEvents, AfterPurge, Sane, Run, Possible,
         GuardEvents, Distinct, Heartbeat.Step, Silent;
    var w := log.world;
    var m1, m2 := TurnPhases(s, log.inputs, acl, w, log.ticking, log.purge, t, log.sent, log.out);
    var conns := s.conns[..|log.inputs|];
    var first, second := InEvents(conns, log.inputs, acl, w.now), SweepEvents(m1, 0, w, log.ticking);
    RunsTo(s, first, m1);
    RunsTo(m1, second, m2);
    SilentPrefix(s.conns, log.inputs, h);
    DispatchIsSilent(conns, log.inputs, acl, w.now, h);
    GuardsRun(s, first, h);
    GuardsRun(m1, second, h);
    RunKeepsInv(s, first);
    ListIsDistinct(m1);
    ListedIfAlive(m1, h);
    SweepPollsOnce(m1, 0, w, log.ticking, h);
    assert m1.conns[0..] == m1.conns;
    GuardRunOf(s.guards[h], PollOf(w, h));
    PurgeKeepsGuards(m2, log.purge, w.now);
  }

  lemma SilentPrefix(conns: seq<Conn>, inputs: seq<Incoming>, h: nat)
    requires |inputs| <= |conns| && Silent(conns, inputs, h)
    ensures Silent(conns[..|inputs|], inputs, h)
  {
    assert forall i | 0 <= i < |inputs| :: conns[..|inputs|][i] == conns[i];
  }

  lemma ListIsDistinct(s: System)
    requires Inv(s)
    ensures Sane(s) && Distinct(s.conns)
  {
    hide Sane, AllIndexed, Bijection, Exclusive;
    InvIsSane(s);
  }

  lemma ListedIfAlive(s: System, h: nat)
    requires Inv(s)
    ensures h < |s.guards| && s.guards[h].alive ==> GuardConn(h) in s.conns
  {
    hide Sane, AllIndexed, Bijection, Exclusive;
    InvIsSane(s);
  }

  lemma GuardRunOf(g: Heartbeat.Guard, e: Heartbeat.Event)
    ensures Heartbeat.Run(g, []) == g && Heartbeat.Run(g, [e]) == Heartbeat.Step(g, e).0
    ensures !g.alive ==> Heartbeat.Step(g, e).0 == g
  {
    assert [e][1..] == [];
  }

  lemma PurgeKeepsGuards(s: System, purge: Option<Word32>, now: Time)
    requires Sane(s)
    ensures AfterPurge(s, purge, now).guards == s.guards
  {
    hide SearchWheel.Valid, SearchWheel.Purge;
  }

  // ---------------------------------------------------------------- no recorded time lies in the future

  ghost predicate AllTimely(s: System, now: Time) {
    forall h | 0 <= h < |s.guards| :: Heartbeat.Timely(s.guards[h], now)
  }

  /** Every event that has a time has this one. */
  predicate AllAt(es: seq<Event>, now: Time) {
    forall i | 0 <= i < |es| :: IsAt(es[i], now)
  }

  predicate IsAt(e: Event, now: Time) {
    (e.Guarding? ==> e.beat.now == now) && (e.Reply? ==> e.now == now) && (e.Search? ==> e.now == now)
  }

  lemma AllAtAppend(es: seq<Event>, fs: seq<Event>, now: Time)
    requires AllAt(es, now) && AllAt(fs, now)
    ensures AllAt(es + fs, now)
  {
    hide IsAt;
  }

  lemma StepKeepsTimely(s: System, e: Event, now: Time)
    requires Sane(s) && Enabled(s, e) && AllTimely(s, now) && IsAt(e, now) && 0 < now
    ensures AllTimely(Step(s, e).0, now)
  {
    hide Heartbeat.Step, SearchWheel.Valid, SearchWheel.Resolve, Heartbeat.Timely;
    if e.Guarding? {
      Heartbeat.TimelyStep(s.guards[e.handle], e.beat, now);
    } else if e.Reply? {
      ReplyIs(s, e.searcher, e.id, e.addr, e.response, e.created, e.now);
      NewGuardIsTimely(e.addr, now);
    }
  }

  lemma NewGuardIsTimely(addr: Addr, now: Time)
    requires 0 < now
    ensures Heartbeat.Timely(Heartbeat.NewGuard(addr, now), now)
  {
  }

  lemma {:induction false} RunKeepsTimely(s: System, es: seq<Event>, now: Time)
    requires Sane(s) && Possible(s, es) && AllTimely(s, now) && AllAt(es, now) && 0 < now
    ensures AllTimely(Run(s, es), now)
    decreases es
  {
    hide Sane, Step, Enabled, AllTimely, IsAt;
    if es != [] {
      assert IsAt(es[0], now) && forall i | 0 <= i < |es[1..]| :: es[1..][i] == es[i + 1];
      StepKeepsTimely(s, es[0], now);
      RunKeepsTimely(Step(s, es[0]).0, es[1..], now);
    }
  }

  lemma {:induction false} ReadClientsAt(acl: Acl, ds: seq<ClientDatagram>, now: Time)
    ensures AllAt(ReadClients(acl, ds, now), now)
    decreases ds
  {
    hide WantedIn;
    if ds != [] {
      ReadClientsAt(acl, ds[1..], now);
      AllAtAppend(ClientEvents(acl, ds[0], now), ReadClients(acl, ds[1..], now), now);
    }
  }

  lemma {:induction false} ReadIocsAt(k: nat, ds: seq<IocDatagram>, now: Time)
    ensures AllAt(ReadIocs(k, ds, now), now)
    decreases ds
  {
    hide Framing.Frames, ChannelAccess.Replies, ChannelAccess.ReplyPort, ChannelAccess.Patched;
    if ds != [] {
      ReadIocsAt(k, ds[1..], now);
      AllAtAppend(IocEvents(k, ds[0].data, ds[0].ip, ds[0].created, now), ReadIocs(k, ds[1..], now), now);
    }
  }

  lemma {:induction false} InputsAt(conns: seq<Conn>, inputs: seq<Incoming>, acl: Acl, now: Time)
    requires |inputs| <= |conns|
    ensures AllAt(InEvents(conns, inputs, acl, now), now)
    decreases inputs
  {
    hide ReadClients, ReadIocs;
    if inputs != [] {
      match (conns[0], inputs[0]) {
        case (ListenerConn(_), FromClients(ds)) => ReadClientsAt(acl, ds, now);
        case (SearcherConn(k), FromIocs(ds)) => ReadIocsAt(k, ds, now);
        case _ =>
      }
      InputsAt(conns[1..], inputs[1..], acl, now);
      AllAtAppend(ReceiveEvents(conns[0], inputs[0], acl, now), InEvents(conns[1..], inputs[1..], acl, now), now);
    }
  }

  lemma {:induction false} SweepAt(s: System, i: nat, w: World, ticking: seq<bool>)
    requires Sane(s) && i <= |s.conns|
    ensures AllAt(SweepEvents(s, i, w, ticking), w.now)
    decreases |s.conns| - i
  {
    hide Sane, Possible, Run, Connected, PollEvents, SweepEvents, AllAt, EraseConn;
    PollAt(if i < |s.conns| then s.conns[i] else ListenerConn(0), w, ticking, i);
    if i == |s.conns| {
      SweepIsOver(s, i, w, ticking);
    } else {
      SweepUnfold(s, i, w, ticking);
      var es := PollEvents(s.conns[i], w, ticking);
      var t := Run(s, es);
      if Connected(t, t.conns[i]) {
        SweepAt(t, i + 1, w, ticking);
        AllAtAppend(es, SweepEvents(t, i + 1, w, ticking), w.now);
      } else {
        EraseIsEvent(t, i);
        ErasedLength(t, i);
        SweepAt(EraseConn(t, i), i, w, ticking);
        AllAtAppend(es, [Erasing(i)], w.now);
        AllAtAppend(es + [Erasing(i)], SweepEvents(EraseConn(t, i), i, w, ticking), w.now);
      }
    }
  }

  lemma PollAt(c: Conn, w: World, ticking: seq<bool>, i: nat)
    ensures AllAt(PollEvents(c, w, ticking), w.now) && AllAt([Erasing(i)], w.now) && AllAt([], w.now)
  {
  }

  lemma LaterIsTimely(s: System, last: Time, now: Time)
    requires AllTimely(s, last) && last <= now
    ensures AllTimely(s, now)
  {
    forall h | 0 <= h < |s.guards| ensures Heartbeat.Timely(s.guards[h], now) {
      assert Heartbeat.Timely(s.guards[h], last);
    }
  }

  lemma TurnKeepsTimely(s: System, acl: Acl, log: TurnLog, t: System, last: Time)
    requires IsTurn(s, acl, log, t) && AllTimely(s, last) && last <= log.world.now && 0 < log.world.now
    ensures AllTimely(t, log.world.now)
  {
    hide Turn, Dispatched, Grown, Tells, Emits, InEvents, SweepEvents, AfterPurge, Sane, Run, Possible, AllTimely,
         AllAt;
    var w := log.world;
    LaterIsTimely(s, last, w.now);
    var m1, m2 := TurnPhases(s, log.inputs, acl, w, log.ticking, log.purge, t, log.sent, log.out);
    var conns := s.conns[..|log.inputs|];
    InputsAt(conns, log.inputs, acl, w.now);
    RunKeepsTimely(s, InEvents(conns, log.inputs, acl, w.now), w.now);
    SweepAt(m1, 0, w, log.ticking);
    RunKeepsTimely(m1, SweepEvents(m1, 0, w, log.ticking), w.now);
    PurgeKeepsGuards(m2, log.purge, w.now);
    SameGuardsTimely(m2, t, w.now);
  }

  lemma SameGuardsTimely(s: System, t: System, now: Time)
    requires AllTimely(s, now) && t.guards == s.guards
    ensures AllTimely(t, now)
  {
    hide Heartbeat.Timely;
  }

  // ---------------------------------------------------------------- detection

  /** The clock never runs backwards, and its epoch lies before the first turn. */
  predicate ClockRuns(turns: seq<TurnLog>) {
    && (turns != [] ==> 0 < turns[0].world.now)
    && forall i | 0 <= i < |turns| - 1 :: turns[i].world.now <= turns[i + 1].world.now
  }

  lemma {:induction false} ClockIsPositive(turns: seq<TurnLog>, k: nat)
    requires ClockRuns(turns) && k < |turns|
    ensures 0 < turns[k].world.now
    decreases k
  {
    if k > 0 {
      ClockIsPositive(turns, k - 1);
      assert turns[k - 1].world.now <= turns[k - 1 + 1].world.now;
    }
  }

  lemma {:induction false} HistoryIsTimely(states: seq<System>, acl: Acl, turns: seq<TurnLog>, k: nat)
    requires Turns(states, acl, turns) && ClockRuns(turns) && 0 < k <= |turns| && states[0].guards == []
    ensures AllTimely(states[k], turns[k - 1].world.now)
    decreases k
  {
    hide IsTurn, AllTimely;
    ClockIsPositive(turns, k - 1);
    var last := if k == 1 then 0 else turns[k - 2].world.now;
    if k == 1 {
      NoGuardsTimely(states[0], last);
    } else {
      HistoryIsTimely(states, acl, turns, k - 1);
      assert turns[k - 2].world.now <= turns[k - 2 + 1].world.now;
    }
    assert IsTurn(states[k - 1], acl, turns[k - 1], states[k - 1 + 1]);
    TurnKeepsTimely(states[k - 1], acl, turns[k - 1], states[k], last);
  }

  lemma NoGuardsTimely(s: System, now: Time)
    requires s.guards == []
    ensures AllTimely(s, now)
  {
  }

  /** The polls of guard `h` in these turns. */
  function Polls(logs: seq<TurnLog>, h: nat): (es: seq<Heartbeat.Event>)
    ensures |es| == |logs| && forall i | 0 <= i < |logs| :: es[i] == PollOf(logs[i].world, h)
  {
    seq(|logs|, i requires 0 <= i < |logs| => PollOf(logs[i].world, h))
  }

  /** Turns are never more than `d` apart, the first one counted from `last`. */
  predicate Spaced(logs: seq<TurnLog>, last: Time, d: int)
    decreases logs
  {
    logs == [] || (last <= logs[0].world.now <= last + d && Spaced(logs[1..], logs[0].world.now, d))
  }

  lemma {:induction false} SpacedPolls(logs: seq<TurnLog>, last: Time, d: int, h: nat)
    requires Spaced(logs, last, d)
    ensures Heartbeat.SilentPolls(Polls(logs, h), last, d)
    decreases logs
  {
    if logs != [] {
      SpacedPolls(logs[1..], logs[0].world.now, d, h);
      assert Polls(logs, h)[1..] == Polls(logs[1..], h);
    }
  }

  /** The guard has been polled once in each of these turns, or is dead. */
  ghost predicate Polled(g: Heartbeat.Guard, logs: seq<TurnLog>, h: nat, s: System) {
    h < |s.guards| && (s.guards[h].alive ==> s.guards[h] == Heartbeat.Run(g, Polls(logs, h)))
  }

  lemma PolledOnceMore(g: Heartbeat.Guard, logs: seq<TurnLog>, s: System, acl: Acl, log: TurnLog, t: System, h: nat)
    requires QuietTurn(s, acl, log, t, h) && Polled(g, logs, h, s)
    ensures Polled(g, logs + [log], h, t)
  {
    hide Inv, IsTurn, Heartbeat.Step, Heartbeat.Run, SilentTurn, PollOf, Polls;
    TurnPollsOnce(s, acl, log, t, h);
    OnePollMore(g, logs, log, h);
  }

  /** A turn in which guard `h` hears nothing. */
  ghost predicate QuietTurn(s: System, acl: Acl, log: TurnLog, t: System, h: nat) {
    Inv(s) && IsTurn(s, acl, log, t) && SilentTurn(s, log, h)
  }

  ghost predicate QuietPath(states: seq<System>, acl: Acl, logs: seq<TurnLog>, h: nat) {
    |states| == |logs| + 1 && forall i | 0 <= i < |logs| :: QuietTurn(states[i], acl, logs[i], states[i + 1], h)
  }

  lemma QuietPathFront(states: seq<System>, acl: Acl, logs: seq<TurnLog>, h: nat)
    requires QuietPath(states, acl, logs, h) && logs != []
    ensures var n := |logs| - 1;
            && |states| == n + 2 && QuietPath(states[..n + 1], acl, logs[..n], h)
            && QuietTurn(states[n], acl, logs[n], states[n + 1], h)
            && states[..n + 1][n] == states[n] && states[..n + 1][0] == states[0] && logs == logs[..n] + [logs[n]]
  {
    hide QuietTurn;
    var n := |logs| - 1;
    assert forall i | 0 <= i < n + 1 :: states[..n + 1][i] == states[i];
    assert QuietTurn(states[n], acl, logs[n], states[n + 1], h);
  }

  lemma {:induction false} DeadStays(states: seq<System>, acl: Acl, logs: seq<TurnLog>, h: nat)
    requires |states| == |logs| + 1 && QuietPath(states, acl, logs, h) && h < |states[0].guards|
    ensures Polled(states[0].guards[h], logs, h, states[|logs|])
    decreases |logs|
  {
    hide QuietPath, QuietTurn, Polled;
    if logs == [] {
      NoPolls(states[0], logs, h);
    } else {
      var n := |logs| - 1;
      QuietPathFront(states, acl, logs, h);
      DeadStays(states[..n + 1], acl, logs[..n], h);
      PolledOnceMore(states[0].guards[h], logs[..n], states[n], acl, logs[n], states[n + 1], h);
    }
  }

  /** The turns of a history in which guard `h` hears nothing. */
  lemma QuietPathOf(states: seq<System>, acl: Acl, turns: seq<TurnLog>, from: nat, k: nat, h: nat)
    requires Turns(states, acl, turns) && Inv(states[0]) && from <= k <= |turns|
             && SilentTurns(states, turns, from, k, h)
    ensures QuietPath(states[from..k + 1], acl, turns[from..k], h)
  {
    hide Inv, Turns, IsTurn, SilentTurns, QuietTurn;
    TurnsSize(states, acl, turns);
    var path, logs := states[from..k + 1], turns[from..k];
    forall i | 0 <= i < |logs| ensures QuietTurn(path[i], acl, logs[i], path[i + 1], h) {
      QuietTurnOf(states, acl, turns, from, k, h, from + i);
      assert path[i] == states[from + i] && path[i + 1] == states[from + i + 1] && logs[i] == turns[from + i];
    }
  }

  lemma QuietTurnOf(states: seq<System>, acl: Acl, turns: seq<TurnLog>, from: nat, k: nat, h: nat, i: nat)
    requires |states| == |turns| + 1 && Turns(states, acl, turns) && Inv(states[0])
    requires from <= i < k <= |turns| && SilentTurns(states, turns, from, k, h)
    ensures QuietTurn(states[i], acl, turns[i], states[i + 1], h)
  {
    hide Inv, Turns, IsTurn, SilentTurn, Runs;
    HistoryIsRun(states, acl, turns, i);
    TurnAt(states, acl, turns, i);
  }

  lemma NoPolls(s: System, logs: seq<TurnLog>, h: nat)
    requires logs == [] && h < |s.guards|
    ensures Polled(s.guards[h], logs, h, s)
  {
  }

  lemma OnePollMore(g: Heartbeat.Guard, logs: seq<TurnLog>, log: TurnLog, h: nat)
    ensures Heartbeat.Run(g, Polls(logs + [log], h)) ==
            Heartbeat.Step(Heartbeat.Run(g, Polls(logs, h)), PollOf(log.world, h)).0
  {
    hide Heartbeat.Step, Heartbeat.Run, PollOf;
    assert Polls(logs + [log], h) == Polls(logs, h) + [PollOf(log.world, h)];
    Heartbeat.RunSnoc(g, Polls(logs, h), PollOf(log.world, h));
  }

  /** A guard that hears nothing is dead when its patience is over. */
  lemma SilentGuardIsDead(states: seq<System>, acl: Acl, turns: seq<TurnLog>, from: nat, k: nat, h: nat, d: int)
    requires Turns(states, acl, turns) && ClockRuns(turns) && d >= 0 && Inv(states[0]) && states[0].guards == []
    requires 0 < from < k <= |turns| && h < |states[from].guards|
    requires Spaced(turns[from..k], turns[from - 1].world.now, d)
    requires SilentTurns(states, turns, from, k, h)
    requires turns[k - 1].world.now >= turns[from - 1].world.now + Heartbeat.Patience(states[from].guards[h], d)
    ensures h < |states[k].guards| && !states[k].guards[h].alive
  {
    hide Inv, IsTurn, QuietPath, SilentTurns, Heartbeat.Run, Heartbeat.Patience, Heartbeat.Timely,
         Heartbeat.SilentPolls, Spaced, Polls, ClockRuns;
    var heard, logs := turns[from - 1].world.now, turns[from..k];
    HistoryIsTimely(states, acl, turns, from);
    QuietPathOf(states, acl, turns, from, k, h);
    DeadStays(states[from..k + 1], acl, logs, h);
    SpacedPolls(logs, heard, d, h);
    LastPoll(logs, heard, h);
    Heartbeat.SilentGuardDies(states[from].guards[h], Polls(logs, h), heard, d);
  }

  lemma LastPoll(logs: seq<TurnLog>, heard: Time, h: nat)
    requires logs != []
    ensures Heartbeat.EndTime(Polls(logs, h), heard) == logs[|logs| - 1].world.now
  {
  }

  /**
   * Detection: if turns are at most `d` apart and guard `h` hears nothing after turn `from`, it
   * is dead in every state reached 22 s + d later, or 28 s + 2d later if it was still
   * connecting; from then on every search for a PV cached on it is a miss.
   */
  lemma SilenceIsDetected(states: seq<System>, acl: Acl, turns: seq<TurnLog>, searchers: nat, listeners: nat,
                             configured: seq<Word32>, from: nat, k: nat, h: nat, d: int)
    requires Turns(states, acl, turns) && ClockRuns(turns) && d >= 0
    requires |SearchWheel.Fresh(configured).bins| > 0 && states[0] == Start(searchers, listeners, configured)
    requires 0 < from < k <= |turns| && h < |states[from].guards|
    requires Spaced(turns[from..k], turns[from - 1].world.now, d)
    requires SilentTurns(states, turns, from, k, h)
    requires turns[k - 1].world.now >= turns[from - 1].world.now + Heartbeat.Patience(states[from].guards[h], d)
    ensures Sane(states[k]) && h < |states[k].guards| && !states[k].guards[h].alive
    ensures forall name, now | |name| <= ChannelAccess.MAX_NAME && name in states[k].pvs
            && states[k].pvs[name].guard == h ::
              PvSearched(states[k], name, now).1 == []
  {
    StartIsSound(searchers, listeners, configured);
    assert states[0].guards == [];
    hide Inv, Answers, InStep, IsTurn, Start, Sane, SilentTurns, Heartbeat.Patience, Spaced, ClockRuns, PvSearched;
    SilentGuardIsDead(states, acl, turns, from, k, h, d);
    HistoryIsRun(states, acl, turns, k);
    InvIsSane(states[k]);
    forall name, now | |name| <= ChannelAccess.MAX_NAME && name in states[k].pvs && states[k].pvs[name].guard == h
      ensures PvSearched(states[k], name, now).1 == []
    {
      DeadGuardMisses(states[k], name, now, h);
    }
  }
}
