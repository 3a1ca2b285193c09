/**
 * What the clock decides: when searchers tick, when the searchers are purged, and by when a name
 * that nobody asks for is out of all of them.
 */
module Clockwork {
  import opened Prelude
  import opened ChannelAccess
  import opened NameServer
  import opened Asked
  import opened CacheLaws
  import opened ServerLaws
  import opened AccessControl
  import opened Reactor
  import opened Traces
  import opened History
  import opened Detection
  import opened Intake
  import Lockstep
  import Promptness
  import SearchWheel

  /**
   * A turn by the rules of the clock: the searchers that tick are those built 99 ms ago or
   * earlier, and there is a purge exactly if the last one is a pause ago or longer: the configured
   * delay, in full seconds, must be over.
   */
  predicate Clocked(log: TurnLog, built: seq<Time>, delay: Word32, lastPurge: Time) {
    && |log.ticking| == |built|
    && (forall k | 0 <= k < |built| :: log.ticking[k] <==> log.world.now >= built[k] + 99 * MILLISECOND)
    && log.purge == if log.world.now >= lastPurge + (delay + 1) * SECOND then Some(delay) else None
  }

  function NextPurge(log: TurnLog, lastPurge: Time): Time {
    if log.purge.Some? then log.world.now else lastPurge
  }

  /** The time of the last purge after the first `k` turns. */
  function PurgedAt(turns: seq<TurnLog>, lastPurge: Time, k: nat): Time
    requires k <= |turns|
  {
    if k == 0 then lastPurge else NextPurge(turns[k - 1], PurgedAt(turns, lastPurge, k - 1))
  }

  ghost predicate AllClocked(turns: seq<TurnLog>, built: seq<Time>, delay: Word32, lastPurge: Time) {
    forall k | 0 <= k < |turns| :: Clocked(turns[k], built, delay, PurgedAt(turns, lastPurge, k))
  }

  // ---------------------------------------------------------------- purges

  lemma ClockedAt(turns: seq<TurnLog>, built: seq<Time>, delay: Word32, lastPurge: Time, k: nat)
    requires AllClocked(turns, built, delay, lastPurge) && k < |turns|
    ensures Clocked(turns[k], built, delay, PurgedAt(turns, lastPurge, k))
    ensures PurgedAt(turns, lastPurge, k + 1) == NextPurge(turns[k], PurgedAt(turns, lastPurge, k))
  {
    hide Clocked, NextPurge;
  }

  lemma NoPurgeYet(turns: seq<TurnLog>, lastPurge: Time)
    ensures PurgedAt(turns, lastPurge, 0) == lastPurge
  {
  }

  lemma PurgeWaits(log: TurnLog, built: seq<Time>, delay: Word32, lastPurge: Time)
    requires Clocked(log, built, delay, lastPurge)
    ensures NextPurge(log, lastPurge) >= lastPurge
    ensures log.purge.Some? ==>
              log.world.now >= lastPurge + (delay + 1) * SECOND && NextPurge(log, lastPurge) == log.world.now
  {
  }

  lemma {:induction false} PurgedLater(turns: seq<TurnLog>, built: seq<Time>, delay: Word32, lastPurge: Time,
                                       i: nat, k: nat)
    requires AllClocked(turns, built, delay, lastPurge) && i <= k <= |turns|
    ensures PurgedAt(turns, lastPurge, i) <= PurgedAt(turns, lastPurge, k)
    decreases k
  {
    hide AllClocked, Clocked, NextPurge, PurgedAt;
    if i < k {
      PurgedLater(turns, built, delay, lastPurge, i, k - 1);
      ClockedAt(turns, built, delay, lastPurge, k - 1);
      PurgeWaits(turns[k - 1], built, delay, PurgedAt(turns, lastPurge, k - 1));
    }
  }

  /** Two purges are at least a pause apart. */
  lemma PurgesApart(turns: seq<TurnLog>, built: seq<Time>, delay: Word32, lastPurge: Time, i: nat, j: nat)
    requires AllClocked(turns, built, delay, lastPurge) && i < j < |turns|
    requires turns[i].purge.Some? && turns[j].purge.Some?
    ensures turns[j].world.now - turns[i].world.now >= (delay + 1) * SECOND
  {
    hide AllClocked, Clocked, NextPurge, PurgedAt;
    ClockedAt(turns, built, delay, lastPurge, i);
    PurgeWaits(turns[i], built, delay, PurgedAt(turns, lastPurge, i));
    PurgedLater(turns, built, delay, lastPurge, i + 1, j);
    ClockedAt(turns, built, delay, lastPurge, j);
    PurgeWaits(turns[j], built, delay, PurgedAt(turns, lastPurge, j));
  }

  // ---------------------------------------------------------------- names that nobody asks for

  /** No searcher holds a request for the name that is younger than `since`. */
  ghost predicate Stale(s: System, name: PvName, since: Time) {
    forall k | 0 <= k < |s.searchers| && name in AskedFor(s.searchers[k]) :: AskedFor(s.searchers[k])[name] <= since
  }

  ghost predicate Gone(s: System, name: PvName) {
    forall k | 0 <= k < |s.searchers| :: name !in AskedFor(s.searchers[k])
  }

  /** Nobody asks for the name in this run. */
  predicate Unasked(es: seq<Event>, name: PvName) {
    forall i | 0 <= i < |es| :: NotAsking(es[i], name)
  }

  predicate NotAsking(e: Event, name: PvName) {
    e.Search? ==> e.name != name
  }

  lemma ApplyStale(op: Lockstep.Op, asked: Lockstep.Names, name: PvName)
    requires op.Touch? ==> op.name != name
    ensures var next := Lockstep.Apply(op, asked);
            name in next ==> name in asked && next[name] == asked[name]
  {
  }

  lemma OpNotAsking(s: System, e: Event, name: PvName)
    requires Sane(s) && Enabled(s, e) && NotAsking(e, name)
    ensures var op := Lockstep.OpOf(s, e); op.Touch? ==> op.name != name
  {
    hide Sane, CachedLive, SearchWheel.Resolve;
  }

  lemma StepKeepsStale(s: System, e: Event, name: PvName, since: Time)
    requires Inv(s) && Enabled(s, e) && NotAsking(e, name)
    ensures Stale(s, name, since) ==> Stale(Step(s, e).0, name, since)
    ensures Gone(s, name) ==> Gone(Step(s, e).0, name)
  {
    InvIsSane(s);
    StepKeepsCount(s, e);
    OpNotAsking(s, e, name);
    hide Inv, Sane, Step, Enabled, AskedFor, NotAsking, GuardFails, Lockstep.OpOf, Lockstep.Apply;
    var t := Step(s, e).0;
    forall k | 0 <= k < |t.searchers|
      ensures name in AskedFor(t.searchers[k]) ==>
                name in AskedFor(s.searchers[k]) && AskedFor(t.searchers[k])[name] == AskedFor(s.searchers[k])[name]
    {
      Lockstep.StepActs(s, e, k);
      ApplyStale(Lockstep.OpOf(s, e), AskedFor(s.searchers[k]), name);
    }
  }

  lemma {:induction false} RunKeepsStale(s: System, es: seq<Event>, name: PvName, since: Time)
    requires Inv(s) && Sane(s) && Possible(s, es) && Unasked(es, name)
    ensures Stale(s, name, since) ==> Stale(Run(s, es), name, since)
    ensures Gone(s, name) ==> Gone(Run(s, es), name)
    decreases es
  {
    hide Inv, Sane, Step, Enabled, Stale, Gone, NotAsking;
    if es != [] {
      assert NotAsking(es[0], name) && forall i | 0 <= i < |es[1..]| :: es[1..][i] == es[i + 1];
      StepKeepsStale(s, es[0], name, since);
      StepKeepsInv(s, es[0]);
      InvIsSane(Step(s, es[0]).0);
      RunKeepsStale(Step(s, es[0]).0, es[1..], name, since);
    }
  }

  /** A purge a pause or more after the last request takes the name out of all searchers. */
  lemma PurgeForgets(s: System, now: Time, delay: Word32, name: PvName, since: Time)
    requires Inv(s) && Sane(s) && Stale(s, name, since) && now >= since + (delay + 1) * SECOND
    ensures Gone(PurgeAll(s, now, delay), name)
  {
    PurgeKeeps(s, now, delay);
    StepKeepsCount(s, Purging(now, delay));
    hide Inv, Sane, AskedFor, PurgeAll, Recent;
    var t := PurgeAll(s, now, delay);
    assert |t.searchers| == |s.searchers| by { PurgeCount(s, now, delay); }
    forall k | 0 <= k < |t.searchers| ensures name !in AskedFor(t.searchers[k]) {
      NotRecent(AskedFor(s.searchers[k]), now, delay, name, since);
    }
  }

  lemma PurgeCount(s: System, now: Time, delay: Word32)
    requires Sane(s)
    ensures |PurgeAll(s, now, delay).searchers| == |s.searchers|
  {
    hide Sane;
  }

  lemma NotRecent(asked: map<PvName, Time>, now: Time, delay: Word32, name: PvName, since: Time)
    requires now >= since + (delay + 1) * SECOND && (name in asked ==> asked[name] <= since)
    ensures name !in Recent(asked, now, delay)
  {
  }

  predicate IsPoll(e: Event) {
    e.Guarding? || e.Ticking? || e.Erasing?
  }

  predicate AllPolls(es: seq<Event>) {
    forall i | 0 <= i < |es| :: IsPoll(es[i])
  }

  lemma {:induction false} SweepOnlyPolls(s: System, i: nat, w: World, ticking: seq<bool>)
    requires Sane(s) && i <= |s.conns|
    ensures AllPolls(SweepEvents(s, i, w, ticking))
    decreases |s.conns| - i
  {
    hide Sane, Possible, Run, Connected, PollEvents, SweepEvents, AllPolls, EraseConn;
    EventsArePolls(if i < |s.conns| then s.conns[i] else ListenerConn(0), w, ticking, i);
    if i == |s.conns| {
      SweepIsOver(s, i, w, ticking);
    } else {
      SweepUnfold(s, i, w, ticking);
      var es := PollEvents(s.conns[i], w, ticking);
      var t := Run(s, es);
      if Connected(t, t.conns[i]) {
        SweepOnlyPolls(t, i + 1, w, ticking);
        PollsAppend(es, SweepEvents(t, i + 1, w, ticking));
      } else {
        EraseIsEvent(t, i);
        ErasedLength(t, i);
        SweepOnlyPolls(EraseConn(t, i), i, w, ticking);
        PollsAppend(es, [Erasing(i)]);
        PollsAppend(es + [Erasing(i)], SweepEvents(EraseConn(t, i), i, w, ticking));
      }
    }
  }

  lemma EventsArePolls(c: Conn, w: World, ticking: seq<bool>, i: nat)
    ensures AllPolls(PollEvents(c, w, ticking)) && AllPolls([Erasing(i)]) && AllPolls([])
  {
  }

  lemma PollsAppend(es: seq<Event>, fs: seq<Event>)
    requires AllPolls(es) && AllPolls(fs)
    ensures AllPolls(es + fs)
  {
    hide IsPoll;
  }

  lemma PollsAskNothing(es: seq<Event>, name: PvName)
    requires AllPolls(es)
    ensures Unasked(es, name)
  {
  }

  /** No client makes a request for the name in this turn, or none that the rules let through. */
  ghost predicate NotRequested(s: System, acl: Acl, log: TurnLog, name: PvName) {
    |log.inputs| <= |s.conns| ==>
      forall ask :: Requested(s.conns[..|log.inputs|], log.inputs, acl, ask) ==> ask.1 != name
  }

  lemma DispatchAsksNothing(conns: seq<Conn>, inputs: seq<Incoming>, acl: Acl, now: Time, name: PvName)
    requires |inputs| <= |conns| && forall ask :: Requested(conns, inputs, acl, ask) ==> ask.1 != name
    ensures Unasked(InEvents(conns, inputs, acl, now), name)
  {
    hide InEvents, InAsks, Requested;
    SearchesAreAsked(conns, inputs, acl, now);
    AsksAreRequests(conns, inputs, acl, now);
    var es, asks := InEvents(conns, inputs, acl, now), InAsks(conns, inputs, acl, now);
    forall i | 0 <= i < |es| ensures NotAsking(es[i], name) {
      if es[i].Search? {
        assert Some(asks[i].value) in asks;
      }
    }
  }

  /** One turn in which nobody asks for the name. */
  lemma TurnForgets(s: System, acl: Acl, log: TurnLog, t: System, name: PvName, since: Time)
    requires Inv(s) && Sane(s) && IsTurn(s, acl, log, t) && NotRequested(s, acl, log, name) && Stale(s, name, since)
    ensures Stale(t, name, since) && (Gone(s, name) ==> Gone(t, name))
    ensures log.purge.Some? && log.world.now >= since + (log.purge.value + 1) * SECOND ==> Gone(t, name)
  {
    hide Inv, Turn, Dispatched, Grown, Tells, Emits, InEvents, SweepEvents, AfterPurge, Sane, Run, Possible, Unasked,
         Stale, Gone, Requested, PurgeAll, Step;
    var w := log.world;
    var m1, m2 := TurnPhases(s, log.inputs, acl, w, log.ticking, log.purge, t, log.sent, log.out);
    var conns := s.conns[..|log.inputs|];
    var received, swept := InEvents(conns, log.inputs, acl, w.now), SweepEvents(m1, 0, w, log.ticking);
    RunsTo(s, received, m1);
    RunsTo(m1, swept, m2);
    DispatchAsksNothing(conns, log.inputs, acl, w.now, name);
    RunKeepsStale(s, received, name, since);
    RunKeepsInv(s, received);
    SweepOnlyPolls(m1, 0, w, log.ticking);
    PollsAskNothing(swept, name);
    RunKeepsStale(m1, swept, name, since);
    RunKeepsInv(m1, swept);
    if log.purge.Some? {
      AfterPurgeIs(m2, log.purge.value, w.now);
      PurgeIsNoSearch(m2, w.now, log.purge.value, name, since);
      if w.now >= since + (log.purge.value + 1) * SECOND {
        PurgeForgets(m2, w.now, log.purge.value, name, since);
      }
    } else {
      NoPurgeIs(m2, w.now);
    }
  }

  lemma PurgeIsNoSearch(s: System, now: Time, delay: Word32, name: PvName, since: Time)
    requires Inv(s) && Sane(s)
    ensures Stale(s, name, since) ==> Stale(PurgeAll(s, now, delay), name, since)
    ensures Gone(s, name) ==> Gone(PurgeAll(s, now, delay), name)
  {
    hide Inv, Sane, Stale, Gone, PurgeAll;
    StepKeepsStale(s, Purging(now, delay), name, since);
  }

  /**
   * A name that nobody has asked for since `since` is out of every searcher after each turn that
   * comes two pauses later.
   */
  lemma {:induction false} UnaskedIsForgotten(states: seq<System>, acl: Acl, turns: seq<TurnLog>, built: seq<Time>,
                                              delay: Word32, lastPurge: Time, k: nat, name: PvName, since: Time)
    requires Turns(states, acl, turns) && Inv(states[0]) && k <= |turns| < |states|
    requires AllClocked(turns, built, delay, lastPurge) && lastPurge <= since && Stale(states[0], name, since)
    requires forall i | 0 <= i < k :: NotRequested(states[i], acl, turns[i], name)
    ensures Stale(states[k], name, since)
    ensures PurgedAt(turns, lastPurge, k) >= since + (delay + 1) * SECOND ==> Gone(states[k], name)
    ensures k > 0 && turns[k - 1].world.now >= since + 2 * ((delay + 1) * SECOND) ==> Gone(states[k], name)
    decreases k
  {
    hide Turns, Inv, IsTurn, Stale, Gone, NotRequested, AllClocked, PurgedAt;
    NoPurgeYet(turns, lastPurge);
    if k > 0 {
      UnaskedIsForgotten(states, acl, turns, built, delay, lastPurge, k - 1, name, since);
      TurnAt(states, acl, turns, k - 1);
      HistoryIsRun(states, acl, turns, k - 1);
      InvIsSane(states[k - 1]);
      ClockedAt(turns, built, delay, lastPurge, k - 1);
      assert NotRequested(states[k - 1], acl, turns[k - 1], name);
      TurnForgets(states[k - 1], acl, turns[k - 1], states[k], name, since);
    }
  }

  // ---------------------------------------------------------------- names that are still wanted

  /** Searcher `k` holds a request for the name that is not older than `since`. */
  ghost predicate Held(s: System, k: nat, name: PvName, since: Time) {
    k < |s.searchers| && name in AskedFor(s.searchers[k]) && AskedFor(s.searchers[k])[name] >= since
  }

  lemma StepKeepsHeld(s: System, e: Event, k: nat, name: PvName, since: Time)
    requires Inv(s) && Enabled(s, e) && Held(s, k, name, since)
    requires !e.Purging? && (e.Search? ==> e.now >= since)
    requires !(e.Reply? && SearchWheel.Resolve(s.searchers[e.searcher], e.id).1 == Some(name))
    ensures Held(Step(s, e).0, k, name, since)
  {
    hide Inv, Sane, AskedFor, SearchWheel.Resolve, SearchWheel.Valid, Step, CachedLive, GuardFails, Recent;
    InvIsSane(s);
    Lockstep.StepActs(s, e, k);
    NotCachedWhileAsked(s, k, name);
  }

  /** A request stays where it is until a reply finds the name. */
  lemma {:induction false} RunKeepsHeld(s: System, es: seq<Event>, k: nat, name: PvName, since: Time, now: Time)
    requires Inv(s) && Sane(s) && Possible(s, es) && Promptness.NoTurning(es) && AllAt(es, now) && now >= since
    requires Held(s, k, name, since) && !Promptness.FoundIn(s, es, name)
    ensures Held(Run(s, es), k, name, since)
    decreases es
  {
    hide Inv, Sane, Held, SearchWheel.Resolve, Step, Enabled;
    if es != [] {
      assert Promptness.TurnsNoWheel(es[0]) && IsAt(es[0], now);
      assert forall i | 0 <= i < |es[1..]| :: es[1..][i] == es[i + 1];
      StepKeepsHeld(s, es[0], k, name, since);
      StepKeepsInv(s, es[0]);
      InvIsSane(Step(s, es[0]).0);
      RunKeepsHeld(Step(s, es[0]).0, es[1..], k, name, since, now);
    }
  }

  lemma {:induction false} PollsKeepHeld(s: System, es: seq<Event>, k: nat, name: PvName, since: Time)
    requires Inv(s) && Sane(s) && Possible(s, es) && AllPolls(es) && Held(s, k, name, since)
    ensures Held(Run(s, es), k, name, since)
    decreases es
  {
    hide Inv, Sane, Held, SearchWheel.Resolve, Step, Enabled;
    if es != [] {
      assert IsPoll(es[0]) && forall i | 0 <= i < |es[1..]| :: es[1..][i] == es[i + 1];
      StepKeepsHeld(s, es[0], k, name, since);
      StepKeepsInv(s, es[0]);
      InvIsSane(Step(s, es[0]).0);
      PollsKeepHeld(Step(s, es[0]).0, es[1..], k, name, since);
    }
  }

  /** A purge keeps exactly the names that were asked for less than a pause ago, with their request times. */
  lemma PurgeSurvivors(s: System, now: Time, delay: Word32, k: nat)
    requires Inv(s) && Sane(s) && k < |s.searchers|
    ensures k < |PurgeAll(s, now, delay).searchers|
    ensures var asked, kept := AskedFor(s.searchers[k]), AskedFor(PurgeAll(s, now, delay).searchers[k]);
            && (forall name :: name in kept <==> name in asked && now < asked[name] + (delay + 1) * SECOND)
            && (forall name | name in kept :: kept[name] == asked[name])
  {
    hide Inv, Sane, AskedFor, PurgeAll, Recent;
    PurgeKeeps(s, now, delay);
    PurgeCount(s, now, delay);
    RecentExactly(AskedFor(s.searchers[k]), now, delay);
  }

  lemma RecentExactly(asked: map<PvName, Time>, now: Time, delay: Word32)
    ensures forall name ::
              name in Recent(asked, now, delay) <==> name in asked && now < asked[name] + (delay + 1) * SECOND
    ensures forall name | name in Recent(asked, now, delay) :: Recent(asked, now, delay)[name] == asked[name]
  {
  }

  lemma PurgeKeepsHeld(s: System, now: Time, delay: Word32, k: nat, name: PvName, since: Time)
    requires Inv(s) && Sane(s) && Held(s, k, name, since) && now < since + (delay + 1) * SECOND
    ensures Held(PurgeAll(s, now, delay), k, name, since)
  {
    PurgeSurvivors(s, now, delay, k);
    hide Inv, Sane, AskedFor, PurgeAll;
  }

  /** A reply for the name is accepted in this turn. */
  ghost predicate FoundInTurn(s: System, acl: Acl, log: TurnLog, name: PvName) {
    && Sane(s) && |log.inputs| <= |s.conns|
    && var es := InEvents(s.conns[..|log.inputs|], log.inputs, acl, log.world.now);
       Possible(s, es) && Promptness.FoundIn(s, es, name)
  }

  lemma TurnKeepsHeld(s: System, acl: Acl, log: TurnLog, t: System, k: nat, name: PvName, since: Time)
    requires Inv(s) && Sane(s) && IsTurn(s, acl, log, t) && Held(s, k, name, since)
    requires !FoundInTurn(s, acl, log, name) && log.world.now >= since
    requires log.purge.Some? ==> log.world.now < since + (log.purge.value + 1) * SECOND
    ensures Held(t, k, name, since)
  {
    hide Inv, Turn, Dispatched, Grown, Tells, Emits, InEvents, SweepEvents, AfterPurge, Sane, Run, Possible, AllAt,
         Held, PurgeAll, AllPolls, Promptness.NoTurning, Promptness.FoundIn;
    var w := log.world;
    var m1, m2 := TurnPhases(s, log.inputs, acl, w, log.ticking, log.purge, t, log.sent, log.out);
    var conns := s.conns[..|log.inputs|];
    var received, swept := InEvents(conns, log.inputs, acl, w.now), SweepEvents(m1, 0, w, log.ticking);
    RunsTo(s, received, m1);
    RunsTo(m1, swept, m2);
    InputsAt(conns, log.inputs, acl, w.now);
    Promptness.InputsTurnNothing(conns, log.inputs, acl, w.now);
    RunKeepsHeld(s, received, k, name, since, w.now);
    RunKeepsInv(s, received);
    SweepOnlyPolls(m1, 0, w, log.ticking);
    PollsKeepHeld(m1, swept, k, name, since);
    RunKeepsInv(m1, swept);
    if log.purge.Some? {
      AfterPurgeIs(m2, log.purge.value, w.now);
      PurgeKeepsHeld(m2, w.now, log.purge.value, k, name, since);
    } else {
      NoPurgeIs(m2, w.now);
    }
  }

  /**
   * A name that a searcher was asked for at `since` or later stays with it through all turns in
   * which no reply finds it, as long as no purge comes a pause or more after `since`.
   */
  lemma {:induction false} RequestIsKept(states: seq<System>, acl: Acl, turns: seq<TurnLog>, built: seq<Time>,
                                         delay: Word32, lastPurge: Time, n: nat, k: nat, name: PvName, since: Time)
    requires Turns(states, acl, turns) && Inv(states[0]) && n <= |turns| < |states|
    requires AllClocked(turns, built, delay, lastPurge) && Held(states[0], k, name, since)
    requires forall i | 0 <= i < n :: !FoundInTurn(states[i], acl, turns[i], name) && turns[i].world.now >= since
    requires PurgedAt(turns, lastPurge, n) < since + (delay + 1) * SECOND
    ensures Held(states[n], k, name, since)
    decreases n
  {
    hide Turns, Inv, IsTurn, Held, FoundInTurn, AllClocked, PurgedAt;
    if n > 0 {
      ClockedAt(turns, built, delay, lastPurge, n - 1);
      PurgedLater(turns, built, delay, lastPurge, n - 1, n);
      RequestIsKept(states, acl, turns, built, delay, lastPurge, n - 1, k, name, since);
      TurnAt(states, acl, turns, n - 1);
      HistoryIsRun(states, acl, turns, n - 1);
      InvIsSane(states[n - 1]);
      TurnKeepsHeld(states[n - 1], acl, turns[n - 1], states[n], k, name, since);
    }
  }

  // ---------------------------------------------------------------- requests

  /**
   * A request that misses leaves in the very same turn from every searcher that was built 99 ms
   * ago or earlier and was not asked for the name before, unless a reply for it has come in
   * behind the request.
   */
  lemma RequestLeaves(states: seq<System>, acl: Acl, turns: seq<TurnLog>, searchers: nat, listeners: nat,
                      configured: seq<Word32>, built: seq<Time>, delay: Word32, lastPurge: Time,
                      n: nat, j: nat, m: System, k: nat)
    requires Turns(states, acl, turns) && n < |turns| < |states| && k < searchers == |built|
    requires |SearchWheel.Fresh(configured).bins| > 0 && states[0] == Start(searchers, listeners, configured)
    requires AllClocked(turns, built, delay, lastPurge) && turns[n].world.now >= built[k] + 99 * MILLISECOND
    requires |turns[n].inputs| <= |states[n].conns| && k < |states[n].searchers|
    requires var log := turns[n];
             var es := InEvents(states[n].conns[..|log.inputs|], log.inputs, acl, log.world.now);
             && j < |es| && Runs(states[n], es[..j], m) && Sane(m) && es[j].Search? && |es[j].name| <= MAX_NAME
             && !CachedLive(m, es[j].name) && es[j].name !in AskedFor(states[n].searchers[k])
    ensures var log := turns[n];
            var es := InEvents(states[n].conns[..|log.inputs|], log.inputs, acl, log.world.now);
            var u := PvSearched(m, es[j].name, es[j].now).0;
            && Possible(u, es[j + 1..])
            && (Promptness.FoundIn(u, es[j + 1..], es[j].name) || Promptness.AsksOut(log.out, k, es[j].name))
  {
    hide Turns, Inv, IsTurn, Sane, Start, InEvents, Runs, AskedFor, CachedLive, PvSearched, Possible,
         Promptness.FoundIn, Promptness.AsksOut, Answers;
    HistoryIsSound(states, acl, turns, searchers, listeners, configured, n);
    Promptness.StaysListed(states, acl, turns, searchers, listeners, configured, n, SearcherConn(k));
    TurnAt(states, acl, turns, n);
    ClockedAt(turns, built, delay, lastPurge, n);
    Promptness.RequestIsSent(states[n], acl, turns[n], states[n + 1], j, m, k);
  }
}
