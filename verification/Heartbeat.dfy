/**
 * The life of an IOC guard as a timed state machine: it connects, sends heartbeats, hears
 * answers, and is dropped when it does not.
 */
module Heartbeat {
  import opened Prelude

  /** `alive` is what isConnected reports: the socket has not been closed, whether or not TCP has connected. */
  datatype Guard = Guard(addr: Addr, alive: bool, connected: bool, initialized: bool,
                         started: Time, lastRequest: Time, lastResponse: Time)

  const HEARTBEAT_INTERVAL: int := 10
  const CONNECT_TIMEOUT: int := 5

  function NewGuard(addr: Addr, now: Time): Guard {
    Guard(addr, true, false, false, now, 0, 0)
  }

  datatype Event =
    | Recv(now: Time, recvd: int)                       // processIncoming and what recv() returned
    | Poll(now: Time, writable: bool, sendOk: bool)     // processOutgoing, what poll() and send() said

  /** What the world sees of a step: the disconnect callback, and an echo request (with or without VERSION). */
  datatype Effect = Effect(dropped: bool, sent: Option<bool>)

  const NOTHING := Effect(false, None)
  const DROPPED := Effect(true, None)

  function Receive(g: Guard, now: Time, recvd: int): (Guard, Effect) {
    if !g.alive then (g, NOTHING)
    else if recvd > 0 then (g.(lastResponse := now, initialized := true), NOTHING)
    else (g.(alive := false), DROPPED)
  }

  function CheckConnection(g: Guard, now: Time, writable: bool): (Guard, bool, Effect) {
    if g.connected then (g, true, NOTHING)
    else if writable then (g.(connected := true, lastResponse := now), true, NOTHING)
    else if Truncate(now - g.started, SECOND) > CONNECT_TIMEOUT then (g.(alive := false), false, DROPPED)
    else (g, false, NOTHING)
  }

  function SendHeartBeat(g: Guard, now: Time, sendOk: bool): (Guard, Effect) {
    if g.lastRequest < g.lastResponse && sendOk
    then (g.(lastRequest := now), Effect(false, Some(!g.initialized)))
    else (g.(alive := false), DROPPED)
  }

  predicate HeartbeatDue(g: Guard, now: Time) {
    Truncate(now - g.lastRequest, SECOND) > HEARTBEAT_INTERVAL
  }

  function PollOnce(g: Guard, now: Time, writable: bool, sendOk: bool): (Guard, Effect) {
    if !g.alive then (g, NOTHING)
    else
      var (g', ok, effect) := CheckConnection(g, now, writable);
      if ok && HeartbeatDue(g', now) then SendHeartBeat(g', now, sendOk) else (g', effect)
  }

  function Step(g: Guard, e: Event): (Guard, Effect) {
    match e
    case Recv(now, recvd) => Receive(g, now, recvd)
    case Poll(now, writable, sendOk) => PollOnce(g, now, writable, sendOk)
  }

  function Run(g: Guard, es: seq<Event>): Guard
    decreases es
  {
    if es == [] then g else Run(Step(g, es[0]).0, es[1..])
  }

  function Effects(g: Guard, es: seq<Event>): (r: seq<Effect>)
    ensures |r| == |es|
    decreases es
  {
    if es == [] then [] else [Step(g, es[0]).1] + Effects(Step(g, es[0]).0, es[1..])
  }

  /** The clock does not run backwards. */
  predicate Monotone(es: seq<Event>, from: Time)
    decreases es
  {
    es == [] || (es[0].now >= from && Monotone(es[1..], es[0].now))
  }

  /** No recorded time lies in the future, and the epoch lies before the start. */
  predicate Timely(g: Guard, now: Time) {
    && g.started <= now && g.lastRequest <= now && g.lastResponse <= now
    && (!g.connected ==> g.lastRequest < g.started)
  }

  // ---------------------------------------------------------------- death is final, and announced once

  function Drops(effects: seq<Effect>): nat {
    if effects == [] then 0 else (if effects[0].dropped then 1 else 0) + Drops(effects[1..])
  }

  /** The callback fires exactly when the guard dies, so at most once; a dead guard never lives again. */
  lemma {:induction false} DropsOnce(g: Guard, es: seq<Event>)
    ensures Drops(Effects(g, es)) == if g.alive && !Run(g, es).alive then 1 else 0
    ensures !g.alive ==> Run(g, es) == g
    decreases es
  {
    if es != [] {
      DropsOnce(Step(g, es[0]).0, es[1..]);
      assert Effects(g, es)[1..] == Effects(Step(g, es[0]).0, es[1..]);
    }
  }

  lemma {:induction false} RunSplit(g: Guard, es: seq<Event>, i: nat)
    requires i <= |es|
    ensures Run(g, es) == Run(Run(g, es[..i]), es[i..])
    ensures i < |es| ==> Effects(g, es)[i] == Step(Run(g, es[..i]), es[i]).1
    decreases es
  {
    if i == 0 {
      assert es[0..] == es && es[..0] == [];
    } else {
      RunSplit(Step(g, es[0]).0, es[1..], i - 1);
      assert es[1..][i - 1..] == es[i..] && es[..i][1..] == es[1..][..i - 1] && es[..i][0] == es[0];
    }
  }

  lemma RunSnoc(g: Guard, es: seq<Event>, e: Event)
    ensures Run(g, es + [e]) == Step(Run(g, es), e).0
  {
    RunSplit(g, es + [e], |es|);
    hide Step;
    assert (es + [e])[..|es|] == es && (es + [e])[|es|..] == [e] && [e][1..] == [];
  }

  lemma {:induction false} MonotoneSplit(es: seq<Event>, from: Time, i: nat)
    requires Monotone(es, from) && i < |es|
    ensures es[i].now >= from && Monotone(es[i + 1..], es[i].now) && Monotone(es[..i], from)
    ensures forall j | 0 <= j < i :: es[j].now <= es[i].now
    decreases es
  {
    if i > 0 {
      MonotoneSplit(es[1..], es[0].now, i - 1);
      assert es[1..][i..] == es[i + 1..] && es[..i][1..] == es[1..][..i - 1];
      forall j | 0 <= j < i ensures es[j].now <= es[i].now {
        if j > 0 { assert es[j] == es[1..][j - 1]; }
      }
    }
  }

  lemma TimelyStep(g: Guard, e: Event, from: Time)
    requires Timely(g, from) && e.now >= from
    ensures Timely(Step(g, e).0, e.now)
  {
  }

  lemma {:induction false} TimelyRun(g: Guard, es: seq<Event>, from: Time, until: Time)
    requires Timely(g, from) && Monotone(es, from) && from <= until
    requires forall j | 0 <= j < |es| :: es[j].now <= until
    ensures Timely(Run(g, es), until)
    decreases es
  {
    if es != [] {
      TimelyStep(g, es[0], from);
      TimelyRun(Step(g, es[0]).0, es[1..], es[0].now, until);
    }
  }

  // ---------------------------------------------------------------- VERSION goes out until the IOC is heard

  predicate Heard(e: Event) {
    e.Recv? && e.recvd > 0
  }

  lemma {:induction false} HeardIsRemembered(g: Guard, es: seq<Event>)
    requires Run(g, es).alive
    ensures Run(g, es).initialized <==> g.initialized || exists k | 0 <= k < |es| :: Heard(es[k])
    decreases es
  {
    if es != [] {
      var g' := Step(g, es[0]).0;
      HeardIsRemembered(g', es[1..]);
      DropsOnce(g', es[1..]);
      assert g'.initialized <==> g.initialized || Heard(es[0]);
      if exists k | 0 <= k < |es| :: Heard(es[k]) {
        var k :| 0 <= k < |es| && Heard(es[k]);
        assert k > 0 ==> Heard(es[1..][k - 1]);
      }
      assert forall k | 0 <= k < |es[1..]| :: es[1..][k] == es[k + 1];
    }
  }

  /** A new guard's heartbeat carries VERSION if and only if nothing has been heard from the IOC before. */
  lemma VersionUntilHeard(addr: Addr, start: Time, es: seq<Event>, i: nat)
    requires i < |es| && Effects(NewGuard(addr, start), es)[i].sent.Some?
    ensures Effects(NewGuard(addr, start), es)[i].sent.value <==> forall k | 0 <= k < i :: !Heard(es[k])
  {
    hide Step, Run, Effects, Heard;
    var g := NewGuard(addr, start);
    RunSplit(g, es, i);
    BeatFlag(Run(g, es[..i]), es[i]);
    HeardIsRemembered(g, es[..i]);
    assert forall k | 0 <= k < i :: es[..i][k] == es[k];
  }

  lemma BeatFlag(g: Guard, e: Event)
    requires Step(g, e).1.sent.Some?
    ensures g.alive && Step(g, e).1.sent.value == !g.initialized
  {
  }

  // ---------------------------------------------------------------- spacing

  predicate IsAnswer(e: Event, after: Time) {
    e.Recv? && e.recvd > 0 && e.now > after
  }

  lemma {:induction false} LastRequestGrows(g: Guard, es: seq<Event>, from: Time)
    requires Timely(g, from) && Monotone(es, from)
    ensures Run(g, es).lastRequest >= g.lastRequest
    ensures g.connected ==> Run(g, es).connected
    decreases es
  {
    if es != [] {
      TimelyStep(g, es[0], from);
      LastRequestGrows(Step(g, es[0]).0, es[1..], es[0].now);
    }
  }

  /** A guard with an unanswered request sends no other before it is answered. */
  lemma {:induction false} BeatNeedsAnswer(g: Guard, es: seq<Event>, e: Event)
    requires g.connected && g.lastResponse <= g.lastRequest
    requires Step(Run(g, es), e).1.sent.Some?
    ensures exists k | 0 <= k < |es| :: IsAnswer(es[k], g.lastRequest)
    decreases es
  {
    if es != [] && !IsAnswer(es[0], g.lastRequest) {
      if Step(g, es[0]).0.alive {
        BeatNeedsAnswer(Step(g, es[0]).0, es[1..], e);
        var k :| 0 <= k < |es[1..]| && IsAnswer(es[1..][k], g.lastRequest);
        assert es[k + 1] == es[1..][k];
      } else {
        DropsOnce(Step(g, es[0]).0, es[1..]);
      }
    }
  }

  lemma RunCons(g: Guard, e: Event, es: seq<Event>)
    ensures Run(g, [e] + es) == Run(Step(g, e).0, es)
  {
    hide Step;
    assert ([e] + es)[1..] == es;
  }

  /** The run from event `i + 1` to `j`, cut out of the whole. */
  lemma Between(g: Guard, es: seq<Event>, from: Time, i: nat, j: nat)
    requires Timely(g, from) && Monotone(es, from) && i < j < |es|
    ensures Timely(Run(g, es[..i]), es[i].now)
    ensures Monotone(es[i + 1..j], es[i].now)
    ensures Run(g, es[..j]) == Run(Step(Run(g, es[..i]), es[i]).0, es[i + 1..j])
  {
    hide Step, Timely, Monotone, Run, Effects;
    MonotoneSplit(es, from, i);
    TimelyRun(g, es[..i], from, es[i].now);
    RunSplit(g, es[..j], i);
    assert es[..j][..i] == es[..i] && es[..j][i..] == [es[i]] + es[i + 1..j];
    RunCons(Run(g, es[..i]), es[i], es[i + 1..j]);
    MonotoneSplit(es[i + 1..], es[i].now, j - i - 1);
    assert es[i + 1..][..j - i - 1] == es[i + 1..j];
  }

  lemma BeatEffect(g: Guard, e: Event, now: Time)
    requires Timely(g, now) && e.now >= now && Step(g, e).1.sent.Some?
    ensures var g' := Step(g, e).0;
            && g'.connected && g'.lastRequest == e.now && g'.lastResponse <= g'.lastRequest
            && e.now - g.lastRequest >= 11 * SECOND
  {
  }

  /** Two heartbeats are at least 11 seconds apart and have an answer to the first between them. */
  lemma HeartbeatSpacing(g: Guard, es: seq<Event>, from: Time, i: nat, j: nat)
    requires Timely(g, from) && Monotone(es, from) && i < j < |es|
    requires Effects(g, es)[i].sent.Some? && Effects(g, es)[j].sent.Some?
    ensures es[j].now - es[i].now >= 11 * SECOND
    ensures exists k | i < k < j :: IsAnswer(es[k], es[i].now)
  {
    hide Run, Effects, Step, Monotone, Timely, IsAnswer;
    RunSplit(g, es, i);
    RunSplit(g, es, j);
    Between(g, es, from, i, j);
    var before := Run(g, es[..i]);
    BeatEffect(before, es[i], es[i].now);
    var sent, between := Step(before, es[i]).0, es[i + 1..j];
    TimelyStep(before, es[i], es[i].now);
    BeatNeedsAnswer(sent, between, es[j]);
    var k :| 0 <= k < |between| && IsAnswer(between[k], sent.lastRequest);
    assert es[i + 1 + k] == between[k];
    LastRequestGrows(sent, between, es[i].now);
    TimelyRun(g, es[..j], from, es[j].now) by {
      MonotoneSplit(es, from, j);
    }
    BeatEffect(Run(g, es[..j]), es[j], es[j].now);
  }

  // ---------------------------------------------------------------- who is dropped

  /**
   * What the world must do to keep a guard: due requests can be sent, every received chunk
   * is data, the connection comes up within the timeout, and each request on the wire is
   * answered, strictly later, before a poll that comes 11 seconds or more after it.
   */
  predicate Responsive(g: Guard, es: seq<Event>, pending: Option<Time>)
    decreases es
  {
    es == [] ||
    var (g', effect) := Step(g, es[0]);
    match es[0]
    case Recv(now, recvd) =>
      recvd > 0 && Responsive(g', es[1..], if pending.Some? && now > pending.value then None else pending)
    case Poll(now, writable, sendOk) =>
      && (g.connected || writable || Truncate(now - g.started, SECOND) <= CONNECT_TIMEOUT)
      && (pending.Some? ==> Truncate(now - pending.value, SECOND) <= HEARTBEAT_INTERVAL)
      && ((g.connected || writable) && pending.None? && HeartbeatDue(g, now) ==> sendOk)
      && Responsive(g', es[1..], if effect.sent.Some? then Some(now) else pending)
  }

  /** The request that the guard has sent and not yet seen answered. */
  predicate Awaits(g: Guard, pending: Option<Time>) {
    if g.connected then pending == (if g.lastRequest < g.lastResponse then None else Some(g.lastRequest))
    else pending == None
  }

  /** A guard is dropped if and only if the world fails it: no responsive IOC is ever dropped. */
  lemma {:induction false} KeptIffResponsive(g: Guard, es: seq<Event>, from: Time, pending: Option<Time>)
    requires g.alive && Timely(g, from) && Monotone(es, from) && Awaits(g, pending)
    ensures Run(g, es).alive <==> Responsive(g, es, pending)
    decreases es
  {
    if es != [] {
      var (g', effect) := Step(g, es[0]);
      TimelyStep(g, es[0], from);
      if g'.alive {
        var pending' := match es[0]
          case Recv(now, _) => (if pending.Some? && now > pending.value then None else pending)
          case Poll(now, _, _) => (if effect.sent.Some? then Some(now) else pending);
        KeptIffResponsive(g', es[1..], es[0].now, pending');
      } else {
        DropsOnce(g', es[1..]);
      }
    }
  }

  // ---------------------------------------------------------------- the same, on what can be observed

  /** The connection has come up before event `j`. */
  predicate UpBy(es: seq<Event>, j: nat)
    requires j <= |es|
  {
    exists k | 0 <= k < j :: es[k].Poll? && es[k].writable
  }

  /** The last heartbeat before event `j`. */
  function LastBeat(effects: seq<Effect>, j: nat): (i: Option<nat>)
    requires j <= |effects|
    ensures i.Some? ==> i.value < j && effects[i.value].sent.Some?
  {
    if j == 0 then None else if effects[j - 1].sent.Some? then Some(j - 1) else LastBeat(effects, j - 1)
  }

  /** Before event `j` the last heartbeat, if there was one, has been answered, strictly later than it was sent. */
  predicate AnsweredBy(es: seq<Event>, effects: seq<Effect>, j: nat)
    requires j <= |es| == |effects|
  {
    match LastBeat(effects, j)
    case None => true
    case Some(i) => exists k | i < k < j :: IsAnswer(es[k], es[i].now)
  }

  /** When the last heartbeat before event `j` was sent; the epoch if there was none. */
  function LastSent(es: seq<Event>, effects: seq<Effect>, j: nat): Time
    requires j <= |es| == |effects|
  {
    match LastBeat(effects, j) case None => 0 case Some(i) => es[i].now
  }

  /**
   * Nothing goes wrong at event `j`: what is received is data; a poll finds the connection up, or
   * the connect younger than 6 seconds; and 11 seconds after a heartbeat, that heartbeat has
   * been answered and the next can be sent.
   */
  predicate GoesWell(start: Time, es: seq<Event>, effects: seq<Effect>, j: nat)
    requires j < |es| == |effects|
  {
    match es[j]
    case Recv(_, recvd) => recvd > 0
    case Poll(now, _, sendOk) =>
      if !UpBy(es, j + 1) then now < start + 6 * SECOND
      else now < LastSent(es, effects, j) + 11 * SECOND || (AnsweredBy(es, effects, j) && sendOk)
  }

  /** The fields of a living guard, in terms of what has been observed before event `j`. */
  ghost predicate Reflects(g: Guard, start: Time, es: seq<Event>, effects: seq<Effect>, j: nat)
    requires j <= |es| == |effects|
  {
    && g.alive && g.started == start && (g.connected <==> UpBy(es, j))
    && g.lastRequest == LastSent(es, effects, j)
    && (g.connected ==> (g.lastRequest < g.lastResponse <==> AnsweredBy(es, effects, j)))
    && (!g.connected ==> LastBeat(effects, j).None?)
  }

  /** One event more. */
  lemma ObservedStep(es: seq<Event>, effects: seq<Effect>, j: nat)
    requires j < |es| == |effects|
    ensures UpBy(es, j + 1) <==> UpBy(es, j) || (es[j].Poll? && es[j].writable)
    ensures effects[j].sent.Some? ==>
              LastBeat(effects, j + 1) == Some(j) && LastSent(es, effects, j + 1) == es[j].now
                  && !AnsweredBy(es, effects, j + 1)
    ensures effects[j].sent.None? ==>
              && LastBeat(effects, j + 1) == LastBeat(effects, j)
                 && LastSent(es, effects, j + 1) == LastSent(es, effects, j)
              && (AnsweredBy(es, effects, j + 1) <==>
                    AnsweredBy(es, effects, j) || IsAnswer(es[j], LastSent(es, effects, j)))
  {
  }

  /** A guard that reflects what has been observed survives an event exactly if nothing goes wrong. */
  lemma ReflectsStep(g: Guard, start: Time, es: seq<Event>, effects: seq<Effect>, j: nat, from: Time)
    requires j < |es| == |effects| && Reflects(g, start, es, effects, j) && effects[j] == Step(g, es[j]).1
    requires Timely(g, from) && 0 < start <= from <= es[j].now
    ensures Step(g, es[j]).0.alive <==> GoesWell(start, es, effects, j)
    ensures Step(g, es[j]).0.alive ==> Reflects(Step(g, es[j]).0, start, es, effects, j + 1)
  {
    ObservedStep(es, effects, j);
    hide UpBy, LastBeat, AnsweredBy, LastSent;
  }

  lemma {:induction false} AliveReflects(addr: Addr, start: Time, es: seq<Event>, j: nat)
    requires 0 < start && Monotone(es, start) && j <= |es|
    ensures var g, effects := NewGuard(addr, start), Effects(NewGuard(addr, start), es);
            && (Run(g, es[..j]).alive ==> Reflects(Run(g, es[..j]), start, es, effects, j))
            && (Run(g, es[..j]).alive <==> forall i | 0 <= i < j :: GoesWell(start, es, effects, i))
    decreases j
  {
    var g, effects := NewGuard(addr, start), Effects(NewGuard(addr, start), es);
    if j > 0 {
      AliveReflects(addr, start, es, j - 1);
      RunSplit(g, es, j - 1);
      assert es[..j] == es[..j - 1] + [es[j - 1]];
      RunSnoc(g, es[..j - 1], es[j - 1]);
      MonotoneSplit(es, start, j - 1);
      TimelyRun(g, es[..j - 1], start, es[j - 1].now);
      var before := Run(g, es[..j - 1]);
      hide Run, Effects, Step, Reflects, GoesWell, Timely, Monotone;
      if before.alive {
        ReflectsStep(before, start, es, effects, j - 1, es[j - 1].now);
      } else {
        DeadStep(before, es[j - 1]);
      }
    } else {
      assert es[..0] == [];
    }
  }

  lemma DeadStep(g: Guard, e: Event)
    requires !g.alive
    ensures Step(g, e).0 == g
  {
  }

  /**
   * A guard lives exactly as long as nothing goes wrong that can be seen from outside: no IOC
   * is dropped that answers each heartbeat in time, and none is kept that does not.
   */
  lemma KeptIffWell(addr: Addr, start: Time, es: seq<Event>)
    requires 0 < start && Monotone(es, start)
    ensures Run(NewGuard(addr, start), es).alive <==>
            forall j | 0 <= j < |es| :: GoesWell(start, es, Effects(NewGuard(addr, start), es), j)
  {
    AliveReflects(addr, start, es, |es|);
    assert es[..|es|] == es;
  }

  // ---------------------------------------------------------------- detection bounds

  /** Nothing is received, and the reactor polls at least every `d`. */
  predicate SilentPolls(es: seq<Event>, last: Time, d: int)
    decreases es
  {
    es == [] || (es[0].Poll? && last <= es[0].now <= last + d && SilentPolls(es[1..], es[0].now, d))
  }

  function EndTime(es: seq<Event>, from: Time): Time {
    if es == [] then from else es[|es| - 1].now
  }

  /** When the guard died in this run. */
  function DroppedAt(g: Guard, es: seq<Event>): Option<Time>
    decreases es
  {
    if es == [] then None
    else if Step(g, es[0]).1.dropped then Some(es[0].now)
    else DroppedAt(Step(g, es[0]).0, es[1..])
  }

  predicate DroppedBefore(g: Guard, es: seq<Event>, bound: Time) {
    !Run(g, es).alive && DroppedAt(g, es).Some? && DroppedAt(g, es).value < bound
  }

  lemma {:induction false} UnansweredIsDropped(g: Guard, es: seq<Event>, last: Time, d: int)
    requires g.alive && g.connected && g.lastResponse <= g.lastRequest
    requires SilentPolls(es, last, d) && last < g.lastRequest + 11 * SECOND
    requires EndTime(es, last) >= g.lastRequest + 11 * SECOND
    ensures DroppedBefore(g, es, g.lastRequest + 11 * SECOND + d)
    decreases es
  {
    var g' := Step(g, es[0]).0;
    if g'.alive {
      assert EndTime(es, last) == EndTime(es[1..], es[0].now);
      UnansweredIsDropped(g', es[1..], es[0].now, d);
    } else {
      DropsOnce(g', es[1..]);
    }
  }

  /**
   * A connected IOC that falls silent after time `last` is dropped by the first poll that
   * comes 22 seconds and `d` after it, and before 22 seconds and 2d are over.
   */
  lemma {:induction false} SilentIocIsDropped(g: Guard, es: seq<Event>, heard: Time, last: Time, d: int)
    requires g.alive && g.connected && g.lastResponse <= heard && g.lastRequest <= heard
    requires d >= 0 && heard <= last < heard + 11 * SECOND
    requires SilentPolls(es, last, d) && EndTime(es, last) >= heard + 22 * SECOND + d
    ensures DroppedBefore(g, es, heard + 22 * SECOND + 2 * d)
    decreases es
  {
    var (g', effect) := Step(g, es[0]);
    assert EndTime(es, last) == EndTime(es[1..], es[0].now);
    if !g'.alive {
      DropsOnce(g', es[1..]);
    } else if effect.sent.Some? {
      UnansweredIsDropped(g', es[1..], es[0].now, d);
    } else {
      SilentIocIsDropped(g', es[1..], heard, es[0].now, d);
    }
  }

  predicate NeverWritable(es: seq<Event>) {
    forall i | 0 <= i < |es| :: es[i].Poll? ==> !es[i].writable
  }

  /** A connection that never becomes writable is given up within 6 seconds and `d` of its start. */
  lemma {:induction false} DeadConnectIsDropped(g: Guard, es: seq<Event>, last: Time, d: int)
    requires g.alive && !g.connected && g.started <= last < g.started + 6 * SECOND
    requires SilentPolls(es, last, d) && NeverWritable(es) && EndTime(es, last) >= g.started + 6 * SECOND
    ensures DroppedBefore(g, es, g.started + 6 * SECOND + d)
    decreases es
  {
    var g' := Step(g, es[0]).0;
    assert es[0].Poll? && !es[0].writable;
    if g'.alive {
      assert EndTime(es, last) == EndTime(es[1..], es[0].now);
      assert forall i | 0 <= i < |es[1..]| :: es[1..][i] == es[i + 1];
      DeadConnectIsDropped(g', es[1..], es[0].now, d);
    } else {
      DropsOnce(g', es[1..]);
    }
  }

  lemma {:induction false} ConnectingDies(g: Guard, es: seq<Event>, heard: Time, last: Time, d: int)
    requires g.alive && !g.connected && g.started <= heard <= last < heard + 6 * SECOND && Timely(g, last)
    requires d >= 0 && SilentPolls(es, last, d) && EndTime(es, last) >= heard + 28 * SECOND + 2 * d
    ensures !Run(g, es).alive
    decreases es
  {
    var g' := Step(g, es[0]).0;
    assert EndTime(es, last) == EndTime(es[1..], es[0].now);
    TimelyStep(g, es[0], last);
    if !g'.alive {
      DropsOnce(g', es[1..]);
    } else if g'.connected {
      SilentIocIsDropped(g', es[1..], es[0].now, es[0].now, d);
    } else {
      ConnectingDies(g', es[1..], heard, es[0].now, d);
    }
  }

  /** How long after time `heard` a guard that hears nothing is sure to be dropped, with polls every `d`. */
  function Patience(g: Guard, d: int): int {
    if g.connected then 22 * SECOND + d else 28 * SECOND + 2 * d
  }

  /** Whatever state it is in, a guard that hears nothing more is dropped. */
  lemma SilentGuardDies(g: Guard, es: seq<Event>, heard: Time, d: int)
    requires d >= 0 && Timely(g, heard) && SilentPolls(es, heard, d) && EndTime(es, heard) >= heard + Patience(g, d)
    ensures !Run(g, es).alive
  {
    if !g.alive {
      DropsOnce(g, es);
    } else if g.connected {
      SilentIocIsDropped(g, es, heard, heard, d);
    } else {
      ConnectingDies(g, es, heard, heard, d);
    }
  }
}
