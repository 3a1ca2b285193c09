/**
 * The name server as a value: searchers, guards, the IOC table, the PV cache and the
 * reactor's connection list. Guards are shared, so the table and the cache hold handles.
 */
module NameServer {
  import opened Prelude
  import opened Framing
  import opened ChannelAccess
  import opened SearchWheel
  import opened Heartbeat

  datatype CachedPv = CachedPv(guard: nat, response: Bytes)

  datatype Conn = ListenerConn(index: nat) | SearcherConn(index: nat) | GuardConn(index: nat)

  datatype System = System(
    searchers: seq<Wheel>,
    guards: seq<Guard>,            // every guard ever created, dead ones too
    iocs: map<Addr, nat>,
    pvs: map<PvName, CachedPv>,
    conns: seq<Conn>)

  predicate Sane(s: System) {
    && (forall i | 0 <= i < |s.searchers| :: SearchWheel.Valid(s.searchers[i]))
    && (forall a | a in s.iocs :: s.iocs[a] < |s.guards|)
    && (forall name | name in s.pvs :: s.pvs[name].guard < |s.guards|)
    && (forall i | 0 <= i < |s.conns| :: s.conns[i].SearcherConn? ==> s.conns[i].index < |s.searchers|)
    && (forall i | 0 <= i < |s.conns| :: s.conns[i].GuardConn? ==> s.conns[i].index < |s.guards|)
  }

  // ---------------------------------------------------------------- the dispatcher's callbacks

  function Disconnect(s: System, addr: Addr): System {
    s.(iocs := s.iocs - {addr})
  }

  function RemoveFromAll(ws: seq<Wheel>, name: PvName): (r: seq<Wheel>)
    requires forall i | 0 <= i < |ws| :: SearchWheel.Valid(ws[i])
    ensures |r| == |ws| && forall i | 0 <= i < |ws| :: SearchWheel.Valid(r[i]) && r[i] == Remove(ws[i], name)
  {
    seq(|ws|, i requires 0 <= i < |ws| => Remove(ws[i], name))
  }

  function AddToAll(ws: seq<Wheel>, name: PvName, now: Time): (r: seq<Wheel>)
    requires |name| <= MAX_NAME && forall i | 0 <= i < |ws| :: SearchWheel.Valid(ws[i])
    ensures |r| == |ws| && forall i | 0 <= i < |ws| :: SearchWheel.Valid(r[i]) && r[i] == Add(ws[i], name, now).0
  {
    seq(|ws|, i requires 0 <= i < |ws| => Add(ws[i], name, now).0)
  }

  /** The guard for an address: the one in the table, or a new one if it can be created. */
  function GuardFor(s: System, addr: Addr, created: bool, now: Time): (System, Option<nat>) {
    if addr in s.iocs then (s, Some(s.iocs[addr]))
    else if !created then (s, None)
    else
      var h := |s.guards|;
      (s.(guards := s.guards + [NewGuard(addr, now)], iocs := s.iocs[addr := h], conns := s.conns + [GuardConn(h)]),
       Some(h))
  }

  function PvFound(s: System, name: PvName, addr: Addr, response: Bytes, created: bool, now: Time): (r: System)
    requires Sane(s)
    ensures Sane(r)
  {
    var (s', guard) := GuardFor(s, addr, created, now);
    match guard
    case None => s
    case Some(h) => s'.(searchers := RemoveFromAll(s.searchers, name), pvs := s.pvs[name := CachedPv(h, response)])
  }

  predicate CachedLive(s: System, name: PvName)
    requires Sane(s)
  {
    name in s.pvs && s.guards[s.pvs[name].guard].alive
  }

  function PvSearched(s: System, name: PvName, now: Time): (r: (System, Bytes))
    requires Sane(s) && |name| <= MAX_NAME
    ensures Sane(r.0)
  {
    if CachedLive(s, name) then (s, s.pvs[name].response)
    else (s.(pvs := s.pvs - {name}, searchers := AddToAll(s.searchers, name, now)), [])
  }

  // ---------------------------------------------------------------- single events

  /** Searcher `i` gets a reply to channel id `id`, already patched, from the IOC at `addr`. */
  function ReplyArrived(s: System, i: nat, id: Word32, addr: Addr, response: Bytes, created: bool, now: Time)
    : (r: (System, Option<PvName>))
    requires Sane(s) && i < |s.searchers|
    ensures Sane(r.0)
  {
    var (w, found) := Resolve(s.searchers[i], id);
    match found
    case None => (s, None)
    case Some(name) => (PvFound(s.(searchers := s.searchers[i := w]), name, addr, response, created, now), found)
  }

  function GuardStep(s: System, h: nat, e: Heartbeat.Event): (r: System)
    requires Sane(s) && h < |s.guards|
    ensures Sane(r)
  {
    var (g, effect) := Heartbeat.Step(s.guards[h], e);
    var s' := s.(guards := s.guards[h := g]);
    if effect.dropped then Disconnect(s', g.addr) else s'
  }

  function SearcherTick(s: System, i: nat): (r: (System, seq<(Word32, PvName)>))
    requires Sane(s) && i < |s.searchers|
    ensures Sane(r.0)
  {
    TickValid(s.searchers[i]);
    var (w, pvs) := Tick(s.searchers[i]);
    (s.(searchers := s.searchers[i := w]), pvs)
  }

  function PurgeAll(s: System, now: Time, maxtime: Word32): (r: System)
    requires Sane(s)
    ensures Sane(r)
  {
    assert forall i | 0 <= i < |s.searchers| :: SearchWheel.Valid(Purge(s.searchers[i], now, maxtime).0) by {
      forall i | 0 <= i < |s.searchers| ensures SearchWheel.Valid(Purge(s.searchers[i], now, maxtime).0) {
        PurgeValid(s.searchers[i], now, maxtime);
      }
    }
    s.(searchers := seq(|s.searchers|, i requires 0 <= i < |s.searchers| => Purge(s.searchers[i], now, maxtime).0))
  }

  /** Only guards are ever closed. */
  predicate Connected(s: System, c: Conn) {
    c.GuardConn? ==> c.index < |s.guards| && s.guards[c.index].alive
  }

  function EraseConn(s: System, i: nat): System
    requires i < |s.conns|
  {
    s.(conns := s.conns[..i] + s.conns[i + 1..])
  }

  datatype Event =
    | Search(name: PvName, now: Time)
    | Reply(searcher: nat, id: Word32, addr: Addr, response: Bytes, created: bool, now: Time)
    | Guarding(handle: nat, beat: Heartbeat.Event)
    | Ticking(searcher: nat)
    | Purging(now: Time, maxtime: Word32)
    | Erasing(conn: nat)   // a closed connection leaves the list

  predicate Enabled(s: System, e: Event) {
    match e
    case Search(name, _) => |name| <= MAX_NAME
    case Reply(i, _, _, _, _, _) => i < |s.searchers|
    case Guarding(h, _) => h < |s.guards|
    case Ticking(i) => i < |s.searchers|
    case Purging(_, _) => true
    case Erasing(i) => i < |s.conns| && !Connected(s, s.conns[i])
  }

  /** What an observer sees of a step. */
  datatype Seen =
    | Answered(name: PvName, response: Bytes)
    | Found(name: PvName, addr: Addr, response: Bytes)
    | Disconnected(addr: Addr)
    | Queried(searcher: nat, pvs: seq<(Word32, PvName)>)  // search requests, with their channel ids
    | Beat(guard: nat, version: bool)                     // an echo request, with or without VERSION
    | Other

  function Step(s: System, e: Event): (r: (System, Seen))
    requires Sane(s) && Enabled(s, e)
    ensures Sane(r.0)
  {
    match e
    case Search(name, now) => var (s', rsp) := PvSearched(s, name, now); (s', Answered(name, rsp))
    case Reply(i, id, addr, response, created, now) =>
      var (s', found) := ReplyArrived(s, i, id, addr, response, created, now);
      (s', if found.Some? && (addr in s.iocs || created) then Found(found.value, addr, response) else Other)
    case Guarding(h, beat) =>
      var effect := Heartbeat.Step(s.guards[h], beat).1;
      (GuardStep(s, h, beat),
       if effect.dropped then Disconnected(s.guards[h].addr)
       else if effect.sent.Some? then Beat(h, effect.sent.value) else Other)
    case Ticking(i) => var (s', pvs) := SearcherTick(s, i); (s', Queried(i, pvs))
    case Purging(now, maxtime) => (PurgeAll(s, now, maxtime), Other)
    case Erasing(i) => (EraseConn(s, i), Other)
  }

  /** Every event of the run can happen when its turn comes. */
  predicate Possible(s: System, es: seq<Event>)
    requires Sane(s)
    decreases es
  {
    es == [] || (Enabled(s, es[0]) && Possible(Step(s, es[0]).0, es[1..]))
  }

  function Run(s: System, es: seq<Event>): (r: System)
    requires Sane(s) && Possible(s, es)
    ensures Sane(r)
    decreases es
  {
    if es == [] then s else Run(Step(s, es[0]).0, es[1..])
  }

  function Trace(s: System, es: seq<Event>): (r: seq<Seen>)
    requires Sane(s) && Possible(s, es)
    ensures |r| == |es|
    decreases es
  {
    if es == [] then [] else [Step(s, es[0]).1] + Trace(Step(s, es[0]).0, es[1..])
  }

  /** A server that has just started: nothing cached, nothing searched. */
  function Start(searchers: nat, listeners: nat, configured: seq<Word32>): System {
    System(seq(searchers, _ => Fresh(configured)), [], map[], map[],
           seq(listeners, i requires 0 <= i => ListenerConn(i)) + seq(searchers, i requires 0 <= i => SearcherConn(i)))
  }
}
