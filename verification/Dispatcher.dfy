/**
 * The dispatcher object and its reactor loop. Callbacks are direct calls: a found PV calls
 * CaPvFound, a guard that fires calls IocDisconnected.
 */
module Dispatchers {
  import opened Prelude
  import opened Framing
  import opened ChannelAccess
  import opened NameServer
  import opened ServerLaws
  import opened CacheLaws
  import opened Reactor
  import opened Traces
  import opened AccessControl
  import opened IocGuards
  import opened Searchers
  import SearchWheel
  import Heartbeat
  import CodecLaws
  import History
  import Clockwork

  class Listener {
    const acl: Acl
    const handle: nat

    constructor (handle: nat, acl: Acl)
      ensures this.handle == handle && this.acl == acl
    {
      this.handle, this.acl := handle, acl;
    }
  }

  datatype PvInfo = PvInfo(ioc: IocGuard, response: Bytes)
  datatype Connection = ListenerAt(listener: Listener) | SearcherAt(searcher: Searcher) | GuardAt(guard: IocGuard)

  class Dispatcher {
    const purgeDelay: Word32
    const acl: Acl
    const caSearchers: seq<Searcher>
    var lastPurge: Time
    var iocs: map<Addr, IocGuard>
    var connectedPvs: map<PvName, PvInfo>
    var connections: seq<Connection>
    var nextHandle: nat              // the identity of the next guard object
    ghost var guards: seq<IocGuard>  // every guard ever created, by handle
    ghost var repr: set<IocGuard>    // the same objects

    ghost predicate Known(g: IocGuard)
      reads this
    {
      g.handle < |guards| && guards[g.handle] == g
    }

    ghost predicate InList(c: Connection)
      reads this
    {
      match c
      case ListenerAt(l) => l.acl == acl
      case SearcherAt(s) => s.handle < |caSearchers| && caSearchers[s.handle] == s
      case GuardAt(g) => Known(g)
    }

    ghost predicate Valid()
      reads this, caSearchers
    {
      && (forall i | 0 <= i < |caSearchers| :: caSearchers[i].handle == i && caSearchers[i].Valid())
      && |guards| == nextHandle && (forall h | 0 <= h < |guards| :: guards[h].handle == h && guards[h] in repr)
      && (forall a | a in iocs :: Known(iocs[a]))
      && (forall name | name in connectedPvs :: Known(connectedPvs[name].ioc))
      && (forall i | 0 <= i < |connections| :: InList(connections[i]))
    }

    ghost function Wheels(): (ws: seq<SearchWheel.Wheel>)
      reads caSearchers
    {
      seq(|caSearchers|, i requires 0 <= i < |caSearchers| reads caSearchers => caSearchers[i].Model())
    }

    ghost function Guards(): seq<Heartbeat.Guard>
      reads this, guards
    {
      seq(|guards|, h requires 0 <= h < |guards| reads this, guards => guards[h].Model())
    }

    ghost function IocTable(): map<Addr, nat>
      reads this
    {
      map a | a in iocs :: iocs[a].handle
    }

    ghost function PvTable(): map<PvName, CachedPv>
      reads this
    {
      map name | name in connectedPvs :: CachedPv(connectedPvs[name].ioc.handle, connectedPvs[name].response)
    }

    static ghost function ConnOf(c: Connection): Conn {
      match c
      case ListenerAt(l) => ListenerConn(l.handle)
      case SearcherAt(s) => SearcherConn(s.handle)
      case GuardAt(g) => GuardConn(g.handle)
    }

    ghost function Conns(): seq<Conn>
      reads this
    {
      seq(|connections|, i requires 0 <= i < |connections| reads this => ConnOf(connections[i]))
    }

    /** The value that the name server's laws are about. */
    ghost function Model(): System
      reads this, caSearchers, guards
    {
      System(Wheels(), Guards(), IocTable(), PvTable(), Conns())
    }

    /** `listeners` and `searchers` count the sockets that could be opened, in the configured order. */
    constructor (acl: Acl, purgeDelay: Word32, listeners: nat, searchers: nat, configured: seq<Word32>, now: Time)
      requires configured != [] ==> configured[|configured| - 1] * 10 % POW32 > 0
      ensures Valid() && Model() == Start(searchers, listeners, configured)
      ensures this.acl == acl && this.purgeDelay == purgeDelay && Built() == seq(searchers, _ => now)
      ensures lastPurge == now && repr == {} && forall i | 0 <= i < |caSearchers| :: fresh(caSearchers[i])
    {
      hide SearchWheel.Valid, SearchWheel.Fresh;
      var conns: seq<Connection> := [];
      for i := 0 to listeners
        invariant |conns| == i
        invariant forall k | 0 <= k < i ::
                    conns[k].ListenerAt? && conns[k].listener.handle == k && conns[k].listener.acl == acl
      {
        var l := new Listener(i, acl);
        conns := conns + [ListenerAt(l)];
      }
      var made: seq<Searcher> := [];
      for i := 0 to searchers
        invariant |made| == i && |conns| == listeners + i
        invariant forall k | 0 <= k < listeners ::
                    conns[k].ListenerAt? && conns[k].listener.handle == k && conns[k].listener.acl == acl
        invariant forall k | 0 <= k < i :: conns[listeners + k] == SearcherAt(made[k])
        invariant forall k | 0 <= k < i :: fresh(made[k]) && made[k].Valid()
                    && made[k].handle == k && made[k].lastSearch == now
                    && made[k].Model() == SearchWheel.Fresh(configured)
      {
        var s := new Searcher(i, configured, now);
        made, conns := made + [s], conns + [SearcherAt(s)];
      }
      this.acl, this.purgeDelay, lastPurge := acl, purgeDelay, now;
      caSearchers, connections := made, conns;
      iocs, connectedPvs := map[], map[];
      nextHandle, guards, repr := 0, [], {};
      new;
      assert forall k | 0 <= k < |conns| :: k >= listeners ==> conns[k] == SearcherAt(made[k - listeners]);
      assert Conns() == Start(searchers, listeners, configured).conns;
      assert Built() == seq(searchers, _ => now);
      assert Wheels() == Start(searchers, listeners, configured).searchers;
    }

    lemma ModelIsSane()
      requires Valid()
      ensures Sane(Model())
    {
      hide SearchWheel.Valid;
      var s := Model();
      forall i | 0 <= i < |s.conns|
        ensures s.conns[i].SearcherConn? ==> s.conns[i].index < |s.searchers|
        ensures s.conns[i].GuardConn? ==> s.conns[i].index < |s.guards|
      {
        assert InList(connections[i]);
      }
      forall i | 0 <= i < |s.searchers| ensures SearchWheel.Valid(s.searchers[i]) {
        assert caSearchers[i].Valid();
      }
    }

    method IocDisconnected(addr: Addr)
      requires Valid()
      modifies this`iocs
      ensures Valid() && Model() == Disconnect(old(Model()), addr)
    {
      if addr in iocs {
        iocs := iocs - {addr};
      }
      assert IocTable() == old(IocTable()) - {addr};
      assert Guards() == old(Guards()) && Conns() == old(Conns()) && PvTable() == old(PvTable());
    }

    lemma CachedIn(pvname: PvName)
      requires Valid()
      ensures Sane(Model()) && (pvname in connectedPvs <==> pvname in Model().pvs)
      ensures pvname in connectedPvs ==>
                var pv := connectedPvs[pvname];
                (CachedLive(Model(), pvname) <==> pv.ioc.Model().alive) && Model().pvs[pvname].response == pv.response
    {
      hide SearchWheel.Valid;
      ModelIsSane();
      if pvname in connectedPvs {
        assert Known(connectedPvs[pvname].ioc);
      }
    }

    method CaPvSearched(pvname: PvName, now: Time) returns (rsp: Bytes)
      requires Valid() && |pvname| <= MAX_NAME
      modifies this`connectedPvs, caSearchers
      ensures Valid() && Searches(old(Model()), pvname, now, Model(), rsp)
    {
      CachedIn(pvname);
      hide Valid, Model, Sane, AddToAll, CachedLive;
      if pvname in connectedPvs {
        var pv := connectedPvs[pvname];
        if pv.ioc.IsConnected() {
          return pv.response;
        }
        UncachePv(pvname);
      }
      AddEverywhere(pvname, now);
      assert pvname !in old(Model()).pvs ==> old(Model()).pvs - {pvname} == old(Model()).pvs;
      return [];
    }

    method UncachePv(pvname: PvName)
      requires Valid() && pvname in connectedPvs
      modifies this`connectedPvs
      ensures Valid() && Model() == old(Model()).(pvs := old(Model()).pvs - {pvname})
    {
      connectedPvs := connectedPvs - {pvname};
      assert PvTable() == old(PvTable()) - {pvname};
      assert Guards() == old(Guards()) && Conns() == old(Conns()) && IocTable() == old(IocTable());
    }

    method AddEverywhere(pvname: PvName, now: Time)
      requires Valid() && |pvname| <= MAX_NAME
      modifies caSearchers
      ensures Valid() && old(Sane(Model()))
      ensures Model() == old(Model()).(searchers := AddToAll(old(Model()).searchers, pvname, now))
    {
      hide SearchWheel.Valid, SearchWheel.Add;
      ModelIsSane();
      for k := 0 to |caSearchers|
        invariant forall i | 0 <= i < |caSearchers| :: caSearchers[i].Valid()
        invariant forall i | 0 <= i < k ::
                    caSearchers[i].Model() == SearchWheel.Add(old(caSearchers[i].Model()), pvname, now).0
        invariant forall i | k <= i < |caSearchers| :: caSearchers[i].Model() == old(caSearchers[i].Model())
      {
        var added := caSearchers[k].AddPV(pvname, now);
      }
      assert Guards() == old(Guards()) && Conns() == old(Conns()) && IocTable() == old(IocTable())
             && PvTable() == old(PvTable());
    }

    method RemoveEverywhere(pvname: PvName)
      requires Valid()
      modifies caSearchers
      ensures Valid() && old(Sane(Model()))
      ensures Model() == old(Model()).(searchers := RemoveFromAll(old(Model()).searchers, pvname))
    {
      hide SearchWheel.Valid, SearchWheel.Remove;
      ModelIsSane();
      for k := 0 to |caSearchers|
        invariant forall i | 0 <= i < |caSearchers| :: caSearchers[i].Valid()
        invariant forall i | 0 <= i < k ::
                    caSearchers[i].Model() == SearchWheel.Remove(old(caSearchers[i].Model()), pvname)
        invariant forall i | k <= i < |caSearchers| :: caSearchers[i].Model() == old(caSearchers[i].Model())
      {
        caSearchers[k].RemovePV(pvname);
      }
      assert Guards() == old(Guards()) && Conns() == old(Conns()) && IocTable() == old(IocTable())
             && PvTable() == old(PvTable());
    }

    method CachePv(pvname: PvName, guard: IocGuard, response: Bytes)
      requires Valid() && Known(guard)
      modifies this`connectedPvs
      ensures Valid() && Model() == old(Model()).(pvs := old(Model()).pvs[pvname := CachedPv(guard.handle, response)])
    {
      connectedPvs := connectedPvs[pvname := PvInfo(guard, response)];
      assert PvTable() == old(PvTable())[pvname := CachedPv(guard.handle, response)];
      assert Guards() == old(Guards()) && Conns() == old(Conns()) && IocTable() == old(IocTable());
    }

    method ResolveIn(k: nat, id: Word32) returns (found: Option<PvName>)
      requires Valid() && k < |caSearchers|
      modifies caSearchers[k]
      ensures Valid() && old(Sane(Model()))
      ensures var r := SearchWheel.Resolve(old(Model()).searchers[k], id);
              found == r.1 && Model() == old(Model()).(searchers := old(Model()).searchers[k := r.0])
    {
      hide SearchWheel.Valid, SearchWheel.Resolve;
      ModelIsSane();
      assert caSearchers[k].Valid();
      found := caSearchers[k].ResolveReply(id);
      assert Wheels() == old(Wheels())[k := SearchWheel.Resolve(old(caSearchers[k].Model()), id).0];
      assert Guards() == old(Guards()) && Conns() == old(Conns()) && IocTable() == old(IocTable())
             && PvTable() == old(PvTable());
    }

    /** ConnectionsManager::add. */
    method AddConnection(c: Connection)
      requires InList(c)
      modifies this`connections
      ensures connections == old(connections) + [c]
    {
      connections := connections + [c];
    }

    function HandleOf(g: Option<IocGuard>): Option<nat> {
      match g case Some(guard) => Some(guard.handle) case None => None
    }

    /** A new guard object, which is nowhere listed yet. */
    method NewGuard(addr: Addr, sock: int, now: Time) returns (g: IocGuard)
      requires Valid() && sock != CLOSED
      modifies this`guards, this`repr, this`nextHandle
      ensures Valid() && fresh(repr - old(repr)) && Known(g) && g.handle == |old(Model()).guards|
      ensures Model() == old(Model()).(guards := old(Model()).guards + [Heartbeat.NewGuard(addr, now)])
    {
      hide SearchWheel.Valid;
      g := new IocGuard(nextHandle, addr, sock, now);
      nextHandle := nextHandle + 1;
      guards, repr := guards + [g], repr + {g};
      assert Guards() == old(Guards()) + [Heartbeat.NewGuard(addr, now)];
      assert Conns() == old(Conns()) && IocTable() == old(IocTable()) && PvTable() == old(PvTable())
             && Wheels() == old(Wheels());
    }

    method ListGuard(g: IocGuard, addr: Addr)
      requires Valid() && Known(g)
      modifies this`iocs, this`connections
      ensures Valid() && Known(g)
      ensures Model() == old(Model()).(iocs := old(Model()).iocs[addr := g.handle],
                                       conns := old(Model()).conns + [GuardConn(g.handle)])
    {
      hide SearchWheel.Valid;
      iocs := iocs[addr := g];
      AddConnection(GuardAt(g));
      assert IocTable() == old(IocTable())[addr := g.handle];
      assert Conns() == old(Conns()) + [GuardConn(g.handle)];
      assert Guards() == old(Guards()) && PvTable() == old(PvTable()) && Wheels() == old(Wheels());
    }

    /** Creates a guard and lists it in the table and among the connections. */
    method CreateGuard(addr: Addr, sock: int, now: Time) returns (g: IocGuard)
      requires Valid() && sock != CLOSED && addr !in iocs
      modifies this`iocs, this`connections, this`guards, this`repr, this`nextHandle
      ensures Valid() && fresh(repr - old(repr)) && Known(g)
      ensures (Model(), Some(g.handle)) == GuardFor(old(Model()), addr, true, now)
    {
      assert addr !in Model().iocs;
      hide Valid, Model;
      g := NewGuard(addr, sock, now);
      ListGuard(g, addr);
    }

    /** Finds or makes the guard of an address; `sock` is the socket a new one would get. */
    method GuardOf(addr: Addr, sock: int, now: Time) returns (guard: Option<IocGuard>)
      requires Valid()
      modifies this`iocs, this`connections, this`guards, this`repr, this`nextHandle
      ensures Valid() && fresh(repr - old(repr)) && (guard.Some? ==> Known(guard.value))
      ensures (Model(), HandleOf(guard)) == GuardFor(old(Model()), addr, sock != CLOSED, now)
    {
      if addr in iocs {
        return Some(iocs[addr]);
      }
      if sock == CLOSED {
        return None;
      }
      var g := CreateGuard(addr, sock, now);
      return Some(g);
    }

    method CaPvFound(pvname: PvName, addr: Addr, response: Bytes, sock: int, now: Time)
      requires Valid()
      modifies this, caSearchers
      ensures Valid() && fresh(repr - old(repr)) && lastPurge == old(lastPurge)
      ensures Finds(old(Model()), pvname, addr, response, sock != CLOSED, now, Model())
    {
      ModelIsSane();
      hide Sane, Model, Valid, GuardFor;
      var guard := GuardOf(addr, sock, now);
      if guard.Some? {
        RemoveEverywhere(pvname);
        CachePv(pvname, guard.value, response);
      }
      SameSearchers(old(Model()), addr, sock != CLOSED, now);
    }

    lemma SameSearchers(s: System, addr: Addr, created: bool, now: Time)
      ensures GuardFor(s, addr, created, now).0.searchers == s.searchers
      ensures GuardFor(s, addr, created, now).0.pvs == s.pvs
      ensures GuardFor(s, addr, created, now).1.None? ==> GuardFor(s, addr, created, now).0 == s
    {
    }

    /** The codec patches in place; the packet is copied into a buffer of its own first. */
    static method PatchAddr(rsp: Bytes, addr: Addr) returns (patched: Bytes)
      ensures patched == Patched(rsp, SetAddr(addr))
    {
      var reply := new Byte[|rsp|](i requires 0 <= i < |rsp| => rsp[i]);
      assert reply[..] == rsp;
      var updated := UpdateReplyAddr(reply, addr);
      patched := reply[..];
    }

    static method PatchId(rsp: Bytes, id: Word32) returns (patched: Bytes)
      ensures patched == Patched(rsp, SetId(id))
    {
      var reply := new Byte[|rsp|](i requires 0 <= i < |rsp| => rsp[i]);
      assert reply[..] == rsp;
      var updated := UpdateReplyId(reply, id);
      patched := reply[..];
    }

    /** One extracted reply: patch it, look its channel id up, and announce the PV if it is found. */
    method HandleReply(k: nat, id: Word32, rsp: Bytes, addr: Addr, sock: int, now: Time)
      requires Valid() && k < |caSearchers|
      modifies this, caSearchers
      ensures Valid() && fresh(repr - old(repr)) && lastPurge == old(lastPurge)
      ensures Resolves(old(Model()), k, id, addr, rsp, sock != CLOSED, now, Model())
    {
      ModelIsSane();
      assert |Model().searchers| == |caSearchers|;
      hide Sane, Model, Valid, SearchWheel.Resolve, Patched, Finds, Resolves;
      ghost var m0 := Model();
      var patched := PatchAddr(rsp, addr);
      var found := ResolveIn(k, id);
      ghost var m1 := Model();
      if found.Some? {
        CaPvFound(found.value, addr, patched, sock, now);
      }
      ResolvesBy(m0, k, id, addr, rsp, sock != CLOSED, now, m1, Model());
    }

    static lemma ResolvesBy(s: System, k: nat, id: Word32, addr: Addr, rsp: Bytes, created: bool, now: Time, t: System,
                            u: System)
      requires Sane(s) && k < |s.searchers|
      requires t == s.(searchers := s.searchers[k := SearchWheel.Resolve(s.searchers[k], id).0])
      requires match SearchWheel.Resolve(s.searchers[k], id).1
               case Some(name) => Finds(t, name, addr, Patched(rsp, SetAddr(addr)), created, now, u)
               case None => u == t
      ensures Resolves(s, k, id, addr, rsp, created, now, u)
    {
      assert SearchWheel.Valid(s.searchers[k]);
      hide Sane, SearchWheel.Valid, SearchWheel.Resolve, PvFound, ReplyArrived, Patched;
      ReplyIs(s, k, id, addr, Patched(rsp, SetAddr(addr)), created, now);
      if SearchWheel.Resolve(s.searchers[k], id).1.None? {
        UnchangedSearcher(s, k, id);
      }
    }

    static lemma UnchangedSearcher(s: System, k: nat, id: Word32)
      requires Sane(s) && k < |s.searchers| && SearchWheel.Resolve(s.searchers[k], id).1.None?
      ensures s.(searchers := s.searchers[k := SearchWheel.Resolve(s.searchers[k], id).0]) == s
    {
      hide SearchWheel.Resolve;
      ResolveNone(s.searchers[k], id);
    }

    /** The reply loop has handled the first `j` of the events. */
    static ghost predicate ReplyProgress(m0: System, es: seq<Event>, j: nat, m: System) {
      j <= |es| && Runs(m0, es[..j], m)
    }

    static lemma ReplyProgressStart(m0: System, es: seq<Event>)
      requires Sane(m0)
      ensures ReplyProgress(m0, es, 0, m0)
    {
      hide Sane;
      RunsNothing(m0);
      assert es[..0] == [];
    }

    static lemma ReplyProgressStep(m0: System, es: seq<Event>, j: nat, m: System, k: nat, id: Word32, addr: Addr,
                                   rsp: Bytes, created: bool, now: Time, m': System)
      requires ReplyProgress(m0, es, j, m) && j < |es|
      requires es[j] == Reply(k, id, addr, Patched(rsp, SetAddr(addr)), created, now)
      requires Resolves(m, k, id, addr, rsp, created, now, m')
      ensures ReplyProgress(m0, es, j + 1, m')
    {
      hide Sane, ReplyArrived, Patched, Runs;
      RunsOne(m, es[j]);
      RunsAppend(m0, es[..j], m, [es[j]], m');
      assert es[..j] + [es[j]] == es[..j + 1];
    }

    static lemma ReplyProgressEnd(m0: System, es: seq<Event>, m: System)
      requires ReplyProgress(m0, es, |es|, m)
      ensures Runs(m0, es, m)
    {
      hide Runs;
      assert es[..|es|] == es;
    }

    /** What the parsers return is what the events are made of. */
    static lemma ParsedCount(k: nat, d: IocDatagram, now: Time)
      ensures |IocEvents(k, d.data, d.ip, d.created, now)| == |Replies(Frames(d.data), [])|
      ensures ReplyPort(Frames(d.data)).None? ==> Replies(Frames(d.data), []) == []
    {
      hide Frames, Patched;
      CodecLaws.PortOfFirstReply(Frames(d.data), []);
      hide Replies, ReplyPort;
    }

    static predicate Creates(d: IocDatagram, j: nat) {
      j < |d.created| && d.created[j]
    }

    static lemma ParsedEvent(k: nat, d: IocDatagram, now: Time, j: nat)
      requires j < |Replies(Frames(d.data), [])| && ReplyPort(Frames(d.data)).Some?
      ensures var es := IocEvents(k, d.data, d.ip, d.created, now);
              && j < |es|
              && var (id, rsp) := Replies(Frames(d.data), [])[j];
                 var addr := Addr(d.ip, ReplyPort(Frames(d.data)).value);
                 es[j] == Reply(k, id, addr, Patched(rsp, SetAddr(addr)), Creates(d, j), now)
    {
      hide Frames, Patched, Replies, ReplyPort;
    }

    /** One datagram from an IOC. */
    method ReceiveReplies(k: nat, d: IocDatagram, now: Time)
      requires Valid() && k < |caSearchers|
      modifies this, caSearchers
      ensures Valid() && fresh(repr - old(repr)) && lastPurge == old(lastPurge)
      ensures Runs(old(Model()), IocEvents(k, d.data, d.ip, d.created, now), Model())
    {
      hide Sane, Model, Valid, Frames, Replies, ReplyPort, Patched, ReplyProgress, Runs, IocEvents, Resolves, Creates;
      ModelIsSane();
      ParsedCount(k, d, now);
      ghost var m0, es := Model(), IocEvents(k, d.data, d.ip, d.created, now);
      var addr := ParseIocAddr(d.ip, d.data);
      var responses := ParseSearchResponse(d.data);
      ReplyProgressStart(m0, es);
      for j := 0 to |responses|
        invariant Valid() && fresh(repr - old(repr)) && lastPurge == old(lastPurge)
        invariant ReplyProgress(m0, es, j, Model())
      {
        ghost var m := Model();
        ParsedEvent(k, d, now, j);
        var (id, rsp) := responses[j];
        var sock := if Creates(d, j) then 0 else CLOSED;
        HandleReply(k, id, rsp, addr.value, sock, now);
        ReplyProgressStep(m0, es, j, m, k, id, addr.value, rsp, Creates(d, j), now, Model());
      }
      ReplyProgressEnd(m0, es, Model());
    }

    /** Answers one allowed request from the cache, or starts the search; returns the packet to send, if any. */
    method AnswerRequest(id: Word32, pvname: PvName, now: Time) returns (packets: seq<Bytes>)
      requires Valid() && |pvname| <= MAX_NAME
      modifies this`connectedPvs, caSearchers
      ensures Valid() && exists rsp :: Searches(old(Model()), pvname, now, Model(), rsp)
                                       && packets == PacketFor(Answered(pvname, rsp), Some((id, pvname)))
    {
      hide Model, Valid, Patched, Searches;
      var rsp := CaPvSearched(pvname, now);
      packets := [];
      if rsp != [] {
        var reply := PatchId(rsp, id);
        packets := [reply];
      }
      assert packets == PacketFor(Answered(pvname, rsp), Some((id, pvname)));
    }

    static lemma RecordIsShort(d: ClientDatagram, j: nat)
      requires j < |Requests(Frames(d.data))|
      ensures |StripField(Requests(Frames(d.data))[j].1)| <= MAX_NAME
    {
      RequestsAreShort(d.data);
      hide Requests, Frames;
    }

    /** One datagram from a client; returns the packets sent back. */
    method ReceiveRequests(l: Listener, d: ClientDatagram, now: Time) returns (sent: seq<Bytes>)
      requires Valid() && l.acl == acl
      modifies this`connectedPvs, caSearchers
      ensures Valid() && Serves(old(Model()), WantedIn(acl, d), now, Model(), sent)
    {
      hide Sane, Model, Valid, Frames, Requests, Wanted, Serves;
      ModelIsSane();
      ghost var m0 := Model();
      var pvs := ParseSearchRequest(d.data);
      sent := [];
      WantedNothing(acl, pvs[..0], d.client);
      ServesNothing(m0, now);
      for j := 0 to |pvs|
        invariant Valid() && Serves(m0, Wanted(acl, pvs[..j], d.client), now, Model(), sent)
      {
        sent := ServeRequest(l, pvs, j, d, now, m0, sent);
      }
      assert pvs[..|pvs|] == pvs;
    }

    /** The `j`-th request of a datagram: cut off the field, check the rules, answer. */
    method ServeRequest(l: Listener, pvs: seq<(Word32, PvName)>, j: nat, d: ClientDatagram, now: Time,
                        ghost m0: System, sent: seq<Bytes>) returns (more: seq<Bytes>)
      requires Valid() && l.acl == acl && j < |pvs| && pvs == Requests(Frames(d.data))
      requires Serves(m0, Wanted(acl, pvs[..j], d.client), now, Model(), sent)
      modifies this`connectedPvs, caSearchers
      ensures Valid() && Serves(m0, Wanted(acl, pvs[..j + 1], d.client), now, Model(), more)
    {
      hide Sane, Model, Valid, Frames, Requests, Wanted, Serves, Allowed, StripField, Searches, PacketFor;
      more := sent;
      var pvname := StripField(pvs[j].1);
      WantedSnoc(acl, pvs, d.client, j);
      RecordIsShort(d, j);
      var allowed := false;
      if pvname != [] {
        allowed := CheckAccessControl(l.acl, pvname, d.client);
      }
      if allowed {
        ghost var m, wanted := Model(), Wanted(acl, pvs[..j], d.client);
        ghost var ask := (pvs[j].0, pvname);
        var packets := AnswerRequest(pvs[j].0, pvname, now);
        ghost var rsp :| Searches(m, pvname, now, Model(), rsp)
            && packets == PacketFor(Answered(pvname, rsp), Some(ask));
        ServesOneMore(m0, wanted, now, m, sent, ask, Model(), rsp);
        more := sent + packets;
      }
    }

    // -------------------------------------------------------------- guards

    /** The guard object's own step; the rest of the dispatcher stays as it is. */
    method MoveIncoming(g: IocGuard, now: Time, recvd: int) returns (fired: bool)
      requires Valid() && Known(g)
      modifies g
      ensures Valid() && fired == Heartbeat.Step(old(g.Model()), Heartbeat.Recv(now, recvd)).1.dropped
      ensures var moved := Heartbeat.Step(old(g.Model()), Heartbeat.Recv(now, recvd)).0;
              Model() == old(Model()).(guards := old(Guards())[g.handle := moved])
    {
      fired := g.ProcessIncoming(now, recvd);
      assert Guards() == old(Guards())[g.handle := g.Model()];
      assert Conns() == old(Conns()) && IocTable() == old(IocTable()) && PvTable() == old(PvTable())
             && Wheels() == old(Wheels());
    }

    method MoveOutgoing(g: IocGuard, now: Time, writable: bool, sendOk: bool) returns (fired: bool, sent: Option<bool>)
      requires Valid() && Known(g)
      modifies g
      ensures Valid()
              && Heartbeat.Effect(fired, sent) ==
                   Heartbeat.Step(old(g.Model()), Heartbeat.Poll(now, writable, sendOk)).1
      ensures var moved := Heartbeat.Step(old(g.Model()), Heartbeat.Poll(now, writable, sendOk)).0;
              Model() == old(Model()).(guards := old(Guards())[g.handle := moved])
    {
      fired, sent := g.ProcessOutgoing(now, writable, sendOk);
      assert Guards() == old(Guards())[g.handle := g.Model()];
      assert Conns() == old(Conns()) && IocTable() == old(IocTable()) && PvTable() == old(PvTable())
             && Wheels() == old(Wheels());
    }

    lemma GuardInModel(g: IocGuard)
      requires Valid() && Known(g)
      ensures Sane(Model()) && Guards() == Model().guards && g.handle < |Model().guards|
      ensures Model().guards[g.handle] == g.Model() && g.addr == g.Model().addr
    {
      ModelIsSane();
    }

    method GuardIncoming(g: IocGuard, now: Time, recvd: int)
      requires Valid() && Known(g)
      modifies this`iocs, g
      ensures Valid() && Beats(old(Model()), g.handle, Heartbeat.Recv(now, recvd), Model())
    {
      GuardInModel(g);
      FiredIs(Model(), g.handle, Heartbeat.Recv(now, recvd));
      var fired := MoveIncoming(g, now, recvd);
      if fired {
        IocDisconnected(g.addr);
      }
    }

    method GuardOutgoing(g: IocGuard, now: Time, writable: bool, sendOk: bool) returns (sent: Option<bool>)
      requires Valid() && Known(g)
      modifies this`iocs, g
      ensures Valid() && Beats(old(Model()), g.handle, Heartbeat.Poll(now, writable, sendOk), Model())
      ensures sent == Heartbeat.Step(old(g.Model()), Heartbeat.Poll(now, writable, sendOk)).1.sent
    {
      GuardInModel(g);
      FiredIs(Model(), g.handle, Heartbeat.Poll(now, writable, sendOk));
      var fired;
      fired, sent := MoveOutgoing(g, now, writable, sendOk);
      if fired {
        IocDisconnected(g.addr);
      }
    }

    lemma FiredIs(s: System, h: nat, e: Heartbeat.Event)
      requires Sane(s) && h < |s.guards|
      ensures var (g, effect) := Heartbeat.Step(s.guards[h], e);
              var t := s.(guards := s.guards[h := g]);
              g.addr == s.guards[h].addr && GuardStep(s, h, e) == if effect.dropped then Disconnect(t, g.addr) else t
    {
      GuardEffect(s.guards[h], e);
    }

    // -------------------------------------------------------------- the main loop

    /** When the searchers were built. */
    ghost function Built(): (times: seq<Time>)
      ensures |times| == |caSearchers| && forall k | 0 <= k < |times| :: times[k] == caSearchers[k].lastSearch
    {
      seq(|caSearchers|, k requires 0 <= k < |caSearchers| => caSearchers[k].lastSearch)
    }

    /** Which searchers send at this time: all that were built 99 ms ago or earlier. */
    ghost function Ticking(now: Time): (ticking: seq<bool>)
      ensures |ticking| == |caSearchers|
      ensures forall k | 0 <= k < |ticking| :: ticking[k] <==> now >= caSearchers[k].lastSearch + 99 * MILLISECOND
    {
      assert forall k | 0 <= k < |caSearchers| ::
          caSearchers[k].Ticks(now) <==> now >= caSearchers[k].lastSearch + 99 * MILLISECOND by {
        forall k | 0 <= k < |caSearchers|
          ensures caSearchers[k].Ticks(now) <==> now >= caSearchers[k].lastSearch + 99 * MILLISECOND
        {
          caSearchers[k].RateLimitIsOnce(now, now);
        }
      }
      seq(|caSearchers|, k requires 0 <= k < |caSearchers| => caSearchers[k].Ticks(now))
    }

    /** Listener::processIncoming: datagrams until the socket is empty. */
    method ListenTo(l: Listener, ds: seq<ClientDatagram>, now: Time) returns (sent: seq<Bytes>)
      requires Valid() && l.acl == acl
      modifies this`connectedPvs, caSearchers
      ensures Valid() && ServesAll(old(Model()), acl, ds, now, Model(), sent)
    {
      hide Sane, Model, Valid, ServesAll, Serves, WantedIn;
      ModelIsSane();
      ServesAllNothing(Model(), acl, now);
      sent := [];
      for j := 0 to |ds|
        invariant Valid() && ServesAll(old(Model()), acl, ds[..j], now, Model(), sent)
      {
        ghost var m := Model();
        var packets := ReceiveRequests(l, ds[j], now);
        ServesAllOneMore(old(Model()), acl, ds[..j], now, m, sent, ds[j], Model(), packets);
        assert ds[..j] + [ds[j]] == ds[..j + 1];
        sent := sent + packets;
      }
      assert ds[..|ds|] == ds;
    }

    lemma NoReads(k: nat, now: Time)
      ensures ReadIocs(k, [], now) == []
    {
    }

    /** Searcher::processIncoming: datagrams until the socket is empty. */
    method SearchOn(k: nat, ds: seq<IocDatagram>, now: Time)
      requires Valid() && k < |caSearchers|
      modifies this, caSearchers
      ensures Valid() && fresh(repr - old(repr)) && lastPurge == old(lastPurge)
      ensures Runs(old(Model()), ReadIocs(k, ds, now), Model())
    {
      hide Sane, Model, Valid, ReadIocs, IocEvents, Runs;
      ModelIsSane();
      RunsNothing(Model());
      NoReads(k, now);
      for j := 0 to |ds|
        invariant Valid() && fresh(repr - old(repr)) && lastPurge == old(lastPurge)
        invariant Runs(old(Model()), ReadIocs(k, ds[..j], now), Model())
      {
        ghost var m := Model();
        ReceiveReplies(k, ds[j], now);
        RunsAppend(old(Model()), ReadIocs(k, ds[..j], now), m, IocEvents(k, ds[j].data, ds[j].ip, ds[j].created, now),
                   Model());
        ReadIocsSnoc(k, ds, now, j);
      }
      assert ds[..|ds|] == ds;
    }

    /** processIncoming of whatever kind of connection it is; unread sockets have no input. */
    method Receive(c: Connection, input: Incoming, now: Time) returns (sent: seq<Bytes>)
      requires Valid() && InList(c)
      modifies this, caSearchers, repr
      ensures Valid() && fresh(repr - old(repr)) && lastPurge == old(lastPurge)
      ensures Receives(old(Model()), ConnOf(c), input, acl, now, Model(), sent)
    {
      ModelIsSane();
      RunsNothing(Model());
      hide Sane, Model, ReadIocs, ReadClients, ReadAsks, Tells, Runs, Beats;
      sent := [];
      ghost var m := Model();
      match (c, input) {
        case (ListenerAt(l), FromClients(ds)) => sent := ListenTo(l, ds, now);
        case (SearcherAt(s), FromIocs(ds)) =>
          SearchOn(s.handle, ds, now);
          TellsNoOne(m, ReadIocs(s.handle, ds, now), Model());
        case (GuardAt(g), FromTcp(n)) =>
          GuardIncoming(g, now, n);
          BeatsRuns(m, g.handle, Heartbeat.Recv(now, n), Model());
          TellsNoOne(m, [Guarding(g.handle, Heartbeat.Recv(now, n))], Model());
        case _ => TellsNoOne(m, [], Model());
      }
    }

    lemma BeatsRuns(m: System, h: nat, e: Heartbeat.Event, t: System)
      requires Beats(m, h, e, t)
      ensures Runs(m, [Guarding(h, e)], t)
    {
      RunsOne(m, Guarding(h, e));
    }

    lemma ConnAt(i: nat)
      requires Valid() && i < |Model().conns|
      ensures |connections| == |Model().conns| && InList(connections[i]) && Model().conns[i] == ConnOf(connections[i])
    {
    }

    /** The first half of ConnectionsManager::run: slot by slot over the connections that were polled. */
    method Dispatch(inputs: seq<Incoming>, now: Time) returns (sent: seq<Bytes>)
      requires Valid() && |inputs| <= |connections|
      modifies this, caSearchers, repr
      ensures Valid() && fresh(repr - old(repr)) && lastPurge == old(lastPurge)
      ensures Dispatched(old(Model()), inputs, acl, now, |inputs|, Model(), sent)
    {
      ModelIsSane();
      assert |Model().conns| == |connections|;
      hide Sane, Model, Valid, Receives, Dispatched;
      ghost var m0 := Model();
      DispatchStart(m0, inputs, acl, now);
      sent := [];
      for i := 0 to |inputs|
        invariant Valid() && fresh(repr - old(repr)) && lastPurge == old(lastPurge)
        invariant Dispatched(m0, inputs, acl, now, i, Model(), sent)
      {
        ghost var m := Model();
        SlotKept(m0, inputs, acl, now, i, m, sent);
        ConnAt(i);
        var packets := Receive(connections[i], inputs[i], now);
        DispatchStep(m0, inputs, acl, now, i, m, sent, Model(), packets);
        sent := sent + packets;
      }
    }

    /** processOutgoing of whatever kind of connection it is. */
    method PollOne(c: Connection, w: World) returns (out: seq<Outgoing>)
      requires Valid() && InList(c)
      modifies this`iocs, caSearchers, repr
      ensures Valid() && Emits(old(Model()), PollEvents(ConnOf(c), w, Ticking(w.now)), Model(), out)
    {
      ModelIsSane();
      EmitsNothing(Model());
      hide Emits, Beats;
      out := [];
      match c {
        case ListenerAt(_) =>
        case SearcherAt(s) => out := TickSearcher(s, w.now);
        case GuardAt(g) =>
          ghost var m, beat := Model(), Heartbeat.Poll(w.now, g.handle in w.writable, g.handle in w.sendOk);
          GuardInModel(g);
          var sent := GuardOutgoing(g, w.now, g.handle in w.writable, g.handle in w.sendOk);
          if sent.Some? {
            out := [EchoRequest(g.handle, sent.value)];
          }
          BeatEmits(m, g.handle, beat, Model(), out);
      }
    }

    static lemma BeatEmits(m: System, h: nat, beat: Heartbeat.Event, t: System, out: seq<Outgoing>)
      requires Beats(m, h, beat, t)
      requires var effect := Heartbeat.Step(m.guards[h], beat).1;
               out == if effect.sent.Some? then [EchoRequest(h, effect.sent.value)] else []
      ensures Emits(m, [Guarding(h, beat)], t, out)
    {
      hide Sane, Heartbeat.Step, GuardStep, Emits;
      DroppedSendsNothing(m.guards[h], beat);
      EmitsOne(m, Guarding(h, beat), out);
    }

    static lemma DroppedSendsNothing(g: Heartbeat.Guard, beat: Heartbeat.Event)
      ensures Heartbeat.Step(g, beat).1.dropped ==> Heartbeat.Step(g, beat).1.sent.None?
    {
    }

    static function SearcherOutput(k: nat, ticks: bool, packets: seq<Bytes>): seq<Outgoing> {
      if ticks then [SearchPackets(k, packets)] else []
    }

    method TickSearcher(s: Searcher, now: Time) returns (out: seq<Outgoing>)
      requires Valid() && InList(SearcherAt(s))
      modifies s
      ensures Valid()
      ensures Emits(old(Model()), if s.Ticks(now) then [NameServer.Ticking(s.handle)] else [], Model(), out)
    {
      hide SearchWheel.Valid, SearchWheel.Tick, CodecLaws.Received, CodecLaws.OnWire, Emits;
      ModelIsSane();
      EmitsNothing(Model());
      assert caSearchers[s.handle].Valid();
      var packets := s.ProcessOutgoing(now);
      out := SearcherOutput(s.handle, s.Ticks(now), packets);
      assert Guards() == old(Guards()) && Conns() == old(Conns()) && IocTable() == old(IocTable())
             && PvTable() == old(PvTable());
      if s.Ticks(now) {
        TickEmits(old(Model()), s.handle, packets);
        assert Wheels() == old(Wheels())[s.handle := s.Model()];
      } else {
        assert Wheels() == old(Wheels());
      }
    }

    static lemma TickEmits(m: System, k: nat, packets: seq<Bytes>)
      requires Sane(m) && k < |m.searchers|
      requires CodecLaws.Received(packets) == CodecLaws.OnWire(SearchWheel.Tick(m.searchers[k]).1)
      ensures SearchWheel.Valid(m.searchers[k])
      ensures Emits(m, [NameServer.Ticking(k)], m.(searchers := m.searchers[k := SearchWheel.Tick(m.searchers[k]).0]),
                    [SearchPackets(k, packets)])
    {
      hide SearchWheel.Valid, SearchWheel.Tick, CodecLaws.Received, CodecLaws.OnWire, Emits;
      EmitsOne(m, NameServer.Ticking(k), [SearchPackets(k, packets)]);
    }

    /** Only guards are ever closed. */
    predicate IsUp(c: Connection)
      reads if c.GuardAt? then {c.guard} else {}
    {
      c.GuardAt? ==> c.guard.IsConnected()
    }

    lemma UpIsConnected(i: nat)
      requires Valid() && i < |connections|
      ensures |Model().conns| == |connections| && Connected(Model(), Model().conns[i]) == IsUp(connections[i])
    {
      assert InList(connections[i]);
    }

    method EraseConnection(i: nat)
      requires Valid() && i < |connections|
      modifies this`connections
      ensures Valid() && i < |old(Model()).conns| && Model() == EraseConn(old(Model()), i)
      ensures |connections| == old(|connections|) - 1
    {
      connections := connections[..i] + connections[i + 1..];
      assert Conns() == old(Conns())[..i] + old(Conns())[i + 1..];
      assert Guards() == old(Guards()) && IocTable() == old(IocTable()) && PvTable() == old(PvTable())
             && Wheels() == old(Wheels());
    }

    /** The second half of ConnectionsManager::run: poll every connection and drop the closed ones. */
    method Sweep(w: World) returns (out: seq<Outgoing>)
      requires Valid()
      modifies this`iocs, this`connections, caSearchers, repr
      ensures Valid() && old(Sane(Model()))
      ensures Emits(old(Model()), SweepEvents(old(Model()), 0, w, Ticking(w.now)), Model(), out)
    {
      hide Sane, Model, Valid, SweepEvents, PollEvents, Emits, Sweeping, Connected, IsUp, EraseConn, Ticking;
      ModelIsSane();
      ghost var m0, ticking := Model(), Ticking(w.now);
      SweepStart(m0, w, ticking);
      var it: nat := 0;
      out := [];
      ghost var left := |connections|;
      SameLength();
      while it < |connections|
        invariant Valid() && it <= |connections| && left == |connections| - it && |Model().conns| == |connections|
        invariant Sweeping(m0, w, ticking, it, Model(), out)
        decreases left
      {
        ghost var m := Model();
        ConnAt(it);
        var more := PollOne(connections[it], w);
        SweepStep(m0, w, ticking, it, m, out, Model(), more);
        out := out + more;
        UpIsConnected(it);
        if !IsUp(connections[it]) {
          EraseConnection(it);
          SameLength();
        } else {
          it := it + 1;
        }
        left := left - 1;
      }
      SweepEnd(m0, w, ticking, Model(), out);
    }

    lemma SameLength()
      ensures |Model().conns| == |connections|
    {
    }

    method PurgeSearchers(now: Time) returns (nPurged: nat, nRemain: nat)
      requires Valid()
      modifies caSearchers
      ensures Valid() && old(Sane(Model())) && Model() == PurgeAll(old(Model()), now, purgeDelay)
    {
      hide SearchWheel.Valid, SearchWheel.Purge;
      ModelIsSane();
      nPurged, nRemain := 0, 0;
      for k := 0 to |caSearchers|
        invariant forall i | 0 <= i < |caSearchers| :: caSearchers[i].Valid()
        invariant forall i | 0 <= i < k :: SearchWheel.Valid(old(caSearchers[i].Model()))
                    && caSearchers[i].Model() == SearchWheel.Purge(old(caSearchers[i].Model()), now, purgeDelay).0
        invariant forall i | k <= i < |caSearchers| :: caSearchers[i].Model() == old(caSearchers[i].Model())
      {
        var p, r := caSearchers[k].PurgePVs(now, purgeDelay);
        nPurged, nRemain := nPurged + p, nRemain + r;
      }
      assert Guards() == old(Guards()) && Conns() == old(Conns()) && IocTable() == old(IocTable())
             && PvTable() == old(PvTable());
    }

    method MarkPurge(now: Time)
      requires Valid()
      modifies this`lastPurge
      ensures Valid() && Model() == old(Model()) && lastPurge == now
    {
      lastPurge := now;
      assert Guards() == old(Guards()) && Conns() == old(Conns()) && IocTable() == old(IocTable());
      assert PvTable() == old(PvTable()) && Wheels() == old(Wheels());
    }

    /** Dispatcher::run: one turn of the main loop; `sent` goes to clients, `out` to IOCs. */
    method RunOnce(inputs: seq<Incoming>, w: World) returns (sent: seq<Bytes>, out: seq<Outgoing>)
      requires Valid() && |inputs| <= |connections|
      modifies this, caSearchers, repr
      ensures Valid() && fresh(repr - old(repr))
      ensures var log := History.TurnLog(inputs, w, Ticking(w.now), PurgeTime(old(lastPurge), w.now), sent, out);
              && History.IsTurn(old(Model()), acl, log, Model())
              && Clockwork.Clocked(log, Built(), purgeDelay, old(lastPurge))
              && lastPurge == Clockwork.NextPurge(log, old(lastPurge))
    {
      hide Model, Valid, Emits, Turn, Dispatched, SweepEvents, Sane, Ticking;
      ModelIsSane();
      ghost var m0 := Model();
      sent := Dispatch(inputs, w.now);
      ghost var m1 := Model();
      ModelIsSane();
      out := Sweep(w);
      ModelIsSane();
      TurnFrom(m0, inputs, acl, w, Ticking(w.now), PurgeTime(lastPurge, w.now), m1, Model(), sent, out);
      var duration := Truncate(w.now - lastPurge, SECOND);
      if duration > purgeDelay {
        var nPurged, nRemain := PurgeSearchers(w.now);
        MarkPurge(w.now);
      }
    }

    /** The purge of a turn, if there is one: the configured delay, in full seconds, must be over. */
    function PurgeTime(last: Time, now: Time): (purge: Option<Word32>)
      ensures purge == if now >= last + (purgeDelay + 1) * SECOND then Some(purgeDelay) else None
    {
      if Truncate(now - last, SECOND) > purgeDelay then Some(purgeDelay) else None
    }
  }
}
