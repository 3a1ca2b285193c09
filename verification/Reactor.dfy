/**
 * One turn of the main loop as a run of events: dispatch what has come in, by index over a
 * connection list that may grow meanwhile, then poll every connection and drop the closed ones.
 */
module Reactor {
  import opened Prelude
  import opened Framing
  import opened ChannelAccess
  import opened NameServer
  import opened CacheLaws
  import opened ServerLaws
  import opened AccessControl
  import opened Traces
  import SearchWheel
  import Heartbeat

  /** What one receive buffer can hold. */
  type Datagram = b: Bytes | |b| <= 4096

  datatype ClientDatagram = ClientDatagram(data: Datagram, client: IPv4)
  /** `created` says, reply by reply, whether a guard could be created for the IOC. */
  datatype IocDatagram = IocDatagram(data: Datagram, ip: IPv4, created: seq<bool>)

  datatype Incoming =
    | Quiet
    | FromClients(requests: seq<ClientDatagram>)
    | FromIocs(replies: seq<IocDatagram>)
    | FromTcp(recvd: int)

  /** What the world does to the polling phase: the guards (by handle) that are writable and can send. */
  datatype World = World(now: Time, writable: set<nat>, sendOk: set<nat>)

  // ---------------------------------------------------------------- a client's datagram

  /** The searches that a client is allowed to make: record names, with the id to answer to. */
  function Wanted(acl: Acl, requests: seq<(Word32, PvName)>, client: IPv4): seq<(Word32, PvName)> {
    if requests == [] then []
    else
      var name := StripField(requests[0].1);
      (if name != [] && Allowed(acl, name, client) then [(requests[0].0, name)] else [])
      + Wanted(acl, requests[1..], client)
  }

  function SearchEvents(wanted: seq<(Word32, PvName)>, now: Time): (es: seq<Event>)
    ensures |es| == |wanted|
  {
    seq(|wanted|, i requires 0 <= i < |wanted| => Search(wanted[i].1, now))
  }

  function WantedIn(acl: Acl, d: ClientDatagram): seq<(Word32, PvName)> {
    Wanted(acl, Requests(Frames(d.data)), d.client)
  }

  function ClientEvents(acl: Acl, d: ClientDatagram, now: Time): seq<Event> {
    SearchEvents(WantedIn(acl, d), now)
  }

  /** Each search event with the request it is made for. */
  function AskersOf(wanted: seq<(Word32, PvName)>): (asks: seq<Ask>)
    ensures |asks| == |wanted| && forall i | 0 <= i < |wanted| :: asks[i] == Some(wanted[i])
  {
    seq(|wanted|, i requires 0 <= i < |wanted| => Some(wanted[i]))
  }

  predicate ShortNames(wanted: seq<(Word32, PvName)>) {
    forall i | 0 <= i < |wanted| :: |wanted[i].1| <= MAX_NAME
  }

  lemma {:induction false} RequestsAreShort(b: Bytes)
    ensures forall i | 0 <= i < |Requests(Frames(b))| :: |Requests(Frames(b))[i].1| <= |b|
    decreases |b|
  {
    if |b| >= HEADER {
      var n := FrameLen(b);
      RequestsAreShort(b[n..]);
      var f: Frame := b[..n];
      assert Frames(b) == [f] + Frames(b[n..]);
      assert Requests(Frames(b)) == RequestOf(f) + Requests(Frames(b[n..])) by {
        assert ([f] + Frames(b[n..]))[1..] == Frames(b[n..]);
      }
    }
  }

  lemma {:induction false} WantedAreShort(acl: Acl, requests: seq<(Word32, PvName)>, client: IPv4)
    requires forall i | 0 <= i < |requests| :: |requests[i].1| <= MAX_NAME
    ensures ShortNames(Wanted(acl, requests, client))
    decreases requests
  {
    hide Allowed, StripField;
    if requests != [] {
      assert forall i | 0 <= i < |requests[1..]| :: requests[1..][i] == requests[i + 1];
      WantedAreShort(acl, requests[1..], client);
    }
  }

  lemma ClientNamesAreShort(acl: Acl, d: ClientDatagram)
    ensures ShortNames(WantedIn(acl, d))
  {
    RequestsAreShort(d.data);
    WantedAreShort(acl, Requests(Frames(d.data)), d.client);
  }

  /** The rules let this name through for this client. */
  predicate Admitted(acl: Acl, name: PvName, client: IPv4) {
    name != [] && Passes(acl.pvs, StripLastField(name)) && Passes(acl.clients, client)
  }

  /** These are the requests at these positions, under their record names. */
  predicate TakenFrom(requests: seq<(Word32, PvName)>, idx: seq<nat>, wanted: seq<(Word32, PvName)>) {
    && |idx| == |wanted| && Increasing(idx, |requests|)
    && forall i | 0 <= i < |idx| :: wanted[i] == (requests[idx[i]].0, StripField(requests[idx[i]].1))
  }

  /** These are the positions of all requests whose record name is admitted. */
  predicate AllAdmitted(acl: Acl, requests: seq<(Word32, PvName)>, client: IPv4, idx: seq<nat>) {
    forall k | 0 <= k < |requests| :: k in idx <==> Admitted(acl, StripField(requests[k].1), client)
  }

  /** Each request whose record name the rules admit is wanted once, in order, and no other. */
  lemma {:induction false} WantedExactly(acl: Acl, requests: seq<(Word32, PvName)>, client: IPv4)
    returns (idx: seq<nat>)
    ensures TakenFrom(requests, idx, Wanted(acl, requests, client)) && AllAdmitted(acl, requests, client, idx)
    decreases requests
  {
    hide Allowed, StripField, Passes, Wanted, PlusOne;
    if requests == [] {
      WantedNothing(acl, requests, client);
      idx := [];
    } else {
      hide TakenFrom, AllAdmitted;
      var name := StripField(requests[0].1);
      var keep := name != [] && Allowed(acl, name, client);
      var rest := WantedExactly(acl, requests[1..], client);
      idx := if keep then [0] + PlusOne(rest) else PlusOne(rest);
      WantedCons(acl, requests, client);
      TakenCons(requests, rest, keep, Wanted(acl, requests[1..], client));
      AdmittedCons(acl, requests, client, rest, keep);
      assert [] + Wanted(acl, requests[1..], client) == Wanted(acl, requests[1..], client);
    }
  }

  lemma AdmittedCons(acl: Acl, requests: seq<(Word32, PvName)>, client: IPv4, rest: seq<nat>, keep: bool)
    requires requests != [] && keep == Admitted(acl, StripField(requests[0].1), client)
    requires AllAdmitted(acl, requests[1..], client, rest)
    ensures AllAdmitted(acl, requests, client, if keep then [0] + PlusOne(rest) else PlusOne(rest))
  {
    hide PlusOne, Admitted, StripField;
    var idx := if keep then [0] + PlusOne(rest) else PlusOne(rest);
    forall k | 0 <= k < |requests| ensures k in idx <==> Admitted(acl, StripField(requests[k].1), client) {
      PlusOneMember(rest, k);
      if k > 0 {
        assert requests[1..][k - 1] == requests[k];
      }
    }
  }

  lemma TakenCons(requests: seq<(Word32, PvName)>, rest: seq<nat>, keep: bool, tail: seq<(Word32, PvName)>)
    requires requests != [] && TakenFrom(requests[1..], rest, tail)
    ensures TakenFrom(requests, if keep then [0] + PlusOne(rest) else PlusOne(rest),
                      if keep then [(requests[0].0, StripField(requests[0].1))] + tail else tail)
  {
    PlusOneIncreases(rest, |requests[1..]|);
    hide StripField, PlusOne, Increasing;
    var idx, d := if keep then [0] + PlusOne(rest) else PlusOne(rest), if keep then 1 else 0;
    var all := if keep then [(requests[0].0, StripField(requests[0].1))] + tail else tail;
    RestInRange(rest, |requests[1..]|);
    forall i | 0 <= i < |idx|
      ensures idx[i] < |requests| && all[i] == (requests[idx[i]].0, StripField(requests[idx[i]].1))
    {
      if i >= d {
        assert idx[i] == rest[i - d] + 1 && all[i] == tail[i - d] && requests[1..][rest[i - d]] == requests[idx[i]];
      }
    }
  }

  lemma RestInRange(idx: seq<nat>, n: nat)
    requires Increasing(idx, n)
    ensures forall i | 0 <= i < |idx| :: idx[i] < n
  {
  }

  // ---------------------------------------------------------------- runs that are always possible

  /** An event that can happen in every state of this server. */
  predicate AlwaysEnabled(e: Event, searchers: nat) {
    match e
    case Search(name, _) => |name| <= MAX_NAME
    case Reply(i, _, _, _, _, _) => i < searchers
    case Ticking(i) => i < searchers
    case Purging(_, _) => true
    case Guarding(_, _) => false
    case Erasing(_) => false
  }

  /** Events other than erasures only append to the connection list, and only guards. */
  ghost predicate Grown(s: System, t: System) {
    && |t.searchers| == |s.searchers| && |t.guards| >= |s.guards|
    && s.conns <= t.conns && forall i | |s.conns| <= i < |t.conns| :: t.conns[i].GuardConn?
  }

  lemma StepGrows(s: System, e: Event)
    requires Sane(s) && Enabled(s, e) && !e.Erasing?
    ensures Grown(s, Step(s, e).0)
  {
    hide SearchWheel.Valid;
  }

  lemma GrownTransitive(s: System, t: System, u: System)
    requires Grown(s, t) && Grown(t, u)
    ensures Grown(s, u)
  {
  }

  lemma {:induction false} AlwaysPossible(s: System, es: seq<Event>)
    requires Sane(s) && forall i | 0 <= i < |es| :: AlwaysEnabled(es[i], |s.searchers|)
    ensures Possible(s, es) && Grown(s, Run(s, es))
    decreases es
  {
    if es == [] {
    } else {
      assert AlwaysEnabled(es[0], |s.searchers|) && Enabled(s, es[0]) && !es[0].Erasing?;
      hide Sane, Step, Enabled;
      var s' := Step(s, es[0]).0;
      StepGrows(s, es[0]);
      assert forall i | 0 <= i < |es[1..]| :: es[1..][i] == es[i + 1];
      AlwaysPossible(s', es[1..]);
      GrownTransitive(s, s', Run(s', es[1..]));
    }
  }

  // ---------------------------------------------------------------- the dispatch phase

  /** Reading a socket until it is empty. */
  function ReadClients(acl: Acl, ds: seq<ClientDatagram>, now: Time): seq<Event> {
    if ds == [] then [] else ClientEvents(acl, ds[0], now) + ReadClients(acl, ds[1..], now)
  }

  function ReadIocs(searcher: nat, ds: seq<IocDatagram>, now: Time): seq<Event> {
    if ds == [] then []
    else IocEvents(searcher, ds[0].data, ds[0].ip, ds[0].created, now) + ReadIocs(searcher, ds[1..], now)
  }

  function ReceiveEvents(c: Conn, input: Incoming, acl: Acl, now: Time): seq<Event> {
    match (c, input)
    case (ListenerConn(_), FromClients(ds)) => ReadClients(acl, ds, now)
    case (SearcherConn(k), FromIocs(ds)) => ReadIocs(k, ds, now)
    case (GuardConn(h), FromTcp(n)) => [Guarding(h, Heartbeat.Recv(now, n))]
    case _ => []
  }

  /** The inputs go to the connections that were polled, slot by slot. */
  function InEvents(conns: seq<Conn>, inputs: seq<Incoming>, acl: Acl, now: Time): seq<Event>
    requires |inputs| <= |conns|
    decreases inputs
  {
    if inputs == [] then []
    else ReceiveEvents(conns[0], inputs[0], acl, now) + InEvents(conns[1..], inputs[1..], acl, now)
  }

  /** The clients' requests behind the events of the dispatch, event by event. */
  function ReadAsks(acl: Acl, ds: seq<ClientDatagram>): seq<Ask> {
    if ds == [] then [] else AskersOf(WantedIn(acl, ds[0])) + ReadAsks(acl, ds[1..])
  }

  function ReceiveAsks(c: Conn, input: Incoming, acl: Acl, now: Time): seq<Ask> {
    if c.ListenerConn? && input.FromClients? then ReadAsks(acl, input.requests)
    else NoAsks(|ReceiveEvents(c, input, acl, now)|)
  }

  function InAsks(conns: seq<Conn>, inputs: seq<Incoming>, acl: Acl, now: Time): seq<Ask>
    requires |inputs| <= |conns|
    decreases inputs
  {
    if inputs == [] then []
    else ReceiveAsks(conns[0], inputs[0], acl, now) + InAsks(conns[1..], inputs[1..], acl, now)
  }

  lemma {:induction false} ReadClientsAlways(acl: Acl, ds: seq<ClientDatagram>, now: Time, n: nat)
    ensures forall i | 0 <= i < |ReadClients(acl, ds, now)| :: AlwaysEnabled(ReadClients(acl, ds, now)[i], n)
    decreases ds
  {
    if ds != [] {
      ClientNamesAreShort(acl, ds[0]);
      ReadClientsAlways(acl, ds[1..], now, n);
      var es := ClientEvents(acl, ds[0], now);
      hide Frames, Requests, Wanted;
      assert forall i | 0 <= i < |es| :: AlwaysEnabled(es[i], n);
    }
  }

  lemma {:induction false} ReadIocsAlways(k: nat, ds: seq<IocDatagram>, now: Time, n: nat)
    requires k < n
    ensures forall i | 0 <= i < |ReadIocs(k, ds, now)| :: AlwaysEnabled(ReadIocs(k, ds, now)[i], n)
    decreases ds
  {
    hide Frames, Replies, ReplyPort, Patched;
    if ds != [] {
      ReadIocsAlways(k, ds[1..], now, n);
      var es := IocEvents(k, ds[0].data, ds[0].ip, ds[0].created, now);
      assert forall i | 0 <= i < |es| :: AlwaysEnabled(es[i], n);
    }
  }

  /** Receiving on a listed connection is possible whenever its turn comes, and only grows the list. */
  lemma ReceivePossible(s: System, i: nat, input: Incoming, acl: Acl, now: Time)
    requires Sane(s) && i < |s.conns|
    ensures var es := ReceiveEvents(s.conns[i], input, acl, now); Possible(s, es) && Grown(s, Run(s, es))
  {
    var es := ReceiveEvents(s.conns[i], input, acl, now);
    match (s.conns[i], input)
    case (ListenerConn(_), FromClients(ds)) =>
      ReadClientsAlways(acl, ds, now, |s.searchers|);
      AlwaysPossible(s, es);
    case (SearcherConn(k), FromIocs(ds)) =>
      assert s.conns[i].SearcherConn? && k == s.conns[i].index < |s.searchers|;
      ReadIocsAlways(k, ds, now, |s.searchers|);
      AlwaysPossible(s, es);
    case (GuardConn(h), FromTcp(n)) =>
      assert s.conns[i].GuardConn? && h == s.conns[i].index < |s.guards|;
      OneEvent(s, es[0]);
      StepGrows(s, es[0]);
    case _ => AlwaysPossible(s, es);
  }

  /**
   * While callbacks append connections, slot i keeps naming the connection polled at slot i:
   * dispatching by index gives each input to the connection that was in the list at the poll.
   */
  lemma {:induction false} DispatchByIndex(s: System, t: System, i: nat, inputs: seq<Incoming>, acl: Acl, now: Time)
    requires Sane(s) && Sane(t) && Grown(s, t) && i + |inputs| <= |s.conns|
    ensures var es := InEvents(s.conns[i..], inputs, acl, now);
            Possible(t, es) && Grown(s, Run(t, es))
    decreases inputs
  {
    hide Sane, Possible, Run, ReceiveEvents, Grown;
    if inputs == [] {
      NoEvents(t);
    } else {
      SameSlot(s, t, i);
      var first := ReceiveEvents(t.conns[i], inputs[0], acl, now);
      ReceivePossible(t, i, inputs[0], acl, now);
      var u := Run(t, first);
      GrownTransitive(s, t, u);
      DispatchByIndex(s, u, i + 1, inputs[1..], acl, now);
      RunAppend(t, first, InEvents(s.conns[i + 1..], inputs[1..], acl, now));
      assert s.conns[i..][1..] == s.conns[i + 1..];
    }
  }

  lemma SameSlot(s: System, t: System, i: nat)
    requires Grown(s, t) && i < |s.conns|
    ensures i < |t.conns| && t.conns[i] == s.conns[i] == s.conns[i..][0]
  {
  }

  // ---------------------------------------------------------------- the polling phase

  function PollEvents(c: Conn, w: World, ticking: seq<bool>): seq<Event> {
    match c
    case ListenerConn(_) => []
    case SearcherConn(k) => if k < |ticking| && ticking[k] then [Ticking(k)] else []
    case GuardConn(h) => [Guarding(h, Heartbeat.Poll(w.now, h in w.writable, h in w.sendOk))]
  }

  /** Nothing happens to the list, nor to any connection but `c`. */
  ghost predicate OnlyTouches(s: System, c: Conn, t: System) {
    && t.conns == s.conns && |t.searchers| == |s.searchers| && |t.guards| == |s.guards|
    && forall x | x != c :: Connected(t, x) <==> Connected(s, x)
  }

  lemma TickTouches(s: System, k: nat)
    requires Sane(s) && k < |s.searchers|
    ensures OnlyTouches(s, SearcherConn(k), Step(s, Ticking(k)).0)
  {
    hide SearchWheel.Valid, SearchWheel.Tick;
  }

  lemma BeatTouches(s: System, h: nat, beat: Heartbeat.Event)
    requires Sane(s) && h < |s.guards|
    ensures OnlyTouches(s, GuardConn(h), Step(s, Guarding(h, beat)).0)
  {
    hide SearchWheel.Valid, Heartbeat.Step;
  }

  lemma ListedIndex(s: System, i: nat)
    requires Sane(s) && i < |s.conns|
    ensures s.conns[i].SearcherConn? ==> s.conns[i].index < |s.searchers|
    ensures s.conns[i].GuardConn? ==> s.conns[i].index < |s.guards|
  {
    hide SearchWheel.Valid;
  }

  /** Polling one listed connection touches neither the list nor any other guard. */
  lemma PollPossible(s: System, i: nat, w: World, ticking: seq<bool>)
    requires Sane(s) && i < |s.conns|
    ensures var es := PollEvents(s.conns[i], w, ticking);
            Possible(s, es) && OnlyTouches(s, s.conns[i], Run(s, es))
  {
    hide Sane, Step, Possible, Run, Connected;
    var es := PollEvents(s.conns[i], w, ticking);
    ListedIndex(s, i);
    NoEvents(s);
    match s.conns[i]
    case ListenerConn(_) =>
    case SearcherConn(k) =>
      if es != [] {
        OneEvent(s, es[0]);
        TickTouches(s, k);
      }
    case GuardConn(h) =>
      OneEvent(s, es[0]);
      BeatTouches(s, h, es[0].beat);
  }

  /** The sweep from position `i` on: poll, then step over the connection or erase it. */
  function SweepEvents(s: System, i: nat, w: World, ticking: seq<bool>): seq<Event>
    requires Sane(s)
    decreases |s.conns| - i
  {
    if i >= |s.conns| then []
    else
      PollPossible(s, i, w, ticking);
      var es := PollEvents(s.conns[i], w, ticking);
      var t := Run(s, es);
      if Connected(t, t.conns[i]) then es + SweepEvents(t, i + 1, w, ticking)
      else es + [Erasing(i)] + SweepEvents(EraseConn(t, i), i, w, ticking)
  }

  /** The connections of a list that are still connected in state `t`, in their order. */
  function Live(conns: seq<Conn>, t: System): seq<Conn> {
    if conns == [] then []
    else (if Connected(t, conns[0]) then [conns[0]] else []) + Live(conns[1..], t)
  }

  ghost predicate Distinct(conns: seq<Conn>) {
    forall i, j | 0 <= i < j < |conns| :: conns[i] != conns[j]
  }

  lemma {:induction false} LiveMember(conns: seq<Conn>, t: System, c: Conn)
    ensures c in Live(conns, t) <==> c in conns && Connected(t, c)
    decreases conns
  {
    if conns != [] {
      LiveMember(conns[1..], t, c);
    }
  }

  /** What the sweep has still to do to the list and leaves as it is. */
  ghost predicate Swept(s: System, i: nat, final: System) {
    && i <= |s.conns| && i <= |final.conns| && final.conns[..i] == s.conns[..i]
    && final.conns[i..] == Live(s.conns[i..], final)
    && forall c | c !in s.conns[i..] :: Connected(final, c) <==> Connected(s, c)
  }

  lemma SweptNothing(s: System, i: nat)
    requires i == |s.conns|
    ensures Swept(s, i, s)
  {
    assert s.conns[i..] == [];
  }

  lemma SweptKept(s: System, i: nat, t: System, final: System)
    requires i < |s.conns| && Distinct(s.conns) && t.conns == s.conns && Connected(t, s.conns[i])
    requires forall c | c != s.conns[i] :: Connected(t, c) <==> Connected(s, c)
    requires Swept(t, i + 1, final)
    ensures Swept(s, i, final)
  {
    hide Connected, Live, Distinct;
    var c := s.conns[i];
    PrefixOneMore(final.conns, s.conns, i);
    LiveCons(c, s.conns[i + 1..], final);
    forall x | x !in s.conns[i..] ensures Connected(final, x) <==> Connected(s, x) {
      assert x != c && x !in s.conns[i + 1..];
    }
  }

  lemma PrefixOneMore(a: seq<Conn>, b: seq<Conn>, i: nat)
    requires i < |b| && Distinct(b) && i < |a| && a[..i + 1] == b[..i + 1]
    ensures a[..i] == b[..i] && a[i..] == [b[i]] + a[i + 1..]
    ensures b[i..] == [b[i]] + b[i + 1..] && b[i] !in b[i + 1..]
  {
    assert a[..i] == a[..i + 1][..i] && b[..i] == b[..i + 1][..i];
    assert a[i] == a[..i + 1][i] && b[i] == b[..i + 1][i];
  }

  lemma LiveCons(c: Conn, conns: seq<Conn>, t: System)
    ensures Live([c] + conns, t) == if Connected(t, c) then [c] + Live(conns, t) else Live(conns, t)
  {
    assert ([c] + conns)[1..] == conns;
  }

  lemma SweptErased(s: System, i: nat, t: System, final: System)
    requires i < |s.conns| && Distinct(s.conns) && t.conns == s.conns && !Connected(t, s.conns[i])
    requires forall c | c != s.conns[i] :: Connected(t, c) <==> Connected(s, c)
    requires Swept(EraseConn(t, i), i, final)
    ensures Swept(s, i, final)
  {
    hide Live;
    var c := s.conns[i];
    var u := EraseConn(t, i);
    assert s.conns[i..] == [c] + s.conns[i + 1..];
    assert u.conns[i..] == s.conns[i + 1..] && u.conns[..i] == s.conns[..i];
    assert c !in s.conns[i + 1..];
    LiveCons(c, s.conns[i + 1..], final);
    assert forall x :: Connected(u, x) <==> Connected(t, x);
  }

  /** The sweep leaves the order-preserving filter of the connections that are still up. */
  lemma {:induction false} SweepFilters(s: System, i: nat, w: World, ticking: seq<bool>)
    requires Sane(s) && Distinct(s.conns) && i <= |s.conns|
    ensures var es := SweepEvents(s, i, w, ticking); Possible(s, es) && Swept(s, i, Run(s, es))
    decreases |s.conns| - i
  {
    hide Sane, Possible, Run, Swept, Connected;
    if i == |s.conns| {
      NoEvents(s);
      SweptNothing(s, i);
    } else {
      PollPossible(s, i, w, ticking);
      var es := PollEvents(s.conns[i], w, ticking);
      var t := Run(s, es);
      if Connected(t, t.conns[i]) {
        SweepFilters(t, i + 1, w, ticking);
        RunAppend(s, es, SweepEvents(t, i + 1, w, ticking));
        SweptKept(s, i, t, Run(t, SweepEvents(t, i + 1, w, ticking)));
      } else {
        var u := EraseConn(t, i);
        EraseIsEvent(t, i);
        DistinctErase(t.conns, i);
        SweepFilters(u, i, w, ticking);
        var rest := SweepEvents(u, i, w, ticking);
        RunAppend(s, es, [Erasing(i)]);
        RunAppend(s, es + [Erasing(i)], rest);
        SweptErased(s, i, t, Run(u, rest));
      }
    }
  }

  lemma EraseIsEvent(t: System, i: nat)
    requires Sane(t) && i < |t.conns| && !Connected(t, t.conns[i])
    ensures Possible(t, [Erasing(i)]) && Run(t, [Erasing(i)]) == EraseConn(t, i) && Sane(EraseConn(t, i))
  {
    hide Sane, SearchWheel.Valid, PvFound, PvSearched, GuardStep, SearcherTick, PurgeAll, ReplyArrived;
    OneEvent(t, Erasing(i));
  }

  lemma DistinctErase(conns: seq<Conn>, i: nat)
    requires Distinct(conns) && i < |conns|
    ensures Distinct(conns[..i] + conns[i + 1..])
  {
  }

  /**
   * After the sweep the list is the order-preserving filter of the live connections, and its
   * guards are exactly the values of the IOC table.
   */
  lemma ReactorIsConsistent(s: System, w: World, ticking: seq<bool>)
    requires Inv(s)
    ensures var es := SweepEvents(s, 0, w, ticking);
            && Possible(s, es)
            && var final := Run(s, es);
               && final.conns == Live(s.conns, final)
               && forall h :: GuardConn(h) in final.conns <==> h in final.iocs.Values
  {
    InvIsSane(s);
    SweepFilters(s, 0, w, ticking);
    var es := SweepEvents(s, 0, w, ticking);
    var final := Run(s, es);
    assert s.conns[0..] == s.conns && final.conns[0..] == final.conns;
    RunKeepsInv(s, es);
    hide SweepEvents, Run, Possible;
    forall h ensures GuardConn(h) in final.conns <==> h in final.iocs.Values {
      LiveMember(s.conns, final, GuardConn(h));
      TableValues(final, h);
    }
  }

  lemma TableValues(s: System, h: nat)
    requires Inv(s)
    ensures h in s.iocs.Values <==> h < |s.guards| && s.guards[h].alive
    ensures h in s.iocs.Values ==> GuardConn(h) in s.conns
  {
    hide SearchWheel.Valid;
    if h < |s.guards| && s.guards[h].alive {
      assert s.iocs[s.guards[h].addr] == h;
    }
    if h in s.iocs.Values {
      var a :| a in s.iocs && s.iocs[a] == h;
    }
  }

  // ---------------------------------------------------------------- what a method call does, as a relation

  /** The call is a client's search for `name`, answered with `rsp`. */
  ghost predicate Searches(s: System, name: PvName, now: Time, t: System, rsp: Bytes) {
    |name| <= MAX_NAME && Sane(s) && (t, rsp) == PvSearched(s, name, now)
  }

  /** The call is the announcement of a found PV. */
  ghost predicate Finds(s: System, name: PvName, addr: Addr, response: Bytes, created: bool, now: Time, t: System) {
    Sane(s) && t == PvFound(s, name, addr, response, created, now)
  }

  /** The call is the arrival of one reply, patched with the IOC's address. */
  ghost predicate Resolves(s: System, k: nat, id: Word32, addr: Addr, rsp: Bytes, created: bool, now: Time, t: System) {
    Sane(s) && k < |s.searchers| && t == ReplyArrived(s, k, id, addr, Patched(rsp, SetAddr(addr)), created, now).0
  }

  /** The call is one event of a guard. */
  ghost predicate Beats(s: System, h: nat, e: Heartbeat.Event, t: System) {
    Sane(s) && h < |s.guards| && t == GuardStep(s, h, e)
  }

  /** The call answers these requests, in order, with these packets. */
  ghost predicate Serves(s: System, wanted: seq<(Word32, PvName)>, now: Time, t: System, sent: seq<Bytes>) {
    ShortNames(wanted) && Tells(s, SearchEvents(wanted, now), AskersOf(wanted), t, sent)
  }

  /** The call reads these datagrams from clients, in order, and answers them with these packets. */
  ghost predicate ServesAll(s: System, acl: Acl, ds: seq<ClientDatagram>, now: Time, t: System, sent: seq<Bytes>) {
    Tells(s, ReadClients(acl, ds, now), ReadAsks(acl, ds), t, sent)
  }

  /** The call hands one connection its input; only listeners send anything back. */
  ghost predicate Receives(s: System, c: Conn, input: Incoming, acl: Acl, now: Time, t: System, sent: seq<Bytes>) {
    Tells(s, ReceiveEvents(c, input, acl, now), ReceiveAsks(c, input, acl, now), t, sent)
  }

  // ---------------------------------------------------------------- one step more

  lemma ServesNothing(s: System, now: Time)
    requires Sane(s)
    ensures Serves(s, [], now, s, [])
  {
    hide Sane;
    TellsNothing(s);
    assert SearchEvents([], now) == [] && AskersOf([]) == [];
  }

  lemma ServesOneMore(s: System, wanted: seq<(Word32, PvName)>, now: Time, t: System, sent: seq<Bytes>,
                      ask: (Word32, PvName), u: System, rsp: Bytes)
    requires Serves(s, wanted, now, t, sent) && Searches(t, ask.1, now, u, rsp)
    ensures Serves(s, wanted + [ask], now, u, sent + PacketFor(Answered(ask.1, rsp), Some(ask)))
  {
    hide Sane, Tells, PvSearched, PacketFor;
    TellsOne(t, ask.0, ask.1, now);
    TellsAppend(s, SearchEvents(wanted, now), AskersOf(wanted), t, sent,
                [Search(ask.1, now)], [Some(ask)], u, PacketFor(Answered(ask.1, rsp), Some(ask)));
    assert SearchEvents(wanted + [ask], now) == SearchEvents(wanted, now) + [Search(ask.1, now)];
    assert AskersOf(wanted + [ask]) == AskersOf(wanted) + [Some(ask)];
  }

  lemma ServesAllNothing(s: System, acl: Acl, now: Time)
    requires Sane(s)
    ensures ServesAll(s, acl, [], now, s, [])
  {
    hide Sane;
    TellsNothing(s);
  }

  lemma {:induction false} ReadsAppend(acl: Acl, ds: seq<ClientDatagram>, d: ClientDatagram, now: Time)
    ensures ReadClients(acl, ds + [d], now) == ReadClients(acl, ds, now) + ClientEvents(acl, d, now)
    ensures ReadAsks(acl, ds + [d]) == ReadAsks(acl, ds) + AskersOf(WantedIn(acl, d))
    decreases ds
  {
    hide ClientEvents, AskersOf, WantedIn;
    if ds == [] {
      assert ds + [d] == [d] && [d][1..] == [];
    } else {
      assert (ds + [d])[1..] == ds[1..] + [d];
      ReadsAppend(acl, ds[1..], d, now);
    }
  }

  lemma ServesAllOneMore(s: System, acl: Acl, ds: seq<ClientDatagram>, now: Time, t: System, sent: seq<Bytes>,
                         d: ClientDatagram, u: System, packets: seq<Bytes>)
    requires ServesAll(s, acl, ds, now, t, sent) && Serves(t, WantedIn(acl, d), now, u, packets)
    ensures ServesAll(s, acl, ds + [d], now, u, sent + packets)
  {
    hide Tells, WantedIn, ReadClients, ReadAsks, SearchEvents, AskersOf;
    ReadsAppend(acl, ds, d, now);
    TellsAppend(s, ReadClients(acl, ds, now), ReadAsks(acl, ds), t, sent,
                ClientEvents(acl, d, now), AskersOf(WantedIn(acl, d)), u, packets);
  }

  lemma {:induction false} InputsAppend(conns: seq<Conn>, inputs: seq<Incoming>, c: Conn, input: Incoming, acl: Acl,
                                        now: Time)
    requires |inputs| == |conns|
    ensures InEvents(conns + [c], inputs + [input], acl, now) ==
            InEvents(conns, inputs, acl, now) + ReceiveEvents(c, input, acl, now)
    ensures InAsks(conns + [c], inputs + [input], acl, now) ==
            InAsks(conns, inputs, acl, now) + ReceiveAsks(c, input, acl, now)
    decreases inputs
  {
    hide ReceiveEvents, ReceiveAsks;
    if inputs == [] {
      assert conns + [c] == [c] && inputs + [input] == [input];
      assert InEvents([c][1..], [input][1..], acl, now) == [] && InAsks([c][1..], [input][1..], acl, now) == [];
    } else {
      assert (conns + [c])[1..] == conns[1..] + [c] && (inputs + [input])[1..] == inputs[1..] + [input];
      InputsAppend(conns[1..], inputs[1..], c, input, acl, now);
    }
  }

  lemma {:induction false} ReadIocsSnoc(k: nat, ds: seq<IocDatagram>, now: Time, j: nat)
    requires j < |ds|
    ensures ReadIocs(k, ds[..j + 1], now) ==
            ReadIocs(k, ds[..j], now) + IocEvents(k, ds[j].data, ds[j].ip, ds[j].created, now)
    decreases j
  {
    hide IocEvents;
    if j == 0 {
      assert ds[..1][1..] == [] && ds[..0] == [];
    } else {
      ReadIocsSnoc(k, ds[1..], now, j - 1);
      assert ds[..j + 1][1..] == ds[1..][..j] && ds[..j][1..] == ds[1..][..j - 1];
    }
  }

  /** The dispatch loop has served the first `i` slots and got from `s` to `t`. */
  ghost predicate Dispatched(s: System, inputs: seq<Incoming>, acl: Acl, now: Time, i: nat, t: System,
                             sent: seq<Bytes>) {
    && i <= |inputs| <= |s.conns| && Grown(s, t)
    && Tells(s, InEvents(s.conns[..i], inputs[..i], acl, now), InAsks(s.conns[..i], inputs[..i], acl, now), t, sent)
  }

  lemma DispatchStart(s: System, inputs: seq<Incoming>, acl: Acl, now: Time)
    requires Sane(s) && |inputs| <= |s.conns|
    ensures Dispatched(s, inputs, acl, now, 0, s, [])
  {
    hide Sane;
    TellsNothing(s);
  }

  /** Slot `i` still holds the connection that was polled. */
  lemma SlotKept(s: System, inputs: seq<Incoming>, acl: Acl, now: Time, i: nat, t: System, sent: seq<Bytes>)
    requires Dispatched(s, inputs, acl, now, i, t, sent) && i < |inputs|
    ensures i < |t.conns| && i < |s.conns| && t.conns[i] == s.conns[i]
  {
    hide Tells;
    SameSlot(s, t, i);
  }

  lemma DispatchStep(s: System, inputs: seq<Incoming>, acl: Acl, now: Time, i: nat, t: System, sent: seq<Bytes>,
                     u: System, packets: seq<Bytes>)
    requires Dispatched(s, inputs, acl, now, i, t, sent) && i < |inputs| && i < |t.conns|
    requires Receives(t, t.conns[i], inputs[i], acl, now, u, packets)
    ensures Dispatched(s, inputs, acl, now, i + 1, u, sent + packets)
  {
    hide Tells, Grown, ReceiveEvents, ReceiveAsks, InEvents, InAsks, Sane, Run, Possible;
    SameSlot(s, t, i);
    var es, asks := ReceiveEvents(t.conns[i], inputs[i], acl, now), ReceiveAsks(t.conns[i], inputs[i], acl, now);
    TellsRuns(t, es, asks, u, packets);
    RunsTo(t, es, u);
    ReceivePossible(t, i, inputs[i], acl, now);
    GrownTransitive(s, t, u);
    InputsAppend(s.conns[..i], inputs[..i], s.conns[i], inputs[i], acl, now);
    TellsAppend(s, InEvents(s.conns[..i], inputs[..i], acl, now), InAsks(s.conns[..i], inputs[..i], acl, now), t, sent,
                es, asks, u, packets);
    assert s.conns[..i] + [s.conns[i]] == s.conns[..i + 1] && inputs[..i] + [inputs[i]] == inputs[..i + 1];
  }

  /** The whole dispatch is the run of all inputs, each given to the connection that was polled. */
  lemma DispatchIsRun(s: System, inputs: seq<Incoming>, acl: Acl, now: Time, t: System, sent: seq<Bytes>)
    requires Dispatched(s, inputs, acl, now, |inputs|, t, sent)
    ensures |inputs| <= |s.conns| && Grown(s, t)
    ensures var conns := s.conns[..|inputs|];
            && Tells(s, InEvents(conns, inputs, acl, now), InAsks(conns, inputs, acl, now), t, sent)
            && Runs(s, InEvents(conns, inputs, acl, now), t)
  {
    hide Grown, Tells, InEvents, InAsks;
    assert inputs[..|inputs|] == inputs;
    var conns := s.conns[..|inputs|];
    TellsRuns(s, InEvents(conns, inputs, acl, now), InAsks(conns, inputs, acl, now), t, sent);
  }

  /** The sweep has come to position `i`, got from `s` to `t` and sent `out`. */
  ghost predicate Sweeping(s: System, w: World, ticking: seq<bool>, i: nat, t: System, out: seq<Outgoing>) {
    && i <= |t.conns| && Sane(s) && Sane(t)
    && exists done :: Emits(s, done, t, out) && SweepEvents(s, 0, w, ticking) == done + SweepEvents(t, i, w, ticking)
  }

  lemma SweepStart(s: System, w: World, ticking: seq<bool>)
    requires Sane(s)
    ensures Sweeping(s, w, ticking, 0, s, [])
  {
    EmitsNothing(s);
    hide Sane, SweepEvents, Emits;
    assert SweepEvents(s, 0, w, ticking) == [] + SweepEvents(s, 0, w, ticking);
  }

  lemma SweepStep(s: System, w: World, ticking: seq<bool>, i: nat, t: System, out: seq<Outgoing>, u: System,
                  more: seq<Outgoing>)
    requires Sweeping(s, w, ticking, i, t, out) && i < |t.conns|
    requires Emits(t, PollEvents(t.conns[i], w, ticking), u, more)
    ensures u.conns == t.conns
    ensures Connected(u, u.conns[i]) ==> Sweeping(s, w, ticking, i + 1, u, out + more)
    ensures !Connected(u, u.conns[i]) ==> Sweeping(s, w, ticking, i, EraseConn(u, i), out + more)
  {
    hide Sane, SweepEvents, PollEvents, Connected, Possible, Run, EraseConn, Emits, Runs;
    PolledTo(t, i, w, ticking, u, more);
    if Connected(u, u.conns[i]) {
      SweepStepKept(s, w, ticking, i, t, out, u, more);
    } else {
      SweepStepErased(s, w, ticking, i, t, out, u, more);
    }
  }

  lemma PolledTo(t: System, i: nat, w: World, ticking: seq<bool>, u: System, more: seq<Outgoing>)
    requires Sane(t) && i < |t.conns| && Emits(t, PollEvents(t.conns[i], w, ticking), u, more)
    ensures Sane(u) && u.conns == t.conns
    ensures SweepEvents(t, i, w, ticking) ==
              PollEvents(t.conns[i], w, ticking) +
              if Connected(u, u.conns[i]) then SweepEvents(u, i + 1, w, ticking)
              else [Erasing(i)] + SweepEvents(EraseConn(u, i), i, w, ticking)
  {
    hide Sane, SweepEvents, PollEvents, Connected, Possible, Run, EraseConn, Emits;
    SweepUnfold(t, i, w, ticking);
    EmitsRuns(t, PollEvents(t.conns[i], w, ticking), u, more);
    RunsTo(t, PollEvents(t.conns[i], w, ticking), u);
    if !Connected(u, u.conns[i]) {
      EraseIsEvent(u, i);
      var es, rest := PollEvents(t.conns[i], w, ticking), SweepEvents(EraseConn(u, i), i, w, ticking);
      assert es + [Erasing(i)] + rest == es + ([Erasing(i)] + rest);
    }
  }

  lemma SweepStepKept(s: System, w: World, ticking: seq<bool>, i: nat, t: System, out: seq<Outgoing>, u: System,
                      more: seq<Outgoing>)
    requires Sweeping(s, w, ticking, i, t, out) && i < |t.conns|
             && Emits(t, PollEvents(t.conns[i], w, ticking), u, more)
    requires u.conns == t.conns && Connected(u, u.conns[i])
    ensures Sweeping(s, w, ticking, i + 1, u, out + more)
  {
    hide Sane, SweepEvents, PollEvents, Connected, Emits;
    PolledTo(t, i, w, ticking, u, more);
    var es := PollEvents(t.conns[i], w, ticking);
    var done :| Emits(s, done, t, out) && SweepEvents(s, 0, w, ticking) == done + SweepEvents(t, i, w, ticking);
    EmitsAppend(s, done, t, out, es, u, more);
    var rest := SweepEvents(u, i + 1, w, ticking);
    assert done + (es + rest) == (done + es) + rest;
  }

  lemma SweepStepErased(s: System, w: World, ticking: seq<bool>, i: nat, t: System, out: seq<Outgoing>, u: System,
                        more: seq<Outgoing>)
    requires Sweeping(s, w, ticking, i, t, out) && i < |t.conns|
             && Emits(t, PollEvents(t.conns[i], w, ticking), u, more)
    requires u.conns == t.conns && !Connected(u, u.conns[i])
    ensures Sweeping(s, w, ticking, i, EraseConn(u, i), out + more)
  {
    hide Sane, SweepEvents, PollEvents, Connected, Emits;
    PolledTo(t, i, w, ticking, u, more);
    var es, last, v := PollEvents(t.conns[i], w, ticking), [Erasing(i)], EraseConn(u, i);
    var done :| Emits(s, done, t, out) && SweepEvents(s, 0, w, ticking) == done + SweepEvents(t, i, w, ticking);
    EmitsAppend(s, done, t, out, es, u, more);
    EraseEmits(u, i);
    EmitsAppend(s, done + es, u, out + more, last, v, []);
    assert out + more + [] == out + more;
    var rest := SweepEvents(v, i, w, ticking);
    assert done + (es + (last + rest)) == (done + es + last) + rest;
  }

  lemma EraseEmits(u: System, i: nat)
    requires Sane(u) && i < |u.conns| && !Connected(u, u.conns[i])
    ensures Emits(u, [Erasing(i)], EraseConn(u, i), []) && Sane(EraseConn(u, i))
            && |EraseConn(u, i).conns| == |u.conns| - 1
  {
    hide Sane, Emits, Connected;
    EraseIsEvent(u, i);
    OneEvent(u, Erasing(i));
    EmitsOne(u, Erasing(i), []);
  }

  lemma SweepUnfold(t: System, i: nat, w: World, ticking: seq<bool>)
    requires Sane(t) && i < |t.conns|
    ensures var es := PollEvents(t.conns[i], w, ticking);
            && Possible(t, es)
            && var u := Run(t, es);
               && u.conns == t.conns
               && SweepEvents(t, i, w, ticking) ==
                    if Connected(u, u.conns[i]) then es + SweepEvents(u, i + 1, w, ticking)
                    else es + [Erasing(i)] + SweepEvents(EraseConn(u, i), i, w, ticking)
  {
    hide Sane, Possible, Run, Connected;
    PollPossible(t, i, w, ticking);
  }

  lemma SweepEnd(s: System, w: World, ticking: seq<bool>, t: System, out: seq<Outgoing>)
    requires Sweeping(s, w, ticking, |t.conns|, t, out)
    ensures Emits(s, SweepEvents(s, 0, w, ticking), t, out)
  {
    hide Sane, Emits;
    var done :| Emits(s, done, t, out) && SweepEvents(s, 0, w, ticking) == done + SweepEvents(t, |t.conns|, w, ticking);
    assert done + [] == done;
  }

  lemma {:induction false} WantedSnoc(acl: Acl, requests: seq<(Word32, PvName)>, client: IPv4, j: nat)
    requires j < |requests|
    ensures var name := StripField(requests[j].1);
            Wanted(acl, requests[..j + 1], client) ==
            if name != [] && Allowed(acl, name, client)
            then Wanted(acl, requests[..j], client) + [(requests[j].0, name)]
            else Wanted(acl, requests[..j], client)
    decreases j
  {
    hide Allowed, StripField, Wanted;
    WantedNothing(acl, requests[..0], client);
    WantedCons(acl, requests[..j + 1], client);
    if j == 0 {
      assert requests[..1][1..] == requests[..0];
    } else {
      WantedCons(acl, requests[..j], client);
      WantedSnoc(acl, requests[1..], client, j - 1);
      assert requests[..j + 1][1..] == requests[1..][..j] && requests[..j][1..] == requests[1..][..j - 1];
    }
  }

  lemma WantedNothing(acl: Acl, requests: seq<(Word32, PvName)>, client: IPv4)
    requires requests == []
    ensures Wanted(acl, requests, client) == []
  {
  }

  lemma WantedCons(acl: Acl, requests: seq<(Word32, PvName)>, client: IPv4)
    requires requests != []
    ensures var name := StripField(requests[0].1);
            Wanted(acl, requests, client) ==
            (if name != [] && Allowed(acl, name, client) then [(requests[0].0, name)] else [])
            + Wanted(acl, requests[1..], client)
  {
    hide Allowed, StripField;
  }

  // ---------------------------------------------------------------- one turn of the main loop

  function AfterPurge(s: System, purge: Option<Word32>, now: Time): System
    requires Sane(s)
  {
    match purge
    case Some(maxtime) => PurgeAll(s, now, maxtime)
    case None => s
  }

  /**
   * Dispatch, sweep and perhaps a purge lead from `s` to `t`; `sent` are the packets to
   * clients, `out` those to IOCs.
   */
  ghost predicate Turn(s: System, inputs: seq<Incoming>, acl: Acl, w: World, ticking: seq<bool>, purge: Option<Word32>,
                       t: System, sent: seq<Bytes>, out: seq<Outgoing>) {
    exists m1, m2 ::
      && Dispatched(s, inputs, acl, w.now, |inputs|, m1, sent)
      && Sane(m1) && Emits(m1, SweepEvents(m1, 0, w, ticking), m2, out)
      && Sane(m2) && t == AfterPurge(m2, purge, w.now)
  }

  /** The events of a turn, in order. */
  function TurnEvents(s: System, inputs: seq<Incoming>, acl: Acl, w: World, ticking: seq<bool>,
                      purge: Option<Word32>): seq<Event>
    requires Sane(s) && |inputs| <= |s.conns|
  {
    var received := InEvents(s.conns[..|inputs|], inputs, acl, w.now);
    if !Possible(s, received) then []
    else
      received + SweepEvents(Run(s, received), 0, w, ticking)
      + (match purge case Some(maxtime) => [Purging(w.now, maxtime)] case None => [])
  }

  lemma TurnFrom(s: System, inputs: seq<Incoming>, acl: Acl, w: World, ticking: seq<bool>, purge: Option<Word32>,
                 m1: System, m2: System, sent: seq<Bytes>, out: seq<Outgoing>)
    requires Sane(m1) && Dispatched(s, inputs, acl, w.now, |inputs|, m1, sent)
    requires Emits(m1, SweepEvents(m1, 0, w, ticking), m2, out)
    ensures Sane(m2) && Turn(s, inputs, acl, w, ticking, purge, AfterPurge(m2, purge, w.now), sent, out)
  {
    hide Dispatched, SweepEvents, AfterPurge, Sane, Run, Possible, Emits;
    EmitsRuns(m1, SweepEvents(m1, 0, w, ticking), m2, out);
    RunsTo(m1, SweepEvents(m1, 0, w, ticking), m2);
  }

  /** The two phases of a turn as runs. */
  lemma TurnPhases(s: System, inputs: seq<Incoming>, acl: Acl, w: World, ticking: seq<bool>, purge: Option<Word32>,
                   t: System, sent: seq<Bytes>, out: seq<Outgoing>) returns (m1: System, m2: System)
    requires Turn(s, inputs, acl, w, ticking, purge, t, sent, out)
    ensures Dispatched(s, inputs, acl, w.now, |inputs|, m1, sent) && |inputs| <= |s.conns| && Grown(s, m1)
    ensures Sane(s) && Sane(m1) && Sane(m2)
    ensures var conns := s.conns[..|inputs|];
            && Tells(s, InEvents(conns, inputs, acl, w.now), InAsks(conns, inputs, acl, w.now), m1, sent)
            && Runs(s, InEvents(conns, inputs, acl, w.now), m1)
    ensures Runs(m1, SweepEvents(m1, 0, w, ticking), m2) && Emits(m1, SweepEvents(m1, 0, w, ticking), m2, out)
    ensures t == AfterPurge(m2, purge, w.now)
  {
    hide Dispatched, Grown, Tells, InEvents, InAsks, SweepEvents, AfterPurge, Sane, Run, Possible, Emits;
    m1, m2 :| Dispatched(s, inputs, acl, w.now, |inputs|, m1, sent) && Sane(m1)
              && Emits(m1, SweepEvents(m1, 0, w, ticking), m2, out) && Sane(m2) && t == AfterPurge(m2, purge, w.now);
    DispatchIsRun(s, inputs, acl, w.now, m1, sent);
    RunsTo(s, InEvents(s.conns[..|inputs|], inputs, acl, w.now), m1);
    EmitsRuns(m1, SweepEvents(m1, 0, w, ticking), m2, out);
  }

  /**
   * Every turn is a run of events, so everything proved of runs holds of the main loop; it
   * keeps the invariant, and leaves exactly the live connections, in their order, with the
   * guards of the IOC table among them.
   */
  lemma TurnKeepsInv(s: System, inputs: seq<Incoming>, acl: Acl, w: World, ticking: seq<bool>, purge: Option<Word32>,
                     t: System, sent: seq<Bytes>, out: seq<Outgoing>)
    requires Inv(s) && Turn(s, inputs, acl, w, ticking, purge, t, sent, out)
    ensures Sane(s) && |inputs| <= |s.conns| && Runs(s, TurnEvents(s, inputs, acl, w, ticking, purge), t) && Inv(t)
    ensures forall h :: GuardConn(h) in t.conns <==> h in t.iocs.Values
    ensures forall c :: c in t.conns && c in s.conns <==> c in s.conns && Connected(t, c)
  {
    hide Inv, Dispatched, Grown, Tells, Emits, InEvents, SweepEvents, AfterPurge, Sane, Run, Possible, Connected,
         Turn;
    var m1, m2 := TurnPhases(s, inputs, acl, w, ticking, purge, t, sent, out);
    var first, second := InEvents(s.conns[..|inputs|], inputs, acl, w.now), SweepEvents(m1, 0, w, ticking);
    RunsTo(s, first, m1);
    RunsTo(m1, second, m2);
    RunKeepsInv(s, first);
    RunKeepsInv(m1, second);
    ReactorIsConsistent(m1, w, ticking);
    RunsAppend(s, first, m1, second, m2);
    forall c ensures c in t.conns && c in s.conns <==> c in s.conns && Connected(t, c) {
      LiveMember(m1.conns, m2, c);
      GrownKeeps(s, m1, c);
      PurgeShowsNot(m2, purge, w.now, c);
    }
    PurgeShowsNot(m2, purge, w.now, ListenerConn(0));
    if purge.Some? {
      PurgeIsEvent(m2, w.now, purge.value);
      RunsAppend(s, first + second, m2, [Purging(w.now, purge.value)], t);
      PurgeKeeps(m2, w.now, purge.value);
      assert t == PurgeAll(m2, w.now, purge.value) by { AfterPurgeIs(m2, purge.value, w.now); }
    } else {
      NoPurgeIs(m2, w.now);
      assert first + second + [] == first + second;
    }
  }

  lemma AfterPurgeIs(s: System, maxtime: Word32, now: Time)
    requires Sane(s)
    ensures AfterPurge(s, Some(maxtime), now) == PurgeAll(s, now, maxtime)
  {
  }

  lemma NoPurgeIs(s: System, now: Time)
    requires Sane(s)
    ensures AfterPurge(s, None, now) == s
  {
  }

  lemma PurgeIsEvent(s: System, now: Time, maxtime: Word32)
    requires Sane(s)
    ensures Runs(s, [Purging(now, maxtime)], PurgeAll(s, now, maxtime))
    ensures AfterPurge(s, Some(maxtime), now) == PurgeAll(s, now, maxtime)
  {
    RunsOne(s, Purging(now, maxtime));
  }

  lemma PurgeShowsNot(s: System, purge: Option<Word32>, now: Time, c: Conn)
    requires Sane(s)
    ensures var t := AfterPurge(s, purge, now);
            t.conns == s.conns && t.iocs == s.iocs && (Connected(t, c) <==> Connected(s, c))
  {
    hide SearchWheel.Valid, SearchWheel.Purge;
  }

  lemma GrownKeeps(s: System, t: System, c: Conn)
    requires Grown(s, t)
    ensures c in s.conns ==> c in t.conns
  {
    if c in s.conns {
      var i :| 0 <= i < |s.conns| && s.conns[i] == c;
      assert t.conns[i] == c;
    }
  }
}
