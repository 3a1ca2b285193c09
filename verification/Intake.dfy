/**
 * What a dispatch hands on, item by item: each reply in a datagram that a searcher reads, each
 * chunk that a guard hears and each admitted request of a client becomes one event, in order,
 * and there are no others.
 */
module Intake {
  import opened Prelude
  import opened Framing
  import opened ChannelAccess
  import opened CodecLaws
  import opened NameServer
  import opened CacheLaws
  import opened ServerLaws
  import opened AccessControl
  import opened Reactor
  import opened Traces
  import opened History
  import opened Detection
  import SearchWheel
  import Heartbeat
  import Promptness

  // ---------------------------------------------------------------- replies

  /** The replies among the events that go to searcher `k`. */
  function RepliesTo(es: seq<Event>, k: nat): seq<Event> {
    if es == [] then []
    else (if es[0].Reply? && es[0].searcher == k then [es[0]] else []) + RepliesTo(es[1..], k)
  }

  lemma {:induction false} RepliesToAppend(es: seq<Event>, fs: seq<Event>, k: nat)
    ensures RepliesTo(es + fs, k) == RepliesTo(es, k) + RepliesTo(fs, k)
    decreases es
  {
    if es == [] {
      assert es + fs == fs;
    } else {
      assert (es + fs)[1..] == es[1..] + fs;
      RepliesToAppend(es[1..], fs, k);
    }
  }

  lemma {:induction false} RepliesToAll(es: seq<Event>, k: nat)
    requires forall i | 0 <= i < |es| :: es[i].Reply? && es[i].searcher == k
    ensures RepliesTo(es, k) == es
    decreases es
  {
    if es != [] {
      assert forall i | 0 <= i < |es[1..]| :: es[1..][i] == es[i + 1];
      RepliesToAll(es[1..], k);
    }
  }

  lemma {:induction false} RepliesToNone(es: seq<Event>, k: nat)
    requires forall i | 0 <= i < |es| :: !(es[i].Reply? && es[i].searcher == k)
    ensures RepliesTo(es, k) == []
    decreases es
  {
    if es != [] {
      assert forall i | 0 <= i < |es[1..]| :: es[1..][i] == es[i + 1];
      RepliesToNone(es[1..], k);
    }
  }

  /** Where in the events the `x`-th of these replies stands. */
  lemma {:induction false} PositionOf(es: seq<Event>, k: nat, x: nat) returns (p: nat)
    requires x < |RepliesTo(es, k)|
    ensures p < |es| && es[p] == RepliesTo(es, k)[x]
    decreases es
  {
    var mine := es[0].Reply? && es[0].searcher == k;
    if mine && x == 0 {
      p := 0;
    } else {
      p := PositionOf(es[1..], k, if mine then x - 1 else x);
      p := p + 1;
    }
  }

  /** The replies that the parser finds in a datagram. */
  function RepliesIn(d: IocDatagram): seq<(Word32, Bytes)> {
    Replies(Frames(d.data), [])
  }

  /** How many replies the first `q` datagrams hold. */
  function Before(ds: seq<IocDatagram>, q: nat): nat
    requires q <= |ds|
  {
    if q == 0 then 0 else Before(ds, q - 1) + |RepliesIn(ds[q - 1])|
  }

  /** The event is the `j`-th reply of the datagram, for the IOC at the sender's address and the first reply's port. */
  predicate IsReplyOf(e: Event, k: nat, d: IocDatagram, j: nat, now: Time)
    requires j < |RepliesIn(d)|
  {
    match ReplyPort(Frames(d.data))
    case None => false
    case Some(port) =>
      e == Reply(k, RepliesIn(d)[j].0, Addr(d.ip, port), Patched(RepliesIn(d)[j].1, SetAddr(Addr(d.ip, port))),
                 j < |d.created| && d.created[j], now)
  }

  /** The `j`-th reply of the `q`-th datagram, if there is one, is at its place in order. */
  predicate InPlace(es: seq<Event>, k: nat, ds: seq<IocDatagram>, q: nat, j: nat, now: Time) {
    q < |ds| && j < |RepliesIn(ds[q])| ==>
      Before(ds, q) + j < |es| && IsReplyOf(es[Before(ds, q) + j], k, ds[q], j, now)
  }

  /** The events are the replies of these datagrams: each once, in order, and no other. */
  ghost predicate AreRepliesOf(es: seq<Event>, k: nat, ds: seq<IocDatagram>, now: Time) {
    |es| == Before(ds, |ds|) && forall q: nat, j: nat :: InPlace(es, k, ds, q, j, now)
  }

  lemma DatagramEvents(k: nat, d: IocDatagram, now: Time)
    ensures var es := IocEvents(k, d.data, d.ip, d.created, now);
            && |es| == |RepliesIn(d)|
            && forall j | 0 <= j < |es| :: es[j].Reply? && es[j].searcher == k && IsReplyOf(es[j], k, d, j, now)
  {
    PortOfFirstReply(Frames(d.data), []);
    hide Frames, Replies, ReplyPort, Patched;
  }

  lemma BeforeGrows(ds: seq<IocDatagram>, d: IocDatagram, q: nat)
    requires q <= |ds|
    ensures Before(ds + [d], q) == Before(ds, q)
  {
    hide RepliesIn;
  }

  lemma OneDatagramMore(es: seq<Event>, more: seq<Event>, k: nat, ds: seq<IocDatagram>, d: IocDatagram, now: Time)
    requires AreRepliesOf(es, k, ds, now) && |more| == |RepliesIn(d)|
    requires forall j | 0 <= j < |more| :: IsReplyOf(more[j], k, d, j, now)
    ensures AreRepliesOf(es + more, k, ds + [d], now)
  {
    hide IsReplyOf, RepliesIn, Before;
    var all, n := es + more, |ds|;
    BeforeGrows(ds, d, n);
    BeforeLast(ds, d);
    forall q: nat, j: nat ensures InPlace(all, k, ds + [d], q, j, now) {
      if q < n {
        BeforeGrows(ds, d, q);
        assert (ds + [d])[q] == ds[q] && InPlace(es, k, ds, q, j, now);
        if j < |RepliesIn(ds[q])| {
          assert all[Before(ds, q) + j] == es[Before(ds, q) + j];
        }
      } else if q == n && j < |more| {
        assert all[|es| + j] == more[j];
      }
    }
  }

  lemma BeforeLast(ds: seq<IocDatagram>, d: IocDatagram)
    ensures Before(ds + [d], |ds| + 1) == Before(ds + [d], |ds|) + |RepliesIn(d)|
  {
    hide RepliesIn;
    assert (ds + [d])[|ds|] == d;
  }

  lemma {:induction false} ReadingReplies(k: nat, ds: seq<IocDatagram>, now: Time)
    ensures forall i | 0 <= i < |ReadIocs(k, ds, now)| ::
              ReadIocs(k, ds, now)[i].Reply? && ReadIocs(k, ds, now)[i].searcher == k
    decreases ds
  {
    hide IocEvents, IsReplyOf;
    if ds != [] {
      DatagramEvents(k, ds[0], now);
      ReadingReplies(k, ds[1..], now);
    }
  }

  lemma {:induction false} ReadingIsExact(k: nat, ds: seq<IocDatagram>, now: Time)
    ensures AreRepliesOf(ReadIocs(k, ds, now), k, ds, now)
    decreases |ds|
  {
    hide AreRepliesOf, IsReplyOf, ReadIocs, IocEvents, RepliesIn;
    if ds == [] {
      NothingToRead(k, ds, now);
    } else {
      var n := |ds| - 1;
      ReadingIsExact(k, ds[..n], now);
      ReadIocsSnoc(k, ds, now, n);
      assert ds[..n + 1] == ds && ds[..n] + [ds[n]] == ds;
      DatagramEvents(k, ds[n], now);
      var es, more := ReadIocs(k, ds[..n], now), IocEvents(k, ds[n].data, ds[n].ip, ds[n].created, now);
      OneDatagramMore(es, more, k, ds[..n], ds[n], now);
    }
  }

  lemma NothingToRead(k: nat, ds: seq<IocDatagram>, now: Time)
    requires ds == []
    ensures AreRepliesOf(ReadIocs(k, ds, now), k, ds, now)
  {
  }

  /** The datagrams that searcher `k` reads in a dispatch. */
  predicate ReadsAt(conns: seq<Conn>, inputs: seq<Incoming>, i: nat, k: nat, ds: seq<IocDatagram>)
    requires |inputs| <= |conns|
  {
    i < |inputs| && conns[i] == SearcherConn(k) && inputs[i] == FromIocs(ds)
  }

  lemma SlotReplies(c: Conn, input: Incoming, acl: Acl, now: Time, k: nat)
    ensures RepliesTo(ReceiveEvents(c, input, acl, now), k) ==
            if c == SearcherConn(k) && input.FromIocs? then ReadIocs(k, input.replies, now) else []
  {
    match (c, input) {
      case (ListenerConn(_), FromClients(ds)) =>
        SearchesNoReply(acl, ds, now);
        RepliesToNone(ReadClients(acl, ds, now), k);
      case (SearcherConn(m), FromIocs(ds)) =>
        ReadingReplies(m, ds, now);
        hide ReadIocs;
        if m != k {
          RepliesToNone(ReadIocs(m, ds, now), k);
        } else {
          RepliesToAll(ReadIocs(m, ds, now), k);
        }
      case (GuardConn(h), FromTcp(n)) =>
        assert [Guarding(h, Heartbeat.Recv(now, n))][1..] == [];
      case _ =>
    }
  }

  lemma {:induction false} SearchesNoReply(acl: Acl, ds: seq<ClientDatagram>, now: Time)
    ensures forall i | 0 <= i < |ReadClients(acl, ds, now)| :: ReadClients(acl, ds, now)[i].Search?
    decreases ds
  {
    hide WantedIn;
    if ds != [] {
      SearchesNoReply(acl, ds[1..], now);
    }
  }

  lemma {:induction false} NothingRead(conns: seq<Conn>, inputs: seq<Incoming>, acl: Acl, now: Time, k: nat)
    requires |inputs| <= |conns| && forall i | 0 <= i < |inputs| :: conns[i] == SearcherConn(k) ==> !inputs[i].FromIocs?
    ensures RepliesTo(InEvents(conns, inputs, acl, now), k) == []
    decreases inputs
  {
    hide ReceiveEvents;
    if inputs != [] {
      SlotReplies(conns[0], inputs[0], acl, now, k);
      assert forall i | 0 <= i < |inputs[1..]| :: conns[1..][i] == conns[i + 1] && inputs[1..][i] == inputs[i + 1];
      NothingRead(conns[1..], inputs[1..], acl, now, k);
      RepliesToAppend(ReceiveEvents(conns[0], inputs[0], acl, now), InEvents(conns[1..], inputs[1..], acl, now), k);
    }
  }

  lemma {:induction false} ReadOnce(conns: seq<Conn>, inputs: seq<Incoming>, acl: Acl, now: Time, i: nat, k: nat,
                                    ds: seq<IocDatagram>)
    requires |inputs| <= |conns| && Distinct(conns) && ReadsAt(conns, inputs, i, k, ds)
    ensures RepliesTo(InEvents(conns, inputs, acl, now), k) == ReadIocs(k, ds, now)
    decreases inputs
  {
    hide ReceiveEvents, ReadIocs;
    SlotReplies(conns[0], inputs[0], acl, now, k);
    RepliesToAppend(ReceiveEvents(conns[0], inputs[0], acl, now), InEvents(conns[1..], inputs[1..], acl, now), k);
    assert forall x | 0 <= x < |conns[1..]| :: conns[1..][x] == conns[x + 1];
    assert forall x | 0 <= x < |inputs[1..]| :: inputs[1..][x] == inputs[x + 1];
    if i == 0 {
      assert forall x | 0 <= x < |conns[1..]| :: conns[1..][x] != conns[0];
      NothingRead(conns[1..], inputs[1..], acl, now, k);
    } else {
      ReadOnce(conns[1..], inputs[1..], acl, now, i - 1, k, ds);
    }
  }

  /**
   * Every reply in every datagram that a searcher reads in a turn is handed on to it once, in
   * order, with the sender's address and the first reply's port; it gets no other.
   */
  lemma RepliesArrive(conns: seq<Conn>, inputs: seq<Incoming>, acl: Acl, now: Time, k: nat)
    requires |inputs| <= |conns| && Distinct(conns)
    ensures forall i, ds :: ReadsAt(conns, inputs, i, k, ds) ==>
              AreRepliesOf(RepliesTo(InEvents(conns, inputs, acl, now), k), k, ds, now)
    ensures (forall i | 0 <= i < |inputs| :: conns[i] == SearcherConn(k) ==> !inputs[i].FromIocs?) ==>
              RepliesTo(InEvents(conns, inputs, acl, now), k) == []
  {
    hide InEvents, AreRepliesOf, ReadIocs;
    forall i, ds | ReadsAt(conns, inputs, i, k, ds)
      ensures AreRepliesOf(RepliesTo(InEvents(conns, inputs, acl, now), k), k, ds, now)
    {
      ReadOnce(conns, inputs, acl, now, i, k, ds);
      ReadingIsExact(k, ds, now);
    }
    if forall i | 0 <= i < |inputs| :: conns[i] == SearcherConn(k) ==> !inputs[i].FromIocs? {
      NothingRead(conns, inputs, acl, now, k);
    }
  }

  // ---------------------------------------------------------------- what guards hear

  lemma SlotHears(c: Conn, input: Incoming, acl: Acl, now: Time, h: nat)
    ensures GuardEvents(ReceiveEvents(c, input, acl, now), h) ==
            if c == GuardConn(h) && input.FromTcp? then [Heartbeat.Recv(now, input.recvd)] else []
  {
    if c == GuardConn(h) && input.FromTcp? {
      assert [Guarding(h, Heartbeat.Recv(now, input.recvd))][1..] == [];
    } else {
      ReceiveIsSilent(c, input, acl, now, h);
    }
  }

  /** What a guard's socket yields is handed to that guard once, at the time of the turn. */
  lemma {:induction false} GuardsHear(conns: seq<Conn>, inputs: seq<Incoming>, acl: Acl, now: Time, i: nat, h: nat)
    requires |inputs| <= |conns| && Distinct(conns) && i < |inputs| && conns[i] == GuardConn(h)
    ensures GuardEvents(InEvents(conns, inputs, acl, now), h) ==
            if inputs[i].FromTcp? then [Heartbeat.Recv(now, inputs[i].recvd)] else []
    decreases inputs
  {
    hide ReceiveEvents;
    SlotHears(conns[0], inputs[0], acl, now, h);
    GuardEventsAppend(ReceiveEvents(conns[0], inputs[0], acl, now), InEvents(conns[1..], inputs[1..], acl, now), h);
    assert forall x | 0 <= x < |conns[1..]| :: conns[1..][x] == conns[x + 1];
    assert forall x | 0 <= x < |inputs[1..]| :: inputs[1..][x] == inputs[x + 1];
    if i == 0 {
      assert forall x | 0 <= x < |conns[1..]| :: conns[1..][x] != conns[0];
      DispatchIsSilent(conns[1..], inputs[1..], acl, now, h);
    } else {
      GuardsHear(conns[1..], inputs[1..], acl, now, i - 1, h);
    }
  }

  // ---------------------------------------------------------------- what clients ask

  lemma {:induction false} ReadSearches(acl: Acl, ds: seq<ClientDatagram>, now: Time)
    ensures forall j | 0 <= j < |ReadAsks(acl, ds)| :: ReadAsks(acl, ds)[j].Some?
    decreases ds
  {
    hide WantedIn;
    if ds != [] {
      ReadSearches(acl, ds[1..], now);
    }
  }

  lemma SlotSearches(c: Conn, input: Incoming, acl: Acl, now: Time)
    ensures var es, asks := ReceiveEvents(c, input, acl, now), ReceiveAsks(c, input, acl, now);
            |es| == |asks| && forall j | 0 <= j < |es| :: es[j].Search? <==> asks[j].Some?
  {
    ReceiveAsksMatch(c, input, acl, now);
    match (c, input) {
      case (ListenerConn(_), FromClients(ds)) => ReadSearches(acl, ds, now);
      case (SearcherConn(m), FromIocs(ds)) => ReadingReplies(m, ds, now);
      case _ =>
    }
  }

  /** A search in a dispatch is always for a client's request. */
  lemma {:induction false} SearchesAreAsked(conns: seq<Conn>, inputs: seq<Incoming>, acl: Acl, now: Time)
    requires |inputs| <= |conns|
    ensures var es, asks := InEvents(conns, inputs, acl, now), InAsks(conns, inputs, acl, now);
            |es| == |asks| && forall j | 0 <= j < |es| :: es[j].Search? <==> asks[j].Some?
    decreases inputs
  {
    hide ReceiveEvents, ReceiveAsks;
    if inputs != [] {
      SlotSearches(conns[0], inputs[0], acl, now);
      SearchesAreAsked(conns[1..], inputs[1..], acl, now);
    }
  }

  /** The requests behind these events, in order. */
  function Asked(asks: seq<Ask>): seq<(Word32, PvName)> {
    if asks == [] then [] else (if asks[0].Some? then [asks[0].value] else []) + Asked(asks[1..])
  }

  lemma {:induction false} AskedAppend(a: seq<Ask>, b: seq<Ask>)
    ensures Asked(a + b) == Asked(a) + Asked(b)
    decreases a
  {
    if a == [] {
      assert a + b == b;
    } else {
      assert (a + b)[1..] == a[1..] + b;
      AskedAppend(a[1..], b);
    }
  }

  lemma {:induction false} AskedBack(wanted: seq<(Word32, PvName)>)
    ensures Asked(AskersOf(wanted)) == wanted
    decreases wanted
  {
    if wanted != [] {
      assert AskersOf(wanted)[1..] == AskersOf(wanted[1..]);
      AskedBack(wanted[1..]);
    }
  }

  lemma {:induction false} AskedOfNone(n: nat)
    ensures Asked(NoAsks(n)) == []
    decreases n
  {
    if n > 0 {
      assert NoAsks(n)[1..] == NoAsks(n - 1);
      AskedOfNone(n - 1);
    }
  }

  /** What the clients of these datagrams are to be served, datagram by datagram. */
  function WantedBy(acl: Acl, ds: seq<ClientDatagram>): seq<(Word32, PvName)> {
    if ds == [] then [] else Wanted(acl, Requests(Frames(ds[0].data)), ds[0].client) + WantedBy(acl, ds[1..])
  }

  /** And slot by slot: only listeners read requests. */
  function WantedByAll(acl: Acl, conns: seq<Conn>, inputs: seq<Incoming>): seq<(Word32, PvName)>
    requires |inputs| <= |conns|
    decreases inputs
  {
    if inputs == [] then []
    else
      (if conns[0].ListenerConn? && inputs[0].FromClients? then WantedBy(acl, inputs[0].requests) else [])
      + WantedByAll(acl, conns[1..], inputs[1..])
  }

  lemma {:induction false} ReadAsked(acl: Acl, ds: seq<ClientDatagram>)
    ensures Asked(ReadAsks(acl, ds)) == WantedBy(acl, ds)
    decreases ds
  {
    hide Wanted, Requests, Frames, AskersOf;
    if ds != [] {
      AskedAppend(AskersOf(WantedIn(acl, ds[0])), ReadAsks(acl, ds[1..]));
      AskedBack(WantedIn(acl, ds[0]));
      ReadAsked(acl, ds[1..]);
    }
  }

  /** Each admitted request of each datagram that a listener reads is served once, in order, and no other. */
  lemma {:induction false} RequestsArrive(conns: seq<Conn>, inputs: seq<Incoming>, acl: Acl, now: Time)
    requires |inputs| <= |conns|
    ensures Asked(InAsks(conns, inputs, acl, now)) == WantedByAll(acl, conns, inputs)
    decreases inputs
  {
    hide ReceiveEvents, ReadAsks, WantedBy, Asked, NoAsks;
    if inputs == [] {
      NothingAsked();
    } else {
      if conns[0].ListenerConn? && inputs[0].FromClients? {
        ReadAsked(acl, inputs[0].requests);
      } else {
        AskedOfNone(|ReceiveEvents(conns[0], inputs[0], acl, now)|);
      }
      RequestsArrive(conns[1..], inputs[1..], acl, now);
      AskedAppend(ReceiveAsks(conns[0], inputs[0], acl, now), InAsks(conns[1..], inputs[1..], acl, now));
    }
  }

  lemma NothingAsked()
    ensures Asked([]) == []
  {
  }

  /** The `r`-th request of the datagram is for this record, with this id, and the rules let it through. */
  predicate Makes(acl: Acl, d: ClientDatagram, ask: (Word32, PvName), r: nat) {
    && r < |Requests(Frames(d.data))| && Requests(Frames(d.data))[r].0 == ask.0
    && StripField(Requests(Frames(d.data))[r].1) == ask.1 && Admitted(acl, ask.1, d.client)
  }

  lemma WantedMember(acl: Acl, d: ClientDatagram, ask: (Word32, PvName))
    ensures ask in WantedIn(acl, d) <==> exists r :: Makes(acl, d, ask, r)
  {
    hide Requests, Frames, StripField, Admitted, Wanted;
    var requests := Requests(Frames(d.data));
    var idx := WantedExactly(acl, requests, d.client);
    if ask in WantedIn(acl, d) {
      var i :| 0 <= i < |idx| && WantedIn(acl, d)[i] == ask;
      assert idx[i] in idx;
      assert Makes(acl, d, ask, idx[i]);
    }
    if exists r :: Makes(acl, d, ask, r) {
      var r :| Makes(acl, d, ask, r);
      assert r in idx;
      var i :| 0 <= i < |idx| && idx[i] == r;
      assert WantedIn(acl, d)[i] == ask;
    }
  }

  /** A listener has read a datagram that makes this request. */
  ghost predicate AskedBy(conns: seq<Conn>, inputs: seq<Incoming>, acl: Acl, ask: (Word32, PvName),
                          k: nat, d: ClientDatagram, r: nat) {
    && k < |inputs| <= |conns| && conns[k].ListenerConn? && inputs[k].FromClients? && d in inputs[k].requests
    && Makes(acl, d, ask, r)
  }

  /** Exactly the requests that some client has made and the rules let through are served. */
  lemma RequestedExactly(conns: seq<Conn>, inputs: seq<Incoming>, acl: Acl, ask: (Word32, PvName))
    ensures Requested(conns, inputs, acl, ask) <==> exists k, d, r :: AskedBy(conns, inputs, acl, ask, k, d, r)
  {
    hide Makes, WantedIn;
    if Requested(conns, inputs, acl, ask) {
      var k, d :| 0 <= k < |inputs| <= |conns| && conns[k].ListenerConn? && inputs[k].FromClients?
                  && d in inputs[k].requests && ask in WantedIn(acl, d);
      WantedMember(acl, d, ask);
      var r :| Makes(acl, d, ask, r);
      assert AskedBy(conns, inputs, acl, ask, k, d, r);
    }
    if exists k, d, r :: AskedBy(conns, inputs, acl, ask, k, d, r) {
      var k: nat, d, r: nat :| AskedBy(conns, inputs, acl, ask, k, d, r);
      WantedMember(acl, d, ask);
    }
  }

  /** A name that the rules admit for none of the clients of a turn is neither searched for nor answered in it. */
  lemma DeniedIsIgnored(conns: seq<Conn>, inputs: seq<Incoming>, acl: Acl, now: Time, name: PvName)
    requires |inputs| <= |conns|
    requires forall k, d | 0 <= k < |inputs| && inputs[k].FromClients? && d in inputs[k].requests ::
               !Admitted(acl, name, d.client)
    ensures var es, asks := InEvents(conns, inputs, acl, now), InAsks(conns, inputs, acl, now);
            && |es| == |asks|
            && (forall j | 0 <= j < |es| && es[j].Search? :: es[j].name != name)
            && (forall j | 0 <= j < |asks| && asks[j].Some? :: asks[j].value.1 != name)
  {
    hide InEvents, InAsks, Admitted, Requested, AskedBy;
    SearchesAreAsked(conns, inputs, acl, now);
    AsksAreRequests(conns, inputs, acl, now);
    var asks := InAsks(conns, inputs, acl, now);
    forall j | 0 <= j < |asks| && asks[j].Some? ensures asks[j].value.1 != name {
      assert Some(asks[j].value) in asks;
      RequestedExactly(conns, inputs, acl, asks[j].value);
      NotAdmitted(conns, inputs, acl, asks[j].value, name);
    }
  }

  lemma NotAdmitted(conns: seq<Conn>, inputs: seq<Incoming>, acl: Acl, ask: (Word32, PvName), name: PvName)
    requires exists k, d, r :: AskedBy(conns, inputs, acl, ask, k, d, r)
    requires forall k, d | 0 <= k < |inputs| && inputs[k].FromClients? && d in inputs[k].requests ::
               !Admitted(acl, name, d.client)
    ensures ask.1 != name
  {
    hide Admitted, Requests, Frames, StripField;
    var k, d, r :| AskedBy(conns, inputs, acl, ask, k, d, r);
  }

  // ---------------------------------------------------------------- a reply is served

  lemma EventSplit(es: seq<Event>, p: nat)
    requires p < |es|
    ensures es[p..] == [es[p]] + es[p + 1..]
  {
  }

  /** What follows event `p` of a run. */
  lemma RunFrom(s: System, es: seq<Event>, p: nat)
    requires Sane(s) && Possible(s, es) && p < |es|
    ensures Possible(s, es[..p]) && Enabled(Run(s, es[..p]), es[p])
    ensures var u := Step(Run(s, es[..p]), es[p]).0;
            && Possible(u, es[p + 1..]) && Run(s, es) == Run(u, es[p + 1..])
            && Trace(u, es[p + 1..]) == Trace(s, es)[p + 1..]
  {
    hide Sane, Step, Enabled;
    RunUntil(s, es, p);
    EventSplit(es, p);
    var m := Run(s, es[..p]);
    TraceCons(m, es[p..]);
    assert es[..p] + es[p..] == es && es[p..][1..] == es[p + 1..] && es[p..][0] == es[p];
    RunAppend(s, es[..p], es[p..]);
    assert Trace(s, es) == Trace(s, es[..p]) + Trace(m, es[p..]);
  }

  /**
   * From a datagram to later requests: if event `p` of a history is a reply that searcher `k`
   * finds for a name, with a guard to be had, then every request for that name after the last
   * turn is answered with it, unless its IOC has disconnected in between.
   */
  lemma ReplyIsServed(states: seq<System>, acl: Acl, turns: seq<TurnLog>, p: nat, m: System, name: PvName, later: Time)
    requires Turns(states, acl, turns) && Inv(states[0]) && Sane(states[0]) && |name| <= MAX_NAME
    requires Possible(states[0], PastEvents(states, acl, turns, |turns|))
    requires var es := PastEvents(states, acl, turns, |turns|);
             && p < |es| && es[p].Reply? && Runs(states[0], es[..p], m) && Sane(m) && es[p].searcher < |m.searchers|
             && SearchWheel.Resolve(m.searchers[es[p].searcher], es[p].id).1 == Some(name)
             && (es[p].addr in m.iocs || es[p].created)
             && forall i | p < i < |es| :: Trace(states[0], es)[i] != Disconnected(es[p].addr)
    ensures Sane(states[|turns|]) && PvSearched(states[|turns|], name, later).1 ==
            PastEvents(states, acl, turns, |turns|)[p].response
  {
    var es := PastEvents(states, acl, turns, |turns|);
    hide Inv, Turns, Sane, Run, Possible, Trace, PvSearched, ReplyArrived, SearchWheel.Resolve, PastEvents;
    HistoryIsRun(states, acl, turns, |turns|);
    RunsTo(states[0], es, states[|turns|]);
    RunsTo(states[0], es[..p], m);
    RunKeepsInv(states[0], es[..p]);
    RunFrom(states[0], es, p);
    var e := es[p];
    ReplyStep(m, e);
    var tail := Trace(states[0], es)[p + 1..];
    forall i | 0 <= i < |tail| ensures tail[i] != Disconnected(e.addr) {
      assert tail[i] == Trace(states[0], es)[p + 1 + i];
    }
    Promptness.FoundIsServed(m, e.searcher, e.id, e.addr, e.response, e.created, e.now, es[p + 1..], name, later);
  }

  lemma ReplyStep(m: System, e: Event)
    requires Sane(m) && Enabled(m, e) && e.Reply?
    ensures Step(m, e).0 == ReplyArrived(m, e.searcher, e.id, e.addr, e.response, e.created, e.now).0
  {
    hide Sane, ReplyArrived;
  }

  lemma FirstTurnFirst(states: seq<System>, acl: Acl, turns: seq<TurnLog>, k: nat)
    requires Turns(states, acl, turns) && 1 <= k <= |turns|
    ensures EventsOf(states[0], acl, turns[0]) <= PastEvents(states, acl, turns, k)
    decreases k
  {
    hide Turns, EventsOf;
    TurnsSize(states, acl, turns);
    if k == 1 {
      assert PastEvents(states, acl, turns, 0) == [];
      assert [] + EventsOf(states[0], acl, turns[0]) == EventsOf(states[0], acl, turns[0]);
    } else {
      FirstTurnFirst(states, acl, turns, k - 1);
    }
  }

  lemma ReceivedFirst(s: System, acl: Acl, log: TurnLog, t: System)
    requires Inv(s) && IsTurn(s, acl, log, t)
    ensures |log.inputs| <= |s.conns| && Distinct(s.conns)
    ensures InEvents(s.conns[..|log.inputs|], log.inputs, acl, log.world.now) <= EventsOf(s, acl, log)
  {
    hide Inv, Turn, Dispatched, Grown, Tells, Emits, InEvents, SweepEvents, AfterPurge, Sane, Run, Possible, Distinct;
    ListIsDistinct(s);
    var m1, m2 := TurnPhases(s, log.inputs, acl, log.world, log.ticking, log.purge, t, log.sent, log.out);
    RunsTo(s, InEvents(s.conns[..|log.inputs|], log.inputs, acl, log.world.now), m1);
  }

  /** The reply at event `p` is found by its searcher, with a guard to be had, and its IOC stays. */
  ghost predicate Accepted(s: System, es: seq<Event>, p: nat, name: PvName) {
    && Sane(s) && Possible(s, es) && |name| <= MAX_NAME && p < |es| && es[p].Reply?
    && (forall i | p < i < |es| :: Trace(s, es)[i] != Disconnected(es[p].addr))
    && exists m :: Runs(s, es[..p], m) && Sane(m) && es[p].searcher < |m.searchers|
                   && SearchWheel.Resolve(m.searchers[es[p].searcher], es[p].id).1 == Some(name)
                   && (es[p].addr in m.iocs || es[p].created)
  }

  /** Every request for the name is answered with this in state `t`. */
  ghost predicate ServedWith(t: System, name: PvName, response: Bytes) {
    Sane(t) && |name| <= MAX_NAME && forall later :: PvSearched(t, name, later).1 == response
  }

  lemma AcceptedIsServed(states: seq<System>, acl: Acl, turns: seq<TurnLog>, p: nat, name: PvName)
    requires Turns(states, acl, turns) && Inv(states[0])
    requires Accepted(states[0], PastEvents(states, acl, turns, |turns|), p, name)
    ensures p < |PastEvents(states, acl, turns, |turns|)| && PastEvents(states, acl, turns, |turns|)[p].Reply?
    ensures ServedWith(states[|turns|], name, PastEvents(states, acl, turns, |turns|)[p].response)
  {
    hide Inv, Turns, Possible, PvSearched, SearchWheel.Resolve, SearchWheel.Valid, PastEvents, Runs, Trace;
    TurnsSize(states, acl, turns);
    var es := PastEvents(states, acl, turns, |turns|);
    var m :| Runs(states[0], es[..p], m) && Sane(m) && es[p].searcher < |m.searchers|
             && SearchWheel.Resolve(m.searchers[es[p].searcher], es[p].id).1 == Some(name)
             && (es[p].addr in m.iocs || es[p].created);
    HistoryIsRun(states, acl, turns, |turns|);
    RunsTo(states[0], es, states[|turns|]);
    forall later ensures PvSearched(states[|turns|], name, later).1 == es[p].response {
      ReplyIsServed(states, acl, turns, p, m, name, later);
    }
  }

  /**
   * Each reply of a datagram that a searcher reads in the first of these turns is an event of
   * that turn; and if it is accepted for a name there, and its IOC stays, every request for the
   * name after the last of the turns is answered with it, patched with the IOC's address.
   */
  lemma DatagramIsServed(states: seq<System>, acl: Acl, turns: seq<TurnLog>, i: nat, k: nat, ds: seq<IocDatagram>,
                         q: nat, j: nat) returns (p: nat)
    requires Turns(states, acl, turns) && Inv(states[0]) && turns != []
    requires |turns[0].inputs| <= |states[0].conns|
    requires ReadsAt(states[0].conns[..|turns[0].inputs|], turns[0].inputs, i, k, ds)
    requires q < |ds| && j < |RepliesIn(ds[q])|
    ensures var es := PastEvents(states, acl, turns, |turns|);
            && p < |InEvents(states[0].conns[..|turns[0].inputs|], turns[0].inputs, acl, turns[0].world.now)| <= |es|
            && IsReplyOf(es[p], k, ds[q], j, turns[0].world.now) && es[p].Reply?
            && forall name | Accepted(states[0], es, p, name) :: ServedWith(states[|turns|], name, es[p].response)
  {
    hide Inv, Turns, IsTurn, PastEvents, EventsOf, InEvents, Accepted, ServedWith, RepliesIn, IsReplyOf, Distinct;
    TurnAt(states, acl, turns, 0);
    var s, log := states[0], turns[0];
    var conns := s.conns[..|log.inputs|];
    ReceivedFirst(s, acl, log, states[1]);
    FirstTurnFirst(states, acl, turns, |turns|);
    PrefixDistinct(s.conns, |log.inputs|);
    RepliesArrive(conns, log.inputs, acl, log.world.now, k);
    var received := InEvents(conns, log.inputs, acl, log.world.now);
    var replies := RepliesTo(received, k);
    assert AreRepliesOf(replies, k, ds, log.world.now);
    assert InPlace(replies, k, ds, q, j, log.world.now);
    p := PositionOf(received, k, Before(ds, q) + j);
    IsAReply(PastEvents(states, acl, turns, |turns|)[p], k, ds[q], j, log.world.now);
    forall name | Accepted(s, PastEvents(states, acl, turns, |turns|), p, name)
      ensures ServedWith(states[|turns|], name, PastEvents(states, acl, turns, |turns|)[p].response)
    {
      AcceptedIsServed(states, acl, turns, p, name);
    }
  }

  lemma IsAReply(e: Event, k: nat, d: IocDatagram, j: nat, now: Time)
    requires j < |RepliesIn(d)| && IsReplyOf(e, k, d, j, now)
    ensures e.Reply?
  {
  }

  lemma PrefixDistinct(conns: seq<Conn>, n: nat)
    requires Distinct(conns) && n <= |conns|
    ensures Distinct(conns[..n])
  {
  }
}
