/**
 * What a run of the server puts on the network: packets to clients, read off the trace with the
 * requests they answer, and the search requests and heartbeats of the polling phase.
 */
module Traces {
  import opened Prelude
  import opened ChannelAccess
  import opened CodecLaws
  import opened NameServer

  // ---------------------------------------------------------------- runs put together

  lemma NoEvents(s: System)
    requires Sane(s)
    ensures Possible(s, []) && Run(s, []) == s && Trace(s, []) == []
  {
  }

  lemma OneEvent(s: System, e: Event)
    requires Sane(s) && Enabled(s, e)
    ensures Possible(s, [e]) && Run(s, [e]) == Step(s, e).0 && Trace(s, [e]) == [Step(s, e).1]
  {
    hide Sane, Step, Enabled;
    assert [e][1..] == [];
    NoEvents(Step(s, e).0);
  }

  lemma {:induction false} RunAppend(s: System, es: seq<Event>, fs: seq<Event>)
    requires Sane(s) && Possible(s, es) && Possible(Run(s, es), fs)
    ensures Possible(s, es + fs) && Run(s, es + fs) == Run(Run(s, es), fs)
    ensures Trace(s, es + fs) == Trace(s, es) + Trace(Run(s, es), fs)
    decreases es
  {
    hide Sane, Step, Enabled;
    if es == [] {
      assert es + fs == fs;
    } else {
      assert (es + fs)[1..] == es[1..] + fs && (es + fs)[0] == es[0];
      RunAppend(Step(s, es[0]).0, es[1..], fs);
    }
  }

  /** The part of a run before event `j`, and what is seen of event `j`. */
  lemma {:induction false} RunUntil(s: System, es: seq<Event>, j: nat)
    requires Sane(s) && Possible(s, es) && j <= |es|
    ensures Possible(s, es[..j]) && Possible(Run(s, es[..j]), es[j..])
    ensures Run(s, es) == Run(Run(s, es[..j]), es[j..]) && Trace(s, es[..j]) == Trace(s, es)[..j]
    ensures j < |es| ==> Enabled(Run(s, es[..j]), es[j]) && Trace(s, es)[j] == Step(Run(s, es[..j]), es[j]).1
    decreases j
  {
    hide Sane, Step, Enabled;
    if j == 0 {
      assert es[..0] == [] && es[0..] == es;
    } else {
      RunUntil(Step(s, es[0]).0, es[1..], j - 1);
      assert es[..j][1..] == es[1..][..j - 1] && es[1..][j - 1..] == es[j..];
    }
  }

  /** The call is this run of events. */
  ghost predicate Runs(s: System, es: seq<Event>, t: System) {
    Sane(s) && Possible(s, es) && t == Run(s, es)
  }

  lemma RunsTo(s: System, es: seq<Event>, t: System)
    requires Runs(s, es, t)
    ensures Sane(s) && Sane(t) && Possible(s, es) && t == Run(s, es)
  {
    hide Sane;
  }

  lemma RunsAppend(s: System, es: seq<Event>, t: System, fs: seq<Event>, u: System)
    requires Runs(s, es, t) && Runs(t, fs, u)
    ensures Runs(s, es + fs, u)
  {
    hide Sane;
    RunAppend(s, es, fs);
  }

  lemma RunsNothing(s: System)
    requires Sane(s)
    ensures Runs(s, [], s)
  {
    hide Sane;
    NoEvents(s);
  }

  lemma RunsOne(s: System, e: Event)
    requires Sane(s) && Enabled(s, e)
    ensures Runs(s, [e], Step(s, e).0)
  {
    hide Sane, Step;
    OneEvent(s, e);
  }

  // ---------------------------------------------------------------- packets to clients

  /** The request that an event is about, if it is a client's: the id to answer to and the name. */
  type Ask = Option<(Word32, PvName)>

  function NoAsks(n: nat): (asks: seq<Ask>)
    ensures |asks| == n && forall j | 0 <= j < n :: asks[j] == None
  {
    seq(n, _ => None)
  }

  /** The packet for one request: the answer that was seen, under the asker's own channel id. */
  function PacketFor(seen: Seen, ask: Ask): (packets: seq<Bytes>)
    ensures |packets| <= 1
  {
    if ask.Some? && seen.Answered? && seen.response != [] then [Patched(seen.response, SetId(ask.value.0))] else []
  }

  /** The packets sent back, in order. */
  function Packets(trace: seq<Seen>, asks: seq<Ask>): seq<Bytes>
    requires |trace| == |asks|
    decreases trace
  {
    if trace == [] then [] else PacketFor(trace[0], asks[0]) + Packets(trace[1..], asks[1..])
  }

  lemma {:induction false} PacketsAppend(t1: seq<Seen>, a1: seq<Ask>, t2: seq<Seen>, a2: seq<Ask>)
    requires |t1| == |a1| && |t2| == |a2|
    ensures Packets(t1 + t2, a1 + a2) == Packets(t1, a1) + Packets(t2, a2)
    decreases t1
  {
    hide PacketFor;
    if t1 == [] {
      assert t1 + t2 == t2 && a1 + a2 == a2;
    } else {
      assert (t1 + t2)[1..] == t1[1..] + t2 && (a1 + a2)[1..] == a1[1..] + a2;
      PacketsAppend(t1[1..], a1[1..], t2, a2);
    }
  }

  lemma {:induction false} PacketsOfNone(trace: seq<Seen>, asks: seq<Ask>)
    requires |trace| == |asks| && forall j | 0 <= j < |asks| :: asks[j].None?
    ensures Packets(trace, asks) == []
    decreases trace
  {
    if trace != [] {
      PacketsOfNone(trace[1..], asks[1..]);
    }
  }

  /** A packet is sent exactly if some event calls for it. */
  lemma {:induction false} PacketsMember(trace: seq<Seen>, asks: seq<Ask>, p: Bytes)
    requires |trace| == |asks|
    ensures p in Packets(trace, asks) <==> exists j | 0 <= j < |trace| :: p in PacketFor(trace[j], asks[j])
    decreases trace
  {
    hide PacketFor;
    if trace != [] {
      PacketsMember(trace[1..], asks[1..], p);
      if p in PacketFor(trace[0], asks[0]) {
        assert 0 < |trace|;
      }
      if j :| 0 <= j < |trace[1..]| && p in PacketFor(trace[1..][j], asks[1..][j]) {
        assert p in PacketFor(trace[j + 1], asks[j + 1]);
      }
      if j :| 0 < j < |trace| && p in PacketFor(trace[j], asks[j]) {
        assert trace[1..][j - 1] == trace[j] && asks[1..][j - 1] == asks[j];
      }
    }
  }

  /** `idx` are the events that call for packets, in order, and `packets` are theirs. */
  ghost predicate InOrder(trace: seq<Seen>, asks: seq<Ask>, idx: seq<nat>, packets: seq<Bytes>)
    requires |trace| == |asks|
  {
    && |idx| == |packets| && Increasing(idx, |trace|)
    && (forall i | 0 <= i < |idx| :: PacketFor(trace[idx[i]], asks[idx[i]]) == [packets[i]])
    && (forall j | 0 <= j < |trace| :: j in idx <==> PacketFor(trace[j], asks[j]) != [])
  }

  /** Which events call for packets: each packet is for one event, and no event has two. */
  lemma {:induction false} PacketsInOrder(trace: seq<Seen>, asks: seq<Ask>) returns (idx: seq<nat>)
    requires |trace| == |asks|
    ensures InOrder(trace, asks, idx, Packets(trace, asks))
    decreases trace
  {
    hide PacketFor, PlusOne;
    if trace == [] {
      idx := [];
    } else {
      hide InOrder;
      var rest := PacketsInOrder(trace[1..], asks[1..]);
      var first, packets := PacketFor(trace[0], asks[0]), Packets(trace[1..], asks[1..]);
      if first == [] {
        idx := PlusOne(rest);
        NoneInOrder(trace, asks, rest, packets);
        assert first + packets == packets;
      } else {
        idx := [0] + PlusOne(rest);
        OneMoreInOrder(trace, asks, rest, packets);
      }
    }
  }

  lemma NoneInOrder(trace: seq<Seen>, asks: seq<Ask>, rest: seq<nat>, packets: seq<Bytes>)
    requires |trace| == |asks| > 0 && InOrder(trace[1..], asks[1..], rest, packets)
    requires PacketFor(trace[0], asks[0]) == []
    ensures InOrder(trace, asks, PlusOne(rest), packets)
  {
    hide PacketFor, PlusOne;
    PlusOneIncreases(rest, |trace[1..]|);
    forall j | 0 <= j < |trace| ensures j in PlusOne(rest) <==> PacketFor(trace[j], asks[j]) != [] {
      PlusOneMember(rest, j);
      if j > 0 {
        LaterMember(trace, asks, rest, packets, j);
      }
    }
    forall i | 0 <= i < |rest| ensures PacketFor(trace[PlusOne(rest)[i]], asks[PlusOne(rest)[i]]) == [packets[i]] {
      LaterPacket(trace, asks, rest, packets, i);
    }
  }

  lemma OneMoreInOrder(trace: seq<Seen>, asks: seq<Ask>, rest: seq<nat>, packets: seq<Bytes>)
    requires |trace| == |asks| > 0 && InOrder(trace[1..], asks[1..], rest, packets)
    requires PacketFor(trace[0], asks[0]) != []
    ensures InOrder(trace, asks, [0] + PlusOne(rest), PacketFor(trace[0], asks[0]) + packets)
  {
    hide PacketFor, PlusOne;
    PlusOneIncreases(rest, |trace[1..]|);
    var idx, all := [0] + PlusOne(rest), PacketFor(trace[0], asks[0]) + packets;
    forall j | 0 <= j < |trace| ensures j in idx <==> PacketFor(trace[j], asks[j]) != [] {
      PlusOneMember(rest, j);
      if j > 0 {
        LaterMember(trace, asks, rest, packets, j);
      }
    }
    forall i | 0 <= i < |idx| ensures PacketFor(trace[idx[i]], asks[idx[i]]) == [all[i]] {
      PacketAt(trace, asks, rest, packets, i);
    }
  }

  lemma PacketAt(trace: seq<Seen>, asks: seq<Ask>, rest: seq<nat>, packets: seq<Bytes>, i: nat)
    requires |trace| == |asks| > 0 && InOrder(trace[1..], asks[1..], rest, packets) && i <= |rest|
    requires PacketFor(trace[0], asks[0]) != []
    ensures var idx := [0] + PlusOne(rest);
            idx[i] < |trace| && PacketFor(trace[idx[i]], asks[idx[i]]) == [(PacketFor(trace[0], asks[0]) + packets)[i]]
  {
    hide PacketFor, PlusOne;
    if i > 0 {
      LaterPacket(trace, asks, rest, packets, i - 1);
    }
  }

  lemma LaterMember(trace: seq<Seen>, asks: seq<Ask>, rest: seq<nat>, packets: seq<Bytes>, j: nat)
    requires |trace| == |asks| && 0 < j < |trace| && InOrder(trace[1..], asks[1..], rest, packets)
    ensures j - 1 in rest <==> PacketFor(trace[j], asks[j]) != []
  {
    hide PacketFor;
    assert trace[1..][j - 1] == trace[j] && asks[1..][j - 1] == asks[j];
  }

  lemma LaterPacket(trace: seq<Seen>, asks: seq<Ask>, rest: seq<nat>, packets: seq<Bytes>, i: nat)
    requires |trace| == |asks| > 0 && InOrder(trace[1..], asks[1..], rest, packets) && i < |rest|
    ensures rest[i] + 1 < |trace| && PacketFor(trace[rest[i] + 1], asks[rest[i] + 1]) == [packets[i]]
  {
    hide PacketFor;
  }

  /** The call is this run, made for these requests, and `sent` are the packets to clients. */
  ghost predicate Tells(s: System, es: seq<Event>, asks: seq<Ask>, t: System, sent: seq<Bytes>) {
    Runs(s, es, t) && Sane(s) && Possible(s, es) && |asks| == |es| && sent == Packets(Trace(s, es), asks)
  }

  lemma TellsNothing(s: System)
    requires Sane(s)
    ensures Tells(s, [], [], s, [])
  {
    hide Sane;
    RunsNothing(s);
  }

  lemma TellsRuns(s: System, es: seq<Event>, asks: seq<Ask>, t: System, sent: seq<Bytes>)
    requires Tells(s, es, asks, t, sent)
    ensures Runs(s, es, t) && |asks| == |es|
  {
    hide Sane, Runs, Possible;
  }

  lemma TellsNoOne(s: System, es: seq<Event>, t: System)
    requires Runs(s, es, t)
    ensures Tells(s, es, NoAsks(|es|), t, [])
  {
    hide Sane, Possible;
    PacketsOfNone(Trace(s, es), NoAsks(|es|));
  }

  lemma TellsAppend(s: System, es: seq<Event>, asks: seq<Ask>, t: System, sent: seq<Bytes>,
                    fs: seq<Event>, more: seq<Ask>, u: System, packets: seq<Bytes>)
    requires Tells(s, es, asks, t, sent) && Tells(t, fs, more, u, packets)
    ensures Tells(s, es + fs, asks + more, u, sent + packets)
  {
    hide Sane, Possible, Run, Trace, Packets;
    RunAppend(s, es, fs);
    PacketsAppend(Trace(s, es), asks, Trace(t, fs), more);
  }

  /** One search, with the packet that answers it. */
  lemma TellsOne(s: System, id: Word32, name: PvName, now: Time)
    requires Sane(s) && |name| <= MAX_NAME
    ensures var (t, rsp) := PvSearched(s, name, now);
            Tells(s, [Search(name, now)], [Some((id, name))], t, PacketFor(Answered(name, rsp), Some((id, name))))
  {
    hide Sane, PvSearched, PacketFor;
    OneEvent(s, Search(name, now));
    var seen := Step(s, Search(name, now)).1;
    assert Trace(s, [Search(name, now)]) == [seen];
    PacketsOfOne(seen, Some((id, name)));
  }

  lemma PacketsOfOne(seen: Seen, ask: Ask)
    ensures Packets([seen], [ask]) == PacketFor(seen, ask)
  {
    hide PacketFor;
    assert Packets([seen][1..], [ask][1..]) == [];
  }

  // ---------------------------------------------------------------- requests to IOCs

  /** What the polling phase sends: the packets of one searcher, or an echo request. */
  datatype Outgoing = SearchPackets(searcher: nat, packets: seq<Bytes>) | EchoRequest(guard: nat, version: bool)

  /** The part of a trace that goes to IOCs. */
  function ToIocs(trace: seq<Seen>): seq<Seen> {
    if trace == [] then [] else (if trace[0].Queried? || trace[0].Beat? then [trace[0]] else []) + ToIocs(trace[1..])
  }

  /** The packets of a searcher decode to exactly the requests that were seen. */
  ghost predicate Carries(out: Outgoing, seen: Seen) {
    match (out, seen)
    case (SearchPackets(k, packets), Queried(i, pvs)) => k == i && Received(packets) == OnWire(pvs)
    case (EchoRequest(h, version), Beat(g, flag)) => h == g && version == flag
    case _ => false
  }

  /** The call is this run, and `out` is what it sends to IOCs, in order. */
  ghost predicate Emits(s: System, es: seq<Event>, t: System, out: seq<Outgoing>) {
    && Runs(s, es, t) && Sane(s) && Possible(s, es)
    && var sends := ToIocs(Trace(s, es));
       |out| == |sends| && forall i | 0 <= i < |out| :: Carries(out[i], sends[i])
  }

  lemma ToIocsCons(x: Seen, rest: seq<Seen>)
    ensures ToIocs([x] + rest) == (if x.Queried? || x.Beat? then [x] else []) + ToIocs(rest)
    ensures ToIocs([]) == []
  {
    assert ([x] + rest)[1..] == rest;
  }

  lemma {:induction false} ToIocsAppend(a: seq<Seen>, b: seq<Seen>)
    ensures ToIocs(a + b) == ToIocs(a) + ToIocs(b)
    decreases a
  {
    hide ToIocs;
    if a == [] {
      assert a + b == b;
      ToIocsCons(Other, []);
    } else {
      ToIocsAppend(a[1..], b);
      ToIocsCons(a[0], a[1..] + b);
      ToIocsCons(a[0], a[1..]);
      assert [a[0]] + (a[1..] + b) == a + b && [a[0]] + a[1..] == a;
    }
  }

  lemma EmitsNothing(s: System)
    requires Sane(s)
    ensures Emits(s, [], s, [])
  {
    hide Sane;
    RunsNothing(s);
  }

  lemma EmitsRuns(s: System, es: seq<Event>, t: System, out: seq<Outgoing>)
    requires Emits(s, es, t, out)
    ensures Runs(s, es, t)
  {
    hide Sane, Runs, Possible, Carries;
  }

  lemma EmitsAppend(s: System, es: seq<Event>, t: System, out: seq<Outgoing>, fs: seq<Event>, u: System,
                    more: seq<Outgoing>)
    requires Emits(s, es, t, out) && Emits(t, fs, u, more)
    ensures Emits(s, es + fs, u, out + more)
  {
    hide Sane, Possible, Run, Trace, ToIocs, Carries;
    RunAppend(s, es, fs);
    ToIocsAppend(Trace(s, es), Trace(t, fs));
  }

  lemma EmitsOne(s: System, e: Event, out: seq<Outgoing>)
    requires Sane(s) && Enabled(s, e)
    requires var seen := Step(s, e).1;
             if seen.Queried? || seen.Beat? then |out| == 1 && Carries(out[0], seen) else out == []
    ensures Emits(s, [e], Step(s, e).0, out)
  {
    hide Sane, Step, Carries;
    OneEvent(s, e);
    assert ToIocs([Step(s, e).1][1..]) == [];
  }
}
