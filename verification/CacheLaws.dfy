/**
 * What holds in every reachable state of the name server: guards and the IOC table are in
 * bijection, cached and searched-for names exclude each other, and the lazily invalidated
 * cache answers as an eagerly cleaned one would.
 */
module CacheLaws {
  import opened Prelude
  import opened NameServer
  import opened Asked
  import SearchWheel
  import Heartbeat
  import ChannelAccess

  // ---------------------------------------------------------------- the invariant

  /** Every table entry is a live guard at its own key, and every live guard is in the table. */
  ghost predicate Bijection(s: System)
    requires Sane(s)
  {
    && (forall a | a in s.iocs :: s.guards[s.iocs[a]].alive && s.guards[s.iocs[a]].addr == a)
    && (forall h | 0 <= h < |s.guards| && s.guards[h].alive ::
          s.guards[h].addr in s.iocs && s.iocs[s.guards[h].addr] == h)
  }

  /** A name that is cached with a live guard is being searched for nowhere. */
  ghost predicate Exclusive(s: System)
    requires Sane(s)
  {
    forall name, i | CachedLive(s, name) && 0 <= i < |s.searchers| :: name !in AskedFor(s.searchers[i])
  }

  /** No connection is listed twice, and no live guard is missing. */
  ghost predicate Listed(s: System)
    requires Sane(s)
  {
    && (forall i, j | 0 <= i < j < |s.conns| :: s.conns[i] != s.conns[j])
    && (forall h | 0 <= h < |s.guards| && s.guards[h].alive :: GuardConn(h) in s.conns)
  }

  ghost predicate AllIndexed(s: System) {
    forall i | 0 <= i < |s.searchers| :: Indexed(s.searchers[i])
  }

  ghost predicate Inv(s: System) {
    Sane(s) && AllIndexed(s) && Bijection(s) && Exclusive(s) && Listed(s)
  }

  // ---------------------------------------------------------------- the dispatcher's callbacks keep it

  /** New searchers for old: the invariant needs only that they are sound and ask for nothing that is cached live. */
  lemma ReplaceSearchers(s: System, ws: seq<SearchWheel.Wheel>)
    requires Inv(s) && |ws| == |s.searchers|
    requires forall i | 0 <= i < |ws| :: SearchWheel.Valid(ws[i]) && Indexed(ws[i])
    requires forall i, name | 0 <= i < |ws| && name in AskedFor(ws[i]) :: !CachedLive(s, name)
    ensures Inv(s.(searchers := ws))
    ensures forall name :: CachedLive(s.(searchers := ws), name) <==> CachedLive(s, name)
  {
    hide Indexed, AskedFor, SearchWheel.Valid;
    var s' := s.(searchers := ws);
    assert Sane(s') && AllIndexed(s');
    forall name, i | CachedLive(s', name) && 0 <= i < |ws| ensures name !in AskedFor(ws[i]) {
      assert CachedLive(s, name);
    }
  }

  lemma GuardForKeeps(s: System, addr: Addr, created: bool, now: Time)
    requires Inv(s)
    ensures var (s', guard) := GuardFor(s, addr, created, now);
            && Inv(s') && s'.searchers == s.searchers && s'.pvs == s.pvs
            && (forall name :: CachedLive(s', name) <==> CachedLive(s, name))
            && |s.guards| <= |s'.guards| && s'.guards[..|s.guards|] == s.guards
            && (guard.Some? <==> addr in s.iocs || created)
            && (guard.Some? ==>
                  guard.value < |s'.guards| && s'.guards[guard.value].alive && s'.guards[guard.value].addr == addr)
            && (guard.None? ==> s' == s)
  {
    InvIsSane(s);
    hide Inv, Sane, Bijection, CachedLive;
    if addr in s.iocs {
      TableIsLive(s, addr);
    } else if created {
      NewGuardKeeps(s, addr, now);
    }
  }

  /** A reply for which there is no guard yet makes one, and starts its connect clock at the time of the reply. */
  lemma ReplyMakesGuard(s: System, e: Event)
    requires Sane(s) && Enabled(s, e) && e.Reply? && e.addr !in s.iocs && e.created
    requires SearchWheel.Resolve(s.searchers[e.searcher], e.id).1.Some?
    ensures var t, h := Step(s, e).0, |s.guards|;
            && |t.guards| == h + 1 && t.guards[..h] == s.guards && t.iocs == s.iocs[e.addr := h]
            && var g := t.guards[h];
               && g.addr == e.addr && g.alive && !g.connected && !g.initialized
               && g.started == e.now && g.lastRequest == 0 && g.lastResponse == 0
  {
    hide SearchWheel.Resolve, SearchWheel.Valid, ReplyArrived;
    ReplyIs(s, e.searcher, e.id, e.addr, e.response, e.created, e.now);
  }

  /** A new guard, for an address that has none. */
  lemma NewGuardKeeps(s: System, addr: Addr, now: Time)
    requires Inv(s) && addr !in s.iocs
    ensures var t := GuardFor(s, addr, true, now).0;
            Inv(t) && forall name :: CachedLive(t, name) <==> CachedLive(s, name)
  {
    InvIsSane(s);
    NewGuardSane(s, addr, now);
    NewGuardListed(s, addr, now);
    NewGuardBijection(s, addr, now);
    NewGuardShowsNot(s, addr, now);
    hide Sane, Listed, Bijection, CachedLive, Indexed, AskedFor;
  }

  lemma NewGuardBijection(s: System, addr: Addr, now: Time)
    requires Sane(s) && Bijection(s) && addr !in s.iocs
    ensures var t := GuardFor(s, addr, true, now).0; Sane(t) && Bijection(t)
  {
    hide SearchWheel.Valid;
  }

  lemma NewGuardShowsNot(s: System, addr: Addr, now: Time)
    requires Sane(s) && addr !in s.iocs
    ensures var t := GuardFor(s, addr, true, now).0;
            Sane(t) && forall name :: CachedLive(t, name) <==> CachedLive(s, name)
  {
    hide SearchWheel.Valid;
  }

  lemma NewGuardSane(s: System, addr: Addr, now: Time)
    requires Sane(s) && addr !in s.iocs
    ensures Sane(GuardFor(s, addr, true, now).0)
    ensures forall name | name in s.pvs :: s.pvs[name].guard < |s.guards|
    ensures forall a | a in s.iocs :: s.iocs[a] < |s.guards|
  {
    hide SearchWheel.Valid;
  }

  lemma NewGuardListed(s: System, addr: Addr, now: Time)
    requires Sane(s) && Listed(s) && addr !in s.iocs
    ensures var t := GuardFor(s, addr, true, now).0; Sane(t) && Listed(t)
  {
    hide SearchWheel.Valid;
    var t, h := GuardFor(s, addr, true, now).0, |s.guards|;
    assert forall i | 0 <= i < |s.conns| :: s.conns[i] != GuardConn(h);
    forall k | 0 <= k < |t.guards| && t.guards[k].alive ensures GuardConn(k) in t.conns {
      if k == h { assert t.conns[|s.conns|] == GuardConn(h); }
    }
  }

  /** Caching a name that no searcher asks for. */
  lemma CacheKeeps(s: System, name: PvName, h: nat, response: Bytes)
    requires Inv(s) && h < |s.guards| && s.guards[h].alive
    requires forall i | 0 <= i < |s.searchers| :: name !in AskedFor(s.searchers[i])
    ensures Inv(s.(pvs := s.pvs[name := CachedPv(h, response)]))
  {
    hide Indexed, AskedFor, SearchWheel.Valid;
    var s' := s.(pvs := s.pvs[name := CachedPv(h, response)]);
    forall x, i | CachedLive(s', x) && 0 <= i < |s.searchers| ensures x !in AskedFor(s'.searchers[i]) {
      if x != name { assert CachedLive(s, x); }
    }
  }

  lemma UncacheKeeps(s: System, name: PvName)
    requires Inv(s)
    ensures Inv(s.(pvs := s.pvs - {name}))
    ensures forall x :: CachedLive(s.(pvs := s.pvs - {name}), x) <==> CachedLive(s, x) && x != name
  {
    hide Indexed, AskedFor, SearchWheel.Valid;
    var s' := s.(pvs := s.pvs - {name});
    forall x, i | CachedLive(s', x) && 0 <= i < |s.searchers| ensures x !in AskedFor(s'.searchers[i]) {
      assert CachedLive(s, x);
    }
  }

  lemma NotCachedWhileAsked(s: System, k: nat, name: PvName)
    requires Inv(s) && k < |s.searchers| && name in AskedFor(s.searchers[k])
    ensures !CachedLive(s, name)
  {
  }

  lemma SearcherIsIndexed(s: System, k: nat)
    requires Inv(s) && k < |s.searchers|
    ensures Sane(s) && Indexed(s.searchers[k]) && SearchWheel.Valid(s.searchers[k])
  {
  }

  lemma RemoveFromAllKeeps(s: System, name: PvName)
    requires Inv(s)
    ensures var ws := RemoveFromAll(s.searchers, name);
            && Inv(s.(searchers := ws))
            && forall i | 0 <= i < |ws| :: AskedFor(ws[i]) == AskedFor(s.searchers[i]) - {name}
  {
    hide Indexed, AskedFor, SearchWheel.Valid, SearchWheel.Remove, Inv;
    InvIsSane(s);
    var ws := RemoveFromAll(s.searchers, name);
    forall i | 0 <= i < |ws|
      ensures Indexed(ws[i]) && AskedFor(ws[i]) == AskedFor(s.searchers[i]) - {name}
    {
      SearcherIsIndexed(s, i);
      RemoveAsked(s.searchers[i], name);
    }
    forall i, x | 0 <= i < |ws| && x in AskedFor(ws[i]) ensures !CachedLive(s, x) {
      NotCachedWhileAsked(s, i, x);
    }
    ReplaceSearchers(s, ws);
  }

  /** A reply that finds a name takes it out of all searchers and caches it with a live guard. */
  lemma PvFoundKeeps(s: System, name: PvName, addr: Addr, response: Bytes, created: bool, now: Time)
    requires Inv(s)
    ensures Inv(PvFound(s, name, addr, response, created, now))
    ensures var s' := PvFound(s, name, addr, response, created, now);
            if addr in s.iocs || created then
              CachedLive(s', name) && s'.guards[s'.pvs[name].guard].addr == addr
              && forall i | 0 <= i < |s.searchers| :: AskedFor(s'.searchers[i]) == AskedFor(s.searchers[i]) - {name}
            else s' == s
  {
    hide Indexed, AskedFor, SearchWheel.Valid, Inv, GuardFor, RemoveFromAll;
    GuardForKeeps(s, addr, created, now);
    var (s', guard) := GuardFor(s, addr, created, now);
    if guard.Some? {
      InvIsSane(s');
      RemoveFromAllKeeps(s', name);
      var t := s'.(searchers := RemoveFromAll(s'.searchers, name));
      CacheKeeps(t, name, guard.value, response);
    }
  }

  lemma PvSearchedKeeps(s: System, name: PvName, now: Time)
    requires Inv(s) && |name| <= ChannelAccess.MAX_NAME
    ensures Inv(PvSearched(s, name, now).0)
    ensures var (s', answer) := PvSearched(s, name, now);
            if CachedLive(s, name) then s' == s && answer == s.pvs[name].response
            else answer == [] && name !in s'.pvs && s'.guards == s.guards
                 && forall i | 0 <= i < |s.searchers| ::
                      AskedFor(s'.searchers[i]) == AskedFor(s.searchers[i])[name := now]
  {
    hide Indexed, AskedFor, SearchWheel.Valid, Inv, SearchWheel.Add;
    InvIsSane(s);
    if !CachedLive(s, name) {
      var t := s.(pvs := s.pvs - {name});
      UncacheKeeps(s, name);
      var ws := AddToAll(s.searchers, name, now);
      forall i | 0 <= i < |ws|
        ensures Indexed(ws[i]) && AskedFor(ws[i]) == AskedFor(s.searchers[i])[name := now]
      {
        SearcherIsIndexed(s, i);
        AddAsked(s.searchers[i], name, now);
      }
      forall i, x | 0 <= i < |ws| && x in AskedFor(ws[i]) ensures !CachedLive(t, x) {
        if x != name { NotCachedWhileAsked(s, i, x); }
      }
      ReplaceSearchers(t, ws);
    }
  }

  /** What one reply does to all searchers: the found name is gone everywhere, unless no guard could be had. */
  lemma ReplyKeeps(s: System, k: nat, id: Word32, addr: Addr, response: Bytes, created: bool, now: Time)
    requires Inv(s) && k < |s.searchers|
    ensures Inv(ReplyArrived(s, k, id, addr, response, created, now).0)
    ensures var (s', found) := ReplyArrived(s, k, id, addr, response, created, now);
            match found
            case None => s' == s
            case Some(name) =>
              && name in AskedFor(s.searchers[k]) && !CachedLive(s, name)
              && (forall i | 0 <= i < |s.searchers| && (i == k || addr in s.iocs || created) ::
                    AskedFor(s'.searchers[i]) == AskedFor(s.searchers[i]) - {name})
              && (addr in s.iocs || created ==> CachedLive(s', name) && s'.guards[s'.pvs[name].guard].addr == addr)
              && (addr !in s.iocs && !created ==>
                    s' == s.(searchers := s.searchers[k := s'.searchers[k]]))
  {
    hide Indexed, AskedFor, SearchWheel.Valid, PvFound, SearchWheel.Resolve, Inv, ReplyArrived, CachedLive;
    SearcherIsIndexed(s, k);
    ResolveAsked(s.searchers[k], id);
    ReplyIs(s, k, id, addr, response, created, now);
    var w := SearchWheel.Resolve(s.searchers[k], id).0;
    match SearchWheel.Resolve(s.searchers[k], id).1
    case None =>
    case Some(name) =>
      WithSearcher(s, k, w);
      var t := s.(searchers := s.searchers[k := w]);
      PvFoundKeeps(t, name, addr, response, created, now);
      NotCachedWhileAsked(s, k, name);
  }

  lemma ReplyIs(s: System, k: nat, id: Word32, addr: Addr, response: Bytes, created: bool, now: Time)
    requires Sane(s) && k < |s.searchers|
    ensures var (w, found) := SearchWheel.Resolve(s.searchers[k], id);
            var t := s.(searchers := s.searchers[k := w]);
            && Sane(t)
            && ReplyArrived(s, k, id, addr, response, created, now) ==
               if found.None? then (s, None) else (PvFound(t, found.value, addr, response, created, now), found)
  {
    hide PvFound, SearchWheel.Resolve;
  }

  lemma WithSearcher(s: System, k: nat, w: SearchWheel.Wheel)
    requires Inv(s) && k < |s.searchers| && SearchWheel.Valid(w) && Indexed(w)
    requires AskedFor(w).Keys <= AskedFor(s.searchers[k]).Keys
    ensures Inv(s.(searchers := s.searchers[k := w]))
    ensures forall name :: CachedLive(s.(searchers := s.searchers[k := w]), name) <==> CachedLive(s, name)
  {
    hide AskedFor, SearchWheel.Valid, Indexed, Inv;
    InvIsSane(s);
    var ws := s.searchers[k := w];
    forall i | 0 <= i < |ws| ensures SearchWheel.Valid(ws[i]) && Indexed(ws[i]) {
      SearcherIsIndexed(s, i);
    }
    forall i, name | 0 <= i < |ws| && name in AskedFor(ws[i]) ensures !CachedLive(s, name) {
      assert name in AskedFor(s.searchers[i]).Keys;
      NotCachedWhileAsked(s, i, name);
    }
    ReplaceSearchers(s, ws);
  }

  /** A dying guard takes its own table entry with it and no other; nothing else is touched. */
  lemma GuardStepKeeps(s: System, h: nat, e: Heartbeat.Event)
    requires Inv(s) && h < |s.guards|
    ensures Inv(GuardStep(s, h, e))
    ensures Heartbeat.Step(s.guards[h], e).1.dropped ==>
              s.guards[h].addr in s.iocs && s.iocs[s.guards[h].addr] == h
              && GuardStep(s, h, e).iocs == s.iocs - {s.guards[h].addr}
    ensures !Heartbeat.Step(s.guards[h], e).1.dropped ==> GuardStep(s, h, e).iocs == s.iocs
  {
    hide Indexed, AskedFor, SearchWheel.Valid, Heartbeat.Step;
    GuardEffect(s.guards[h], e);
    var s' := GuardStep(s, h, e);
    assert Bijection(s');
    forall name, i | CachedLive(s', name) && 0 <= i < |s.searchers| ensures name !in AskedFor(s'.searchers[i]) {
      assert CachedLive(s, name);
    }
  }

  lemma GuardEffect(g: Heartbeat.Guard, e: Heartbeat.Event)
    ensures var (g', effect) := Heartbeat.Step(g, e);
            && g'.addr == g.addr && (g'.alive ==> g.alive)
            && (effect.dropped <==> g.alive && !g'.alive)
  {
  }

  lemma TickKeeps(s: System, k: nat)
    requires Inv(s) && k < |s.searchers|
    ensures Inv(SearcherTick(s, k).0)
    ensures forall i | 0 <= i < |s.searchers| :: AskedFor(SearcherTick(s, k).0.searchers[i]) == AskedFor(s.searchers[i])
  {
    var w := SearchWheel.Tick(s.searchers[k]).0;
    SearcherIsIndexed(s, k);
    SearchWheel.TickValid(s.searchers[k]);
    hide Indexed, AskedFor, SearchWheel.Valid, SearchWheel.Tick, Inv;
    TickAsked(s.searchers[k]);
    WithSearcher(s, k, w);
  }

  lemma PurgeKeeps(s: System, now: Time, maxtime: Word32)
    requires Inv(s)
    ensures Inv(PurgeAll(s, now, maxtime))
    ensures forall i | 0 <= i < |s.searchers| ::
              AskedFor(PurgeAll(s, now, maxtime).searchers[i]) == Recent(AskedFor(s.searchers[i]), now, maxtime)
  {
    hide Indexed, AskedFor, SearchWheel.Valid, SearchWheel.Purge, Inv;
    InvIsSane(s);
    var ws := PurgeAll(s, now, maxtime).searchers;
    forall i | 0 <= i < |s.searchers|
      ensures SearchWheel.Valid(ws[i]) && Indexed(ws[i])
      ensures AskedFor(ws[i]) == Recent(AskedFor(s.searchers[i]), now, maxtime)
    {
      SearcherIsIndexed(s, i);
      PurgeAsked(s.searchers[i], now, maxtime);
    }
    forall i, name | 0 <= i < |ws| && name in AskedFor(ws[i]) ensures !CachedLive(s, name) {
      NotCachedWhileAsked(s, i, name);
    }
    ReplaceSearchers(s, ws);
  }

  lemma EraseConnList(conns: seq<Conn>, i: nat, c: Conn)
    requires i < |conns| && c in conns && c != conns[i]
    ensures c in conns[..i] + conns[i + 1..]
  {
    var j :| 0 <= j < |conns| && conns[j] == c;
    assert (conns[..i] + conns[i + 1..])[if j < i then j else j - 1] == c;
  }

  lemma EraseKeeps(s: System, i: nat)
    requires Inv(s) && i < |s.conns| && !Connected(s, s.conns[i])
    ensures Inv(EraseConn(s, i))
  {
    EraseSane(s, i);
    EraseListed(s, i);
    hide Indexed, AskedFor, Sane, Listed;
    var s' := EraseConn(s, i);
    assert Exclusive(s') by {
      forall name, j | CachedLive(s', name) && 0 <= j < |s.searchers| ensures name !in AskedFor(s'.searchers[j]) {
        assert CachedLive(s, name);
      }
    }
  }

  lemma EraseSane(s: System, i: nat)
    requires Sane(s) && i < |s.conns|
    ensures Sane(EraseConn(s, i))
  {
    hide SearchWheel.Valid;
  }

  lemma EraseListed(s: System, i: nat)
    requires Sane(s) && Listed(s) && i < |s.conns| && !Connected(s, s.conns[i])
    ensures Sane(EraseConn(s, i)) && Listed(EraseConn(s, i))
  {
    EraseSane(s, i);
    hide Sane;
    var s' := EraseConn(s, i);
    forall h | 0 <= h < |s.guards| && s.guards[h].alive ensures GuardConn(h) in s'.conns {
      EraseConnList(s.conns, i, GuardConn(h));
    }
    forall j, k | 0 <= j < k < |s'.conns| ensures s'.conns[j] != s'.conns[k] {
      assert s'.conns[j] == s.conns[if j < i then j else j + 1];
      assert s'.conns[k] == s.conns[if k < i then k else k + 1];
    }
  }

  lemma StepKeepsInv(s: System, e: Event)
    requires Inv(s) && Enabled(s, e)
    ensures Inv(Step(s, e).0)
  {
    hide Inv, PvFound, PvSearched, ReplyArrived, GuardStep, SearcherTick, PurgeAll, EraseConn;
    assert Sane(s) by { InvIsSane(s); }
    match e
    case Search(name, now) => PvSearchedKeeps(s, name, now);
    case Reply(i, id, addr, response, created, now) => ReplyKeeps(s, i, id, addr, response, created, now);
    case Guarding(h, beat) => GuardStepKeeps(s, h, beat);
    case Ticking(i) => TickKeeps(s, i);
    case Purging(now, maxtime) => PurgeKeeps(s, now, maxtime);
    case Erasing(i) => EraseKeeps(s, i);
  }

  lemma InvIsSane(s: System)
    requires Inv(s)
    ensures Sane(s)
  {
  }

  /** The invariant holds in every state of every run. */
  lemma {:induction false} RunKeepsInv(s: System, es: seq<Event>)
    requires Inv(s) && Possible(s, es)
    ensures Inv(Run(s, es))
    decreases es
  {
    InvIsSane(s);
    hide Inv, Step, Enabled;
    if es != [] {
      StepKeepsInv(s, es[0]);
      RunKeepsInv(Step(s, es[0]).0, es[1..]);
    }
  }

  // ---------------------------------------------------------------- consequences

  /** At most one live guard exists for an address. */
  lemma LiveGuardIsUnique(s: System, h: nat, k: nat)
    requires Inv(s) && h < |s.guards| && k < |s.guards|
    requires s.guards[h].alive && s.guards[k].alive && s.guards[h].addr == s.guards[k].addr
    ensures h == k
  {
    hide Indexed, AskedFor, SearchWheel.Valid;
  }

  /** After a miss the name is being searched for by every searcher, as of now; after a hit by none. */
  lemma MissIsSearchedEverywhere(s: System, name: PvName, now: Time, i: nat)
    requires Inv(s) && |name| <= ChannelAccess.MAX_NAME && i < |s.searchers|
    ensures var (s', answer) := PvSearched(s, name, now);
            var asked := AskedFor(s'.searchers[i]);
            if CachedLive(s, name) then name !in asked else name in asked && asked[name] == now && answer == []
  {
    PvSearchedKeeps(s, name, now);
    hide Indexed, AskedFor, SearchWheel.Valid, PvSearched;
  }

  // ---------------------------------------------------------------- all searchers search for the same

  ghost predicate InStep(s: System) {
    SameAsked(s.searchers)
  }

  ghost predicate SameAsked(ws: seq<SearchWheel.Wheel>) {
    forall i, j | 0 <= i < |ws| && 0 <= j < |ws| :: AskedFor(ws[i]) == AskedFor(ws[j])
  }

  /** A found name for which no guard could be created: it is lost in one searcher only. */
  predicate GuardFails(s: System, e: Event)
    requires Sane(s) && Enabled(s, e)
  {
    e.Reply? && e.addr !in s.iocs && !e.created && SearchWheel.Resolve(s.searchers[e.searcher], e.id).1.Some?
  }

  lemma StepKeepsInStep(s: System, e: Event)
    requires Inv(s) && Enabled(s, e) && InStep(s) && !GuardFails(s, e)
    ensures InStep(Step(s, e).0)
  {
    hide Inv, AskedFor, SearchWheel.Resolve, SearchWheel.Valid;
    InvIsSane(s);
    match e
    case Search(name, now) => PvSearchedKeeps(s, name, now);
    case Reply(i, id, addr, response, created, now) =>
      hide PvFound;
      ReplyKeeps(s, i, id, addr, response, created, now);
    case Guarding(h, beat) =>
    case Ticking(i) => TickKeeps(s, i);
    case Purging(now, maxtime) => PurgeKeeps(s, now, maxtime);
    case Erasing(i) =>
  }

  /** What a failed guard creation does: the name is lost in the searcher that got the reply, and in no other. */
  lemma FailureLosesOne(s: System, e: Event)
    requires Inv(s) && Enabled(s, e) && GuardFails(s, e)
    ensures var name := SearchWheel.Resolve(s.searchers[e.searcher], e.id).1.value;
            var s' := Step(s, e).0;
            && name in AskedFor(s.searchers[e.searcher]) && |s'.searchers| == |s.searchers|
            && s' == s.(searchers := s.searchers[e.searcher := s'.searchers[e.searcher]])
            && AskedFor(s'.searchers[e.searcher]) == AskedFor(s.searchers[e.searcher]) - {name}
  {
    hide Inv, AskedFor, SearchWheel.Resolve, SearchWheel.Valid, PvFound, ReplyArrived;
    InvIsSane(s);
    ReplyIs(s, e.searcher, e.id, e.addr, e.response, e.created, e.now);
    ReplyKeeps(s, e.searcher, e.id, e.addr, e.response, e.created, e.now);
  }

  lemma OneDiffers(ws: seq<SearchWheel.Wheel>, k: nat, w: SearchWheel.Wheel, name: PvName)
    requires SameAsked(ws) && k < |ws| && name in AskedFor(ws[k]) && AskedFor(w) == AskedFor(ws[k]) - {name}
    ensures SameAsked(ws[k := w]) <==> |ws| == 1
  {
    hide AskedFor;
    if |ws| > 1 {
      var us, other := ws[k := w], if k == 0 then 1 else 0;
      assert AskedFor(us[other]) == AskedFor(ws[k]) && name !in AskedFor(us[k]);
    }
  }

  /** An event leaves searchers in step exactly if no guard creation fails in it, or there is only one searcher. */
  lemma InStepExactly(s: System, e: Event)
    requires Inv(s) && Enabled(s, e) && InStep(s)
    ensures InStep(Step(s, e).0) <==> !GuardFails(s, e) || |s.searchers| == 1
  {
    InvIsSane(s);
    hide Inv, AskedFor, SearchWheel.Resolve, SearchWheel.Valid, Step, SameAsked, Sane;
    if !GuardFails(s, e) {
      StepKeepsInStep(s, e);
    } else {
      FailureLosesOne(s, e);
      var name := SearchWheel.Resolve(s.searchers[e.searcher], e.id).1.value;
      OneDiffers(s.searchers, e.searcher, Step(s, e).0.searchers[e.searcher], name);
    }
  }

  lemma FoundIsResolved(s: System, k: nat, id: Word32, addr: Addr, response: Bytes, created: bool, now: Time)
    requires Sane(s) && k < |s.searchers|
    ensures ReplyArrived(s, k, id, addr, response, created, now).1 == SearchWheel.Resolve(s.searchers[k], id).1
  {
    hide Sane, SearchWheel.Resolve;
    ReplyIs(s, k, id, addr, response, created, now);
  }

  predicate NoGuardFails(s: System, es: seq<Event>)
    requires Sane(s) && Possible(s, es)
    decreases es
  {
    es == [] || (!GuardFails(s, es[0]) && NoGuardFails(Step(s, es[0]).0, es[1..]))
  }

  /** While no guard creation fails, all searchers hold the same names with the same times. */
  lemma {:induction false} RunKeepsInStep(s: System, es: seq<Event>)
    requires Inv(s) && Possible(s, es) && InStep(s) && NoGuardFails(s, es)
    ensures InStep(Run(s, es))
    decreases es
  {
    InvIsSane(s);
    hide Inv, InStep, Step, Enabled, GuardFails;
    if es != [] {
      StepKeepsInv(s, es[0]);
      StepKeepsInStep(s, es[0]);
      RunKeepsInStep(Step(s, es[0]).0, es[1..]);
    }
  }

  /** In every state of the run all searchers hold the same names with the same times. */
  ghost predicate AlwaysInStep(s: System, es: seq<Event>)
    requires Sane(s) && Possible(s, es)
    decreases es
  {
    InStep(s) && (es != [] ==> AlwaysInStep(Step(s, es[0]).0, es[1..]))
  }

  /** A run keeps several searchers in step throughout exactly if no guard creation fails in it. */
  lemma {:induction false} RunInStepExactly(s: System, es: seq<Event>)
    requires Inv(s) && Possible(s, es) && InStep(s) && |s.searchers| > 1
    ensures AlwaysInStep(s, es) <==> NoGuardFails(s, es)
    decreases es
  {
    InvIsSane(s);
    hide Inv, InStep, Step, Enabled, GuardFails;
    if es != [] {
      StepKeepsInv(s, es[0]);
      StepKeepsCount(s, es[0]);
      InStepExactly(s, es[0]);
      if InStep(Step(s, es[0]).0) {
        RunInStepExactly(Step(s, es[0]).0, es[1..]);
      } else {
        NotInStep(Step(s, es[0]).0, es[1..]);
      }
    }
  }

  lemma NotInStep(s: System, es: seq<Event>)
    requires Sane(s) && Possible(s, es) && !InStep(s)
    ensures !AlwaysInStep(s, es)
  {
    hide Sane, InStep, Step, Enabled;
  }

  lemma StepKeepsCount(s: System, e: Event)
    requires Sane(s) && Enabled(s, e)
    ensures |Step(s, e).0.searchers| == |s.searchers|
  {
    hide SearchWheel.Valid;
  }

  // ---------------------------------------------------------------- the eager specification

  /** The cache a reader would write: name to IOC and reply, cleaned up when the IOC disconnects. */
  type Cache = map<PvName, (Addr, Bytes)>

  function EagerStep(c: Cache, seen: Seen): Cache {
    match seen
    case Answered(_, _) => c
    case Found(name, addr, response) => c[name := (addr, response)]
    case Disconnected(addr) => map name | name in c && c[name].0 != addr :: c[name]
    case _ => c
  }

  function EagerRun(c: Cache, trace: seq<Seen>): Cache
    decreases trace
  {
    if trace == [] then c else EagerRun(EagerStep(c, trace[0]), trace[1..])
  }

  /** A client gets the cached reply, or nothing. A found name was not cached before. */
  predicate EagerAllows(c: Cache, seen: Seen) {
    match seen
    case Answered(name, response) => response == if name in c then c[name].1 else []
    case Found(name, _, _) => name !in c
    case _ => true
  }

  /** The entries of the lazy cache that still count. */
  function View(s: System): Cache
    requires Sane(s)
  {
    map name | name in s.pvs && CachedLive(s, name) :: (s.guards[s.pvs[name].guard].addr, s.pvs[name].response)
  }

  lemma FoundView(s: System, k: nat, id: Word32, addr: Addr, response: Bytes, created: bool, now: Time)
    requires Inv(s) && k < |s.searchers|
    ensures var (s', found) := ReplyArrived(s, k, id, addr, response, created, now);
            if found.Some? && (addr in s.iocs || created)
            then View(s') == View(s)[found.value := (addr, response)] && found.value !in View(s)
            else View(s') == View(s)
  {
    ReplyKeeps(s, k, id, addr, response, created, now);
    TableIsLive(s, addr);
    hide Inv, AskedFor, SearchWheel.Valid, SearchWheel.Resolve, PvFound, CachedLive, View, ReplyArrived;
    ReplyIs(s, k, id, addr, response, created, now);
    match SearchWheel.Resolve(s.searchers[k], id).1
    case None =>
    case Some(name) =>
      var t := s.(searchers := s.searchers[k := SearchWheel.Resolve(s.searchers[k], id).0]);
      PvFoundView(t, name, addr, response, created, now);
      SameView(s, t);
      NotInView(s, name);
  }

  /** Searchers, the IOC table and the connection list do not show in the view. */
  lemma SameView(s: System, t: System)
    requires Sane(s) && Sane(t) && t.guards == s.guards && t.pvs == s.pvs
    ensures View(t) == View(s)
  {
    hide SearchWheel.Valid;
  }

  lemma NotInView(s: System, name: PvName)
    requires Sane(s) && !CachedLive(s, name)
    ensures name !in View(s)
  {
  }

  lemma PvFoundView(s: System, name: PvName, addr: Addr, response: Bytes, created: bool, now: Time)
    requires Sane(s) && (addr in s.iocs ==> s.guards[s.iocs[addr]].alive && s.guards[s.iocs[addr]].addr == addr)
    ensures var s' := PvFound(s, name, addr, response, created, now);
            View(s') == if addr in s.iocs || created then View(s)[name := (addr, response)] else View(s)
  {
    hide SearchWheel.Valid, RemoveFromAll;
  }

  lemma TableIsLive(s: System, addr: Addr)
    requires Inv(s)
    ensures Sane(s) && (addr in s.iocs ==> s.guards[s.iocs[addr]].alive && s.guards[s.iocs[addr]].addr == addr)
  {
  }

  lemma DisconnectView(s: System, h: nat, e: Heartbeat.Event)
    requires Inv(s) && h < |s.guards|
    ensures var s' := GuardStep(s, h, e);
            if Heartbeat.Step(s.guards[h], e).1.dropped
            then View(s') == EagerStep(View(s), Disconnected(s.guards[h].addr)) else View(s') == View(s)
  {
    hide Inv, AskedFor, SearchWheel.Valid, Heartbeat.Step, View;
    InvIsSane(s);
    GuardEffect(s.guards[h], e);
    var g := Heartbeat.Step(s.guards[h], e).0;
    GuardView(s, h, g);
    if s.guards[h].alive && !g.alive {
      forall name | CachedLive(s, name) && s.guards[s.pvs[name].guard].addr == s.guards[h].addr
        ensures s.pvs[name].guard == h
      {
        LiveGuardIsUnique(s, s.pvs[name].guard, h);
      }
      DeletedView(s, h);
    }
  }

  /** The cache entries that do not hang on guard `h`. */
  function WithoutGuard(s: System, h: nat): Cache
    requires Sane(s)
  {
    map name | name in s.pvs && CachedLive(s, name) && s.pvs[name].guard != h ::
      (s.guards[s.pvs[name].guard].addr, s.pvs[name].response)
  }

  lemma GuardView(s: System, h: nat, g: Heartbeat.Guard)
    requires Sane(s) && h < |s.guards| && g.addr == s.guards[h].addr && (g.alive ==> s.guards[h].alive)
    ensures var s' := s.(guards := s.guards[h := g]);
            Sane(s') && View(s') == if s.guards[h].alive && !g.alive then WithoutGuard(s, h) else View(s)
    ensures View(Disconnect(s.(guards := s.guards[h := g]), g.addr)) == View(s.(guards := s.guards[h := g]))
  {
    hide SearchWheel.Valid;
  }

  lemma DeletedView(s: System, h: nat)
    requires Sane(s) && h < |s.guards|
    requires forall name | CachedLive(s, name) && s.guards[s.pvs[name].guard].addr == s.guards[h].addr ::
               s.pvs[name].guard == h
    ensures WithoutGuard(s, h) == EagerStep(View(s), Disconnected(s.guards[h].addr))
  {
    hide SearchWheel.Valid;
  }

  /** The event changes the view as it changes the eager cache, and its answer is the eager cache's. */
  predicate EagerAt(s: System, e: Event)
    requires Sane(s) && Enabled(s, e)
  {
    var (s', seen) := Step(s, e);
    View(s') == EagerStep(View(s), seen) && EagerAllows(View(s), seen)
  }

  lemma SearchIsEager(s: System, e: Event)
    requires Sane(s) && Enabled(s, e) && e.Search?
    ensures EagerAt(s, e)
  {
    hide Sane, View, PvSearched;
    SearchView(s, e.name, e.now);
  }

  lemma ReplyIsEager(s: System, e: Event)
    requires Inv(s) && Enabled(s, e) && e.Reply?
    ensures Sane(s) && EagerAt(s, e)
  {
    InvIsSane(s);
    hide Inv, Sane, View, ReplyArrived;
    FoundView(s, e.searcher, e.id, e.addr, e.response, e.created, e.now);
  }

  lemma BeatIsEager(s: System, e: Event)
    requires Inv(s) && Enabled(s, e) && e.Guarding?
    ensures Sane(s) && EagerAt(s, e)
  {
    InvIsSane(s);
    hide Inv, Sane, View, GuardStep, Heartbeat.Step;
    DisconnectView(s, e.handle, e.beat);
  }

  lemma OtherIsEager(s: System, e: Event)
    requires Sane(s) && Enabled(s, e) && (e.Ticking? || e.Purging? || e.Erasing?)
    ensures EagerAt(s, e)
  {
    hide Sane, View, SearchWheel.Tick, SearchWheel.Purge;
    SameView(s, Step(s, e).0);
  }

  /** One step: lazy invalidation is eager deletion, and the answers are the specification's. */
  lemma StepRefinesEager(s: System, e: Event)
    requires Inv(s) && Enabled(s, e)
    ensures var (s', seen) := Step(s, e);
            View(s') == EagerStep(View(s), seen) && EagerAllows(View(s), seen)
  {
    InvIsSane(s);
    hide Inv, Sane, View, Step, EagerStep, EagerAllows;
    match e
    case Search(_, _) => SearchIsEager(s, e);
    case Reply(_, _, _, _, _, _) => ReplyIsEager(s, e);
    case Guarding(_, _) => BeatIsEager(s, e);
    case _ => OtherIsEager(s, e);
  }

  lemma SearchView(s: System, name: PvName, now: Time)
    requires Sane(s) && |name| <= ChannelAccess.MAX_NAME
    ensures var (s', answer) := PvSearched(s, name, now);
            View(s') == View(s) && answer == if name in View(s) then View(s)[name].1 else []
  {
    hide SearchWheel.Valid;
  }

  /** Every answer in the trace is the eager cache's at its time. */
  ghost predicate AllAllowed(c: Cache, trace: seq<Seen>) {
    forall i | 0 <= i < |trace| :: EagerAllows(EagerRun(c, trace[..i]), trace[i])
  }

  lemma EagerRunCons(c: Cache, seen: Seen, rest: seq<Seen>)
    ensures EagerRun(c, [seen] + rest) == EagerRun(EagerStep(c, seen), rest) && EagerRun(c, []) == c
  {
    hide EagerStep;
    assert ([seen] + rest)[1..] == rest;
  }

  lemma AllowedCons(c: Cache, seen: Seen, rest: seq<Seen>)
    requires EagerAllows(c, seen) && AllAllowed(EagerStep(c, seen), rest)
    ensures AllAllowed(c, [seen] + rest)
  {
    hide EagerStep, EagerAllows, EagerRun;
    var trace := [seen] + rest;
    forall i | 0 <= i < |trace| ensures EagerAllows(EagerRun(c, trace[..i]), trace[i]) {
      if i > 0 {
        EagerRunCons(c, seen, rest[..i - 1]);
        assert trace[..i] == [seen] + rest[..i - 1] && trace[i] == rest[i - 1];
      } else {
        EagerRunCons(c, seen, rest);
        assert trace[..0] == [];
      }
    }
  }

  lemma TraceCons(s: System, es: seq<Event>)
    requires Sane(s) && Possible(s, es) && es != []
    ensures var (s', seen) := Step(s, es[0]);
            Possible(s', es[1..]) && Trace(s, es) == [seen] + Trace(s', es[1..]) && Run(s, es) == Run(s', es[1..])
  {
    hide Sane, Step, Enabled;
  }

  lemma NothingSeen(s: System)
    requires Sane(s)
    ensures Trace(s, []) == [] && Run(s, []) == s && AllAllowed(View(s), []) && EagerRun(View(s), []) == View(s)
  {
    hide Sane, View;
  }

  /** Over every run the live part of the cache is the eager cache, and every answer is its answer. */
  lemma {:induction false} RunRefinesEager(s: System, es: seq<Event>)
    requires Inv(s) && Possible(s, es)
    ensures View(Run(s, es)) == EagerRun(View(s), Trace(s, es))
    ensures AllAllowed(View(s), Trace(s, es))
    decreases es
  {
    InvIsSane(s);
    hide Inv, Sane, Step, View, EagerStep, EagerAllows, EagerRun, AllAllowed, Run, Trace;
    if es == [] {
      NothingSeen(s);
    } else {
      var (s', seen) := Step(s, es[0]);
      StepKeepsInv(s, es[0]);
      StepRefinesEager(s, es[0]);
      RunRefinesEager(s', es[1..]);
      TraceCons(s, es);
      EagerRunCons(View(s), seen, Trace(s', es[1..]));
      AllowedCons(View(s), seen, Trace(s', es[1..]));
    }
  }

  /** Nothing but a new find brings a name back: a reconnecting IOC does not revive old entries. */
  lemma {:induction false} NoRevival(c: Cache, trace: seq<Seen>, name: PvName)
    requires name !in c
    requires forall i | 0 <= i < |trace| :: !(trace[i].Found? && trace[i].name == name)
    requires AllAllowed(c, trace)
    ensures name !in EagerRun(c, trace)
    ensures forall i | 0 <= i < |trace| :: trace[i].Answered? && trace[i].name == name ==> trace[i].response == []
    decreases trace
  {
    if trace != [] {
      var c', rest := EagerStep(c, trace[0]), trace[1..];
      assert trace[..0] == [] && EagerAllows(EagerRun(c, trace[..0]), trace[0]);
      forall i | 0 <= i < |rest| ensures EagerAllows(EagerRun(c', rest[..i]), rest[i]) {
        assert EagerAllows(EagerRun(c, trace[..i + 1]), trace[i + 1]);
        assert trace[..i + 1] == [trace[0]] + rest[..i] && trace[..i + 1][1..] == rest[..i];
      }
      assert forall i | 0 <= i < |rest| :: rest[i] == trace[i + 1];
      NoRevival(c', rest, name);
      forall i | 0 <= i < |trace| && trace[i].Answered? && trace[i].name == name ensures trace[i].response == [] {
        if i > 0 { assert trace[i] == rest[i - 1]; }
      }
    }
  }

  /** The server's own form of it: from the disconnect until it is found again, a PV of that IOC is a miss. */
  lemma DisconnectForgets(s: System, h: nat, beat: Heartbeat.Event, es: seq<Event>, name: PvName)
    requires Inv(s) && h < |s.guards| && Heartbeat.Step(s.guards[h], beat).1.dropped
    requires name in View(s) && View(s)[name].0 == s.guards[h].addr
    requires var s' := Step(s, Guarding(h, beat)).0; Possible(s', es)
    requires var s' := Step(s, Guarding(h, beat)).0;
             forall i | 0 <= i < |es| :: !(Trace(s', es)[i].Found? && Trace(s', es)[i].name == name)
    ensures var trace := Trace(Step(s, Guarding(h, beat)).0, es);
            forall i | 0 <= i < |es| :: trace[i].Answered? && trace[i].name == name ==> trace[i].response == []
  {
    var s' := Step(s, Guarding(h, beat)).0;
    hide Inv, Trace, Run, Possible;
    StepKeepsInv(s, Guarding(h, beat));
    StepRefinesEager(s, Guarding(h, beat));
    RunRefinesEager(s', es);
    hide Step, View, EagerAllows;
    NoRevival(View(s'), Trace(s', es), name);
  }
}
