/** What a searcher looks like to the dispatcher: the names it searches for and when each was last asked for. */
module Asked {
  import opened Prelude
  import opened Rebalance
  import opened SearchWheel
  import opened Schedule
  import ChannelAccess

  function NamesIn(w: Wheel): set<PvName> {
    set pv | pv in Flatten(w.bins) :: pv.pvname
  }

  function FoundAt(w: Wheel, name: PvName): Option<Pos> {
    Find(w.bins, ScanOrder(|w.bins|), ByName(name))
  }

  function AskedFor(w: Wheel): map<PvName, Time> {
    map name | name in NamesIn(w) && FoundAt(w, name).Some? :: At(w.bins, FoundAt(w, name).value).lastSearched
  }

  function Times(m: Plan): map<PvName, Time> {
    map name | name in m :: m[name].lastSearched
  }

  /** The wheel is an index for some plan; in particular names are unique in it. */
  ghost predicate Indexed(w: Wheel) {
    Valid(w) && exists now, m :: Agrees(w, now, m)
  }

  lemma AskedIs(w: Wheel, now: int, m: Plan)
    requires Valid(w) && Agrees(w, now, m)
    ensures AskedFor(w) == Times(m)
  {
    hide Agrees, Flatten, Find;
    forall name ensures name in NamesIn(w) && FoundAt(w, name).Some? <==> name in m {
      FindByName(w, now, m, name);
      if name in m {
        var p := PlannedHasEntry(w, now, m, name);
        FlattenMember(w.bins, w.bins[p.bin][p.idx]);
        assert w.bins[p.bin][p.idx] in Flatten(w.bins);
      }
    }
    forall name | name in m ensures AskedFor(w)[name] == m[name].lastSearched {
      EntryIsPlanned(w, now, m, FoundAt(w, name).value);
    }
  }

  lemma AddAsked(w: Wheel, name: PvName, time: Time)
    requires Indexed(w) && |name| <= ChannelAccess.MAX_NAME
    ensures var (w', added) := Add(w, name, time);
            Indexed(w') && AskedFor(w') == AskedFor(w)[name := time] && (added <==> name !in AskedFor(w))
  {
    hide Agrees, Add, AskedFor;
    var now, m :| Agrees(w, now, m);
    AskedIs(w, now, m);
    AddRefines(w, now, m, name, time);
    AskedIs(Add(w, name, time).0, now, PlanAdd(m, name, now, time, w.chanId, w.searchIntervals));
  }

  lemma RemoveAsked(w: Wheel, name: PvName)
    requires Indexed(w)
    ensures Indexed(Remove(w, name)) && AskedFor(Remove(w, name)) == AskedFor(w) - {name}
  {
    hide Agrees, Remove, AskedFor;
    var now, m :| Agrees(w, now, m);
    AskedIs(w, now, m);
    RemoveRefines(w, now, m, name);
    AskedIs(Remove(w, name), now, m - {name});
  }

  lemma ResolveAsked(w: Wheel, id: Word32)
    requires Indexed(w)
    ensures var (w', found) := Resolve(w, id);
            Indexed(w') &&
            match found
            case Some(name) => name in AskedFor(w) && AskedFor(w') == AskedFor(w) - {name}
            case None => w' == w
  {
    hide Agrees, Resolve, AskedFor;
    var now, m :| Agrees(w, now, m);
    AskedIs(w, now, m);
    ResolveRefines(w, now, m, id);
    match Resolve(w, id).1
    case Some(name) => AskedIs(Resolve(w, id).0, now, m - {name});
    case None =>
  }

  lemma TickAsked(w: Wheel)
    requires Indexed(w)
    ensures Indexed(Tick(w).0) && AskedFor(Tick(w).0) == AskedFor(w)
  {
    hide Agrees, Tick, AskedFor;
    var now, m :| Agrees(w, now, m);
    AskedIs(w, now, m);
    TickRefines(w, now, m);
    TickValid(w);
    AskedIs(Tick(w).0, now + 1, PlanTick(m, now, |w.bins|));
  }

  /** The names whose last request is recent enough to survive a purge. */
  function Recent(asked: map<PvName, Time>, time: Time, maxtime: Word32): map<PvName, Time> {
    map name | name in asked && Truncate(time - asked[name], SECOND) <= maxtime :: asked[name]
  }

  /** A purge keeps exactly the PVs that were asked for within `maxtime` seconds. */
  lemma PurgeAsked(w: Wheel, time: Time, maxtime: Word32)
    requires Indexed(w)
    ensures var w' := Purge(w, time, maxtime).0;
            Indexed(w') && AskedFor(w') == Recent(AskedFor(w), time, maxtime)
  {
    hide Agrees, Purge, AskedFor;
    var now, m :| Agrees(w, now, m);
    AskedIs(w, now, m);
    PurgeValid(w, time, maxtime);
    var next := PurgeRefines(w, now, m, time, maxtime);
    AskedIs(Purge(w, time, maxtime).0, now, next);
  }
}
