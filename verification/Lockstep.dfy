/**
 * How far the searchers can drift apart: they differ at most in names that a failed guard
 * creation has lost, and each such name is back in step once it is asked for or found again.
 */
module Lockstep {
  import opened Prelude
  import opened NameServer
  import opened Asked
  import opened CacheLaws
  import SearchWheel
  import ChannelAccess

  type Names = map<PvName, Time>

  /** What an event does to the names that a searcher asks for. */
  datatype Op = Touch(name: PvName, now: Time) | Drop(name: PvName) | Prune(now: Time, maxtime: Word32) | Same

  function Apply(op: Op, asked: Names): Names {
    match op
    case Touch(name, now) => asked[name := now]
    case Drop(name) => asked - {name}
    case Prune(now, maxtime) => Recent(asked, now, maxtime)
    case Same => asked
  }

  /** The names that searchers agree on after the operation, whatever they held before. */
  function Settles(op: Op): set<PvName> {
    match op
    case Touch(name, _) => {name}
    case Drop(name) => {name}
    case _ => {}
  }

  lemma ApplyBut(op: Op, asked: Names, lost: set<PvName>)
    ensures Apply(op, asked) - (lost - Settles(op)) == Apply(op, asked - lost)
  {
  }

  /** A client's hit is for a name that nobody asks for, so dropping it is no change. */
  function OpOf(s: System, e: Event): Op
    requires Sane(s) && Enabled(s, e)
  {
    match e
    case Search(name, now) => if CachedLive(s, name) then Drop(name) else Touch(name, now)
    case Reply(i, id, _, _, _, _) =>
      var found := SearchWheel.Resolve(s.searchers[i], id).1;
      if found.Some? then Drop(found.value) else Same
    case Purging(now, maxtime) => Prune(now, maxtime)
    case _ => Same
  }

  lemma SearchActs(s: System, name: PvName, now: Time, i: nat)
    requires Inv(s) && |name| <= ChannelAccess.MAX_NAME && i < |s.searchers|
    ensures |PvSearched(s, name, now).0.searchers| == |s.searchers|
    ensures AskedFor(PvSearched(s, name, now).0.searchers[i]) ==
            Apply(if CachedLive(s, name) then Drop(name) else Touch(name, now), AskedFor(s.searchers[i]))
  {
    PvSearchedKeeps(s, name, now);
    StepKeepsCount(s, Search(name, now));
    MissIsSearchedEverywhere(s, name, now, i);
    hide Inv, Sane, AskedFor, CachedLive, PvSearched;
  }

  lemma ReplyActs(s: System, e: Event, i: nat)
    requires Inv(s) && Enabled(s, e) && e.Reply? && i < |s.searchers|
    ensures |Step(s, e).0.searchers| == |s.searchers|
    ensures AskedFor(Step(s, e).0.searchers[i]) ==
            if GuardFails(s, e) && i != e.searcher then AskedFor(s.searchers[i])
            else Apply(OpOf(s, e), AskedFor(s.searchers[i]))
  {
    hide Inv, Sane, AskedFor, SearchWheel.Resolve, SearchWheel.Valid, ReplyArrived, CachedLive;
    InvIsSane(s);
    StepKeepsCount(s, e);
    var Reply(k, id, addr, response, created, now) := e;
    ReplyKeeps(s, k, id, addr, response, created, now);
    FoundIsResolved(s, k, id, addr, response, created, now);
  }

  /** Every event does the same to all searchers, but a failed guard creation touches only one. */
  lemma StepActs(s: System, e: Event, i: nat)
    requires Inv(s) && Enabled(s, e) && i < |s.searchers|
    ensures |Step(s, e).0.searchers| == |s.searchers|
    ensures AskedFor(Step(s, e).0.searchers[i]) ==
            if GuardFails(s, e) && i != e.searcher then AskedFor(s.searchers[i])
            else Apply(OpOf(s, e), AskedFor(s.searchers[i]))
  {
    hide Inv, Sane, AskedFor, SearchWheel.Valid, SearchWheel.Resolve, CachedLive, PvSearched, SearcherTick, PurgeAll,
         GuardStep, ReplyArrived, Apply;
    InvIsSane(s);
    StepKeepsCount(s, e);
    SameApplied(AskedFor(s.searchers[i]));
    match e
    case Search(name, now) => SearchActs(s, name, now, i);
    case Reply(_, _, _, _, _, _) => ReplyActs(s, e, i);
    case Guarding(h, beat) => GuardTouchesNoSearcher(s, e);
    case Ticking(k) => TickKeeps(s, k);
    case Purging(now, maxtime) =>
      PurgeKeeps(s, now, maxtime);
      Pruned(AskedFor(s.searchers[i]), now, maxtime);
    case Erasing(_) =>
  }

  lemma SameApplied(asked: Names)
    ensures Apply(Same, asked) == asked
  {
  }

  lemma Pruned(asked: Names, now: Time, maxtime: Word32)
    ensures Apply(Prune(now, maxtime), asked) == Recent(asked, now, maxtime)
  {
  }

  lemma GuardTouchesNoSearcher(s: System, e: Event)
    requires Sane(s) && Enabled(s, e) && e.Guarding?
    ensures Step(s, e).0.searchers == s.searchers
  {
    hide SearchWheel.Valid;
  }

  /** The searchers ask for the same, but for these names. */
  ghost predicate SameBut(ws: seq<SearchWheel.Wheel>, lost: set<PvName>) {
    forall i, j | 0 <= i < |ws| && 0 <= j < |ws| :: AskedFor(ws[i]) - lost == AskedFor(ws[j]) - lost
  }

  /** The names in which the searchers may differ after the event. */
  function LostAfter(s: System, e: Event, lost: set<PvName>): set<PvName>
    requires Sane(s) && Enabled(s, e)
  {
    if GuardFails(s, e) then lost + Settles(OpOf(s, e)) else lost - Settles(OpOf(s, e))
  }

  lemma ActsOnAll(ws: seq<SearchWheel.Wheel>, us: seq<SearchWheel.Wheel>, op: Op, lost: set<PvName>)
    requires SameBut(ws, lost) && |us| == |ws|
    requires forall i | 0 <= i < |ws| :: AskedFor(us[i]) == Apply(op, AskedFor(ws[i]))
    ensures SameBut(us, lost - Settles(op))
  {
    hide AskedFor, Apply, Settles;
    forall i | 0 <= i < |ws| ensures AskedFor(us[i]) - (lost - Settles(op)) == Apply(op, AskedFor(ws[i]) - lost) {
      ApplyBut(op, AskedFor(ws[i]), lost);
    }
  }

  lemma ActsOnOne(ws: seq<SearchWheel.Wheel>, us: seq<SearchWheel.Wheel>, k: nat, name: PvName, lost: set<PvName>)
    requires SameBut(ws, lost) && k < |us| == |ws| && AskedFor(us[k]) == AskedFor(ws[k]) - {name}
    requires forall i | 0 <= i < |ws| && i != k :: AskedFor(us[i]) == AskedFor(ws[i])
    ensures SameBut(us, lost + {name})
  {
    hide AskedFor;
    forall i | 0 <= i < |ws| ensures AskedFor(us[i]) - (lost + {name}) == (AskedFor(ws[i]) - lost) - {name} {
    }
  }

  lemma StepDrift(s: System, e: Event, lost: set<PvName>)
    requires Inv(s) && Enabled(s, e) && SameBut(s.searchers, lost)
    ensures SameBut(Step(s, e).0.searchers, LostAfter(s, e, lost))
  {
    InvIsSane(s);
    var us := Step(s, e).0.searchers;
    StepKeepsCount(s, e);
    if GuardFails(s, e) {
      var found := OpOf(s, e).name;
      forall i | 0 <= i < |us|
        ensures AskedFor(us[i]) == if i == e.searcher then AskedFor(s.searchers[i]) - {found}
                else AskedFor(s.searchers[i])
      {
        StepActs(s, e, i);
      }
      hide AskedFor, SearchWheel.Resolve, SearchWheel.Valid, SameBut, Inv, Step;
      ActsOnOne(s.searchers, us, e.searcher, found, lost);
    } else {
      hide AskedFor, SearchWheel.Resolve, SearchWheel.Valid, SameBut, Inv, Step, OpOf, Apply, Settles, GuardFails;
      forall i | 0 <= i < |us| ensures AskedFor(us[i]) == Apply(OpOf(s, e), AskedFor(s.searchers[i])) {
        StepActs(s, e, i);
      }
      ActsOnAll(s.searchers, us, OpOf(s, e), lost);
    }
  }

  /** The names lost in a run and not asked for or found since. */
  function Lost(s: System, es: seq<Event>, lost: set<PvName>): set<PvName>
    requires Sane(s) && Possible(s, es)
    decreases es
  {
    if es == [] then lost else Lost(Step(s, es[0]).0, es[1..], LostAfter(s, es[0], lost))
  }

  /** After any run at all, the searchers differ at most in the names that are lost. */
  lemma {:induction false} RunDrift(s: System, es: seq<Event>, lost: set<PvName>)
    requires Inv(s) && Possible(s, es) && SameBut(s.searchers, lost)
    ensures SameBut(Run(s, es).searchers, Lost(s, es, lost))
    decreases es
  {
    InvIsSane(s);
    hide Inv, SameBut, Step, Enabled, LostAfter;
    if es != [] {
      StepKeepsInv(s, es[0]);
      StepDrift(s, es[0], lost);
      RunDrift(Step(s, es[0]).0, es[1..], LostAfter(s, es[0], lost));
    }
  }

  lemma NothingBut(s: System)
    ensures SameBut(s.searchers, {}) <==> InStep(s)
  {
    hide AskedFor;
    assert forall i | 0 <= i < |s.searchers| :: AskedFor(s.searchers[i]) - {} == AskedFor(s.searchers[i]);
  }

  /** Guard creations fail in this run for no other name. */
  predicate FailsOnlyFor(s: System, es: seq<Event>, name: PvName)
    requires Sane(s) && Possible(s, es)
    decreases es
  {
    es == []
    || ((GuardFails(s, es[0]) ==> SearchWheel.Resolve(s.searchers[es[0].searcher], es[0].id).1 == Some(name))
        && FailsOnlyFor(Step(s, es[0]).0, es[1..], name))
  }

  lemma {:induction false} LostOnly(s: System, es: seq<Event>, lost: set<PvName>, name: PvName)
    requires Sane(s) && Possible(s, es) && FailsOnlyFor(s, es, name) && lost <= {name}
    ensures Lost(s, es, lost) <= {name}
    decreases es
  {
    hide Sane, Step, Enabled, SearchWheel.Resolve, SearchWheel.Valid;
    if es != [] {
      LostOnly(Step(s, es[0]).0, es[1..], LostAfter(s, es[0], lost), name);
    }
  }

  /**
   * A failed guard creation heals: whatever happens in between, failures for the same name
   * included, the next client that asks for the lost name brings the searchers into step again.
   */
  lemma FailureHeals(s: System, es: seq<Event>, name: PvName, later: Time)
    requires Inv(s) && InStep(s) && Possible(s, es) && FailsOnlyFor(s, es, name) && |name| <= ChannelAccess.MAX_NAME
    ensures InStep(PvSearched(Run(s, es), name, later).0)
  {
    InvIsSane(s);
    hide Inv, InStep, Run, Possible, Lost, FailsOnlyFor, SameBut, PvSearched, CachedLive, Sane;
    NothingBut(s);
    RunDrift(s, es, {});
    LostOnly(s, es, {}, name);
    RunKeepsInv(s, es);
    var t, e := Run(s, es), Search(name, later);
    StepDrift(t, e, Lost(s, es, {}));
    assert LostAfter(t, e, Lost(s, es, {})) == {};
    NothingBut(Step(t, e).0);
  }
}
