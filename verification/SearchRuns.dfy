/** Whole runs of a searcher: searches, removals, replies, ticks and purges in any order. */
module SearchRuns {
  import opened Prelude
  import opened SearchWheel
  import opened Schedule
  import opened Modular
  import ChannelAccess

  type ShortName = n: PvName | |n| <= ChannelAccess.MAX_NAME

  datatype Event =
    | Search(pvname: ShortName, time: Time) // addPV
    | Forget(name: PvName)                  // removePV
    | Reply(id: Word32)                     // the lookup of processIncoming
    | SendTick                              // processOutgoing past its time check
    | PurgeAt(time: Time, maxtime: Word32)  // purgePVs

  datatype Output = Quiet | Accepted(added: bool) | Found(name: Option<PvName>) | Sent(pvs: seq<(Word32, PvName)>)

  function Step(w: Wheel, e: Event): (r: (Wheel, Output))
    requires Valid(w)
    ensures Valid(r.0)
  {
    match e
    case Search(name, time) => var (w', added) := Add(w, name, time); (w', Accepted(added))
    case Forget(name) => (Remove(w, name), Quiet)
    case Reply(id) => var (w', name) := Resolve(w, id); (w', Found(name))
    case SendTick => TickValid(w); var (w', pvs) := Tick(w); (w', Sent(pvs))
    case PurgeAt(time, maxtime) => PurgeValid(w, time, maxtime); (Purge(w, time, maxtime).0, Quiet)
  }

  function Run(w: Wheel, es: seq<Event>): (r: Wheel)
    requires Valid(w)
    ensures Valid(r)
    decreases es
  {
    if es == [] then w else Run(Step(w, es[0]).0, es[1..])
  }

  function Outputs(w: Wheel, es: seq<Event>): (r: seq<Output>)
    requires Valid(w)
    ensures |r| == |es|
    decreases es
  {
    if es == [] then [] else [Step(w, es[0]).1] + Outputs(Step(w, es[0]).0, es[1..])
  }

  function After(now: int, e: Event): int {
    if e.SendTick? then now + 1 else now
  }

  function EndTick(now: int, es: seq<Event>): (end: int)
    ensures end >= now
    decreases es
  {
    if es == [] then now else EndTick(After(now, es[0]), es[1..])
  }

  // ---------------------------------------------------------------- the specification

  /** The schedule without the wheel: `cur` and `n` matter only to the reply lookup and the purge. */
  datatype Spec = Spec(now: int, cur: nat, n: nat, intervals: seq<Word32>, nextId: Word32, plan: Plan)

  ghost predicate SpecStep(s: Spec, e: Event, s': Spec, out: Output) {
    && s.n > 0 && s'.n == s.n && s'.intervals == s.intervals && s'.now == After(s.now, e)
    && (!e.Search? ==> s'.nextId == s.nextId)
    && match e
       case Search(name, time) =>
         && s'.plan == PlanAdd(s.plan, name, s.now, time, s.nextId, s.intervals) && s'.cur == s.cur
         && s'.nextId == (if name in s.plan then s.nextId else (s.nextId + 1) % POW32)
         && out == Accepted(name !in s.plan)
       case Forget(name) => s'.plan == s.plan - {name} && s'.cur == s.cur && out == Quiet
       case Reply(id) =>
         && out.Found? && s'.cur == s.cur
         && (match out.name
             case Some(name) => name in s.plan && s.plan[name].chanId == id
                                && !Escapes(s.plan[name], s.now, s.cur, s.n) && s'.plan == s.plan - {name}
             case None => s'.plan == s.plan && forall name | name in s.plan && s.plan[name].chanId == id ::
                            Escapes(s.plan[name], s.now, s.cur, s.n))
       case SendTick =>
         && Planned(s.plan) && s'.plan == PlanTick(s.plan, s.now, s.n) && s'.cur == (s.cur + 1) % s.n
         && out.Sent? && ExactlyDue(out.pvs, s.plan, s.now)
       case PurgeAt(time, maxtime) =>
         && PlanPurge(s.plan, s'.plan, time, maxtime) && s'.cur == 0 && out == Quiet
         && forall name | name in s'.plan :: s.now <= s'.plan[name].due < s.now + s.n
  }

  ghost predicate Refines(w: Wheel, s: Spec) {
    && Valid(w) && Agrees(w, s.now, s.plan) && s.cur == w.currentBin && s.n == |w.bins|
    && s.intervals == w.searchIntervals && s.nextId == w.chanId
  }

  /** Every step of the wheel is a step of the schedule with the same output. */
  lemma StepRefines(w: Wheel, s: Spec, e: Event) returns (s': Spec)
    requires Refines(w, s)
    ensures Refines(Step(w, e).0, s') && SpecStep(s, e, s', Step(w, e).1)
  {
    hide Agrees;
    match e {
      case Search(name, time) =>
        AddRefines(w, s.now, s.plan, name, time);
        s' := s.(plan := PlanAdd(s.plan, name, s.now, time, s.nextId, s.intervals),
                 nextId := if name in s.plan then s.nextId else (s.nextId + 1) % POW32);
      case Forget(name) =>
        RemoveRefines(w, s.now, s.plan, name);
        s' := s.(plan := s.plan - {name});
      case Reply(id) =>
        ResolveRefines(w, s.now, s.plan, id);
        match Resolve(w, id).1 {
          case Some(name) => s' := s.(plan := s.plan - {name});
          case None => s' := s;
        }
      case SendTick =>
        TickRefines(w, s.now, s.plan);
        s' := s.(now := s.now + 1, cur := (s.cur + 1) % s.n, plan := PlanTick(s.plan, s.now, s.n));
      case PurgeAt(time, maxtime) =>
        var next := PurgeRefines(w, s.now, s.plan, time, maxtime);
        PurgeValid(w, time, maxtime);
        DueWithinTurn(Purge(w, time, maxtime).0, s.now, next);
        s' := s.(cur := 0, plan := next);
    }
  }

  /** A run of the schedule: its states, with the events and outputs between them. */
  ghost predicate SpecRun(ss: seq<Spec>, es: seq<Event>, outs: seq<Output>) {
    && |ss| == |es| + 1 && |outs| == |es|
    && forall i | 0 <= i < |es| :: SpecStep(ss[i], es[i], ss[i + 1], outs[i])
  }

  lemma SpecRunNothing(s: Spec, outs: seq<Output>)
    requires outs == []
    ensures SpecRun([s], [], outs)
  {
  }

  lemma SpecRunSize(ss: seq<Spec>, es: seq<Event>, outs: seq<Output>)
    requires SpecRun(ss, es, outs)
    ensures |ss| == |es| + 1
  {
  }

  lemma SpecRunCons(s: Spec, e: Event, out: Output, ss: seq<Spec>, es: seq<Event>, outs: seq<Output>)
    requires SpecRun(ss, es, outs) && SpecStep(s, e, ss[0], out)
    ensures SpecRun([s] + ss, [e] + es, [out] + outs)
  {
    hide SpecStep;
    forall i | 0 <= i < |es| + 1 ensures SpecStep(([s] + ss)[i], ([e] + es)[i], ([s] + ss)[i + 1], ([out] + outs)[i]) {
      if i > 0 {
        assert SpecStep(ss[i - 1], es[i - 1], ss[i - 1 + 1], outs[i - 1]);
      }
    }
  }

  /** The timing wheel refines the due-tick map over every run: same events, same outputs. */
  lemma {:induction false} RunRefines(w: Wheel, s: Spec, es: seq<Event>) returns (ss: seq<Spec>)
    requires Refines(w, s)
    ensures Valid(w) && SpecRun(ss, es, Outputs(w, es))
    ensures ss[0] == s && Refines(Run(w, es), ss[|es|])
    decreases es
  {
    ValidWheel(w, s);
    hide Refines, SpecStep, SpecRun, Run, Outputs, Step;
    if es == [] {
      ss := [s];
      NothingRun(w);
      SpecRunNothing(s, Outputs(w, es));
    } else {
      var (w', out) := Step(w, es[0]);
      var s' := StepRefines(w, s, es[0]);
      var rest := RunRefines(w', s', es[1..]);
      SpecRunSize(rest, es[1..], Outputs(w', es[1..]));
      ss := [s] + rest;
      FirstOutput(w, es);
      SpecRunCons(s, es[0], out, rest, es[1..], Outputs(w', es[1..]));
      assert [es[0]] + es[1..] == es;
    }
  }

  lemma FirstOutput(w: Wheel, es: seq<Event>)
    requires Valid(w) && es != []
    ensures Run(w, es) == Run(Step(w, es[0]).0, es[1..])
    ensures Outputs(w, es) == [Step(w, es[0]).1] + Outputs(Step(w, es[0]).0, es[1..])
  {
  }

  lemma {:induction false} EmptyBag(bins: seq<Bin>, dues: seq<int>)
    requires |bins| == |dues| && forall b | 0 <= b < |bins| :: bins[b] == []
    ensures Bag(bins, dues) == multiset{}
  {
    if bins != [] {
      EmptyBag(bins[1..], dues[1..]);
    }
  }

  /** A new searcher starts from the empty plan. */
  lemma FreshRefines(configured: seq<Word32>, now: int)
    requires |Fresh(configured).bins| > 0
    ensures var w := Fresh(configured);
            Refines(w, Spec(now, 0, |w.bins|, Backoff(configured), 0, map[]))
  {
    var w := Fresh(configured);
    EmptyBag(w.bins, Dues(now, 0, |w.bins|));
  }

  // ---------------------------------------------------------------- when a PV is sent

  predicate Present(w: Wheel, name: PvName) {
    Find(w.bins, ScanOrder(|w.bins|), ByName(name)).Some?
  }

  /** The PV is being searched for all through the run. */
  predicate Stays(w: Wheel, es: seq<Event>, name: PvName)
    requires Valid(w)
    decreases es
  {
    Present(w, name) && (es != [] ==> Stays(Step(w, es[0]).0, es[1..], name))
  }

  predicate Sends(out: Output, name: PvName) {
    out.Sent? && exists j | 0 <= j < |out.pvs| :: out.pvs[j].1 == name
  }

  /** The ticks at which requests for `name` go out, counting from `now`. */
  function SendTicks(w: Wheel, now: int, es: seq<Event>, name: PvName): seq<int>
    requires Valid(w)
    decreases es
  {
    if es == [] then []
    else
      var (w', out) := Step(w, es[0]);
      (if Sends(out, name) then [now] else []) + SendTicks(w', After(now, es[0]), es[1..], name)
  }

  predicate NoPurge(es: seq<Event>) {
    forall i | 0 <= i < |es| :: !es[i].PurgeAt?
  }

  /** The ticks that the slot's rule asks for, up to `end`. */
  function Expected(rest: seq<Word32>, due: int, n: nat, end: int): seq<int>
    requires n > 0 && rest != []
    decreases end - due
  {
    if due >= end then [] else [due] + Expected(Left(rest), due + Delay(rest, n), n, end)
  }

  /** What one step of the schedule does to the slot of a PV that stays. */
  ghost predicate SlotMoves(s: Spec, e: Event, s': Spec, out: Output, name: PvName) {
    && name in s.plan && name in s'.plan && s.n > 0 && s.plan[name].rest != []
    && s'.now == After(s.now, e) && s'.n == s.n && s'.intervals == s.intervals
    && var slot, slot', sent := s.plan[name], s'.plan[name], e.SendTick? && s.plan[name].due == s.now;
       && s.now <= slot.due < s.now + s.n
       && (Sends(out, name) <==> sent)
       && slot'.chanId == slot.chanId
       && slot'.rest == (if sent then Left(slot.rest) else slot.rest)
       && if e.PurgeAt? then s.now <= slot'.due < s.now + s.n
          else slot'.due == slot.due + if sent then Delay(slot.rest, s.n) else 0
  }

  lemma SpecMovesSlot(s: Spec, e: Event, s': Spec, out: Output, name: PvName)
    requires SpecStep(s, e, s', out) && name in s.plan && name in s'.plan
    requires s.plan[name].rest != [] && s.now <= s.plan[name].due < s.now + s.n
    ensures SlotMoves(s, e, s', out, name)
  {
    if e.SendTick? {
      SendsWhenDue(out, s.plan, s.now, name);
    }
  }

  /** A step that keeps the PV changes its slot by its own rule only. */
  lemma SlotStep(w: Wheel, s: Spec, e: Event, name: PvName) returns (s': Spec)
    requires Refines(w, s) && name in s.plan && Present(Step(w, e).0, name)
    ensures Refines(Step(w, e).0, s') && SlotMoves(s, e, s', Step(w, e).1, name)
  {
    hide Step, SlotMoves, SpecStep, Agrees;
    s' := StepRefines(w, s, e);
    SlotNow(w, s, name);
    FindByName(Step(w, e).0, s'.now, s'.plan, name);
    SpecMovesSlot(s, e, s', Step(w, e).1, name);
  }

  lemma SendsWhenDue(out: Output, m: Plan, now: int, name: PvName)
    requires out.Sent? && ExactlyDue(out.pvs, m, now) && name in m
    ensures Sends(out, name) <==> m[name].due == now
  {
    if Sends(out, name) {
      var j :| 0 <= j < |out.pvs| && out.pvs[j].1 == name;
      assert out.pvs[j] in out.pvs;
    }
    if m[name].due == now {
      assert (m[name].chanId, name) in out.pvs;
    }
  }

  /** The run functions, one event at a time. */
  lemma FirstEvent(w: Wheel, now: int, es: seq<Event>, name: PvName)
    requires Valid(w) && es != [] && Stays(w, es, name)
    ensures var (w', out) := Step(w, es[0]);
            && Present(w', name) && Stays(w', es[1..], name)
            && EndTick(now, es) == EndTick(After(now, es[0]), es[1..])
            && (NoPurge(es) ==> !es[0].PurgeAt? && NoPurge(es[1..]))
            && SendTicks(w, now, es, name) ==
                 if Sends(out, name) then [now] + SendTicks(w', After(now, es[0]), es[1..], name)
                 else SendTicks(w', After(now, es[0]), es[1..], name)
  {
    hide Step, Sends, Present;
    assert Stays(Step(w, es[0]).0, es[1..], name);
  }

  lemma NoEvent(w: Wheel, now: int, name: PvName)
    requires Valid(w)
    ensures SendTicks(w, now, [], name) == [] && EndTick(now, []) == now
  {
  }

  lemma SlotNow(w: Wheel, s: Spec, name: PvName)
    requires Refines(w, s) && name in s.plan
    ensures Valid(w) && s.n == |w.bins| > 0
    ensures s.plan[name].rest != [] && s.now <= s.plan[name].due < s.now + s.n
  {
    PlannedIsWellFormed(w, s.now, s.plan);
    DueWithinTurn(w, s.now, s.plan);
  }

  /** Over every run without a purge, a PV is sent at exactly the ticks its backoff asks for. */
  lemma {:induction false} SendTimes(w: Wheel, s: Spec, es: seq<Event>, name: PvName)
    requires Refines(w, s) && name in s.plan && Stays(w, es, name) && NoPurge(es)
    ensures s.plan[name].rest != []
    ensures SendTicks(w, s.now, es, name) ==
            Expected(s.plan[name].rest, s.plan[name].due, s.n, EndTick(s.now, es))
    decreases es
  {
    hide Refines, Agrees, Step, Stays, SendTicks, EndTick, NoPurge, Sends, Present;
    SlotNow(w, s, name);
    if es == [] {
      NoEvent(w, s.now, name);
    } else {
      FirstEvent(w, s.now, es, name);
      var s' := SlotStep(w, s, es[0], name);
      SendTimes(Step(w, es[0]).0, s', es[1..], name);
    }
  }

  /** The gap after the k-th search of a backoff list: each step in turn, the last one for ever. */
  function GapAt(intervals: seq<Word32>, k: nat): Word32
    requires intervals != []
  {
    if k < |intervals| then intervals[k] else intervals[|intervals| - 1]
  }

  /** Gap `k` as the wheel realises it. */
  function RealGap(rest: seq<Word32>, n: nat, k: nat): nat
    requires n > 0 && rest != []
  {
    if k < |rest| - 1 then Turns(rest[k], n) else n
  }

  lemma {:induction false} ExpectedGaps(rest: seq<Word32>, due: int, n: nat, end: int, k: nat)
    requires n > 0 && rest != []
    requires k < |Expected(rest, due, n, end)|
    ensures k == 0 ==> Expected(rest, due, n, end)[0] == due
    ensures k + 1 < |Expected(rest, due, n, end)| ==>
              Expected(rest, due, n, end)[k + 1] - Expected(rest, due, n, end)[k] == RealGap(rest, n, k)
    decreases k
  {
    var tail := Expected(Left(rest), due + Delay(rest, n), n, end);
    if k > 0 {
      ExpectedGaps(Left(rest), due + Delay(rest, n), n, end, k - 1);
    } else if tail != [] {
      assert tail[0] == due + Delay(rest, n);
    }
  }

  /** All intervals fit one turn of the wheel, whose length is the last of them. */
  predicate FitsWheel(intervals: seq<Word32>, n: nat) {
    && intervals != [] && intervals[|intervals| - 1] == n
    && forall k | 0 <= k < |intervals| :: 1 <= intervals[k] <= n
  }

  /**
   * The backoff promise: a PV added at tick `now` is sent at once, then after exactly the
   * configured steps in turn, then after the last one for ever, whatever happens meanwhile
   * to the other PVs.
   */
  lemma SendGaps(w: Wheel, s: Spec, name: ShortName, time: Time, es: seq<Event>)
    requires Refines(w, s) && name !in s.plan && FitsWheel(s.intervals, s.n)
    requires var w' := Step(w, Search(name, time)).0; Stays(w', es, name) && NoPurge(es)
    ensures var ticks := SendTicks(Step(w, Search(name, time)).0, s.now, es, name);
            && (ticks == [] <==> EndTick(s.now, es) == s.now)
            && (ticks != [] ==> ticks[0] == s.now)
            && forall k | 0 <= k < |ticks| - 1 :: ticks[k + 1] - ticks[k] == GapAt(s.intervals, k)
  {
    var w' := Step(w, Search(name, time)).0;
    var s' := StepRefines(w, s, Search(name, time));
    SendTimes(w', s', es, name);
    var ticks := SendTicks(w', s.now, es, name);
    forall k | 0 <= k < |ticks| - 1 ensures ticks[k + 1] - ticks[k] == GapAt(s.intervals, k) {
      ExpectedGaps(s.intervals, s.now, s.n, EndTick(s.now, es), k);
      if k < |s.intervals| - 1 {
        GapFormula(s.intervals[k], s.n);
      }
    }
  }

  /** A new searcher's backoff and its number of bins, in 32-bit arithmetic. */
  lemma FreshExactly(configured: seq<Word32>)
    ensures var steps := Fresh(configured).searchIntervals;
            && |steps| == |configured| + 2 && steps[0] == 1 && steps[1] == 2
            && (forall k | 0 <= k < |configured| :: steps[k + 2] == configured[k] * 10 % POW32)
            && |Fresh(configured).bins| == steps[|steps| - 1]
            && (forall b | 0 <= b < |Fresh(configured).bins| :: Fresh(configured).bins[b] == [])
            && Fresh(configured).currentBin == 0 && Fresh(configured).chanId == 0
  {
  }

  /** With configured seconds c1 <= ... in 1..last, the ticks are 1, 2, 10*c1, ... and the wheel fits them. */
  lemma ConfiguredFits(configured: seq<Word32>)
    requires configured != []
    requires forall k | 0 <= k < |configured| :: 1 <= configured[k] <= configured[|configured| - 1]
    requires configured[|configured| - 1] * 10 < POW32
    ensures FitsWheel(Backoff(configured), |Fresh(configured).bins|)
    ensures Backoff(configured)[0] == 1 && Backoff(configured)[1] == 2
    ensures forall k | 0 <= k < |configured| :: Backoff(configured)[k + 2] == configured[k] * 10
  {
  }

  // ---------------------------------------------------------------- fairness across purges

  /** Purges come at least `n` ticks apart; `since` ticks have passed since the last one. */
  predicate PurgesApart(es: seq<Event>, since: int, n: nat)
    decreases es
  {
    if es == [] then true
    else if es[0].PurgeAt? then since >= n && PurgesApart(es[1..], 0, n)
    else PurgesApart(es[1..], After(since, es[0]), n)
  }

  /** From `last` on, through all of `ticks` and up to `end`, no wait is `bound` or longer. */
  predicate NoWaitOf(bound: int, last: int, ticks: seq<int>, end: int)
    decreases ticks
  {
    if ticks == [] then end < last + bound
    else ticks[0] < last + bound && NoWaitOf(bound, ticks[0], ticks[1..], end)
  }

  lemma NoWaitCons(bound: int, last: int, t: int, ticks: seq<int>, end: int)
    requires t < last + bound && NoWaitOf(bound, t, ticks, end)
    ensures NoWaitOf(bound, last, [t] + ticks, end)
  {
    assert ([t] + ticks)[1..] == ticks;
  }

  /** The next search is at most a turn after the last one, or less than a turn after a purge that was. */
  ghost predicate Bounded(due: int, now: int, last: int, since: int, n: nat) {
    since >= 0 && (due <= last + n || (due < now - since + n && now - since <= last + n))
  }

  /**
   * If purges are at least one turn apart, a PV that stays is never left waiting for two
   * turns, in however many purges it is dealt to another bin.
   */
  lemma {:induction false} FairAcrossPurges(w: Wheel, s: Spec, es: seq<Event>, name: PvName, last: int, since: int)
    requires Refines(w, s) && name in s.plan && Stays(w, es, name)
    requires PurgesApart(es, since, s.n) && Bounded(s.plan[name].due, s.now, last, since, s.n)
    ensures NoWaitOf(2 * s.n, last, SendTicks(w, s.now, es, name), EndTick(s.now, es))
    decreases es
  {
    hide Refines, Agrees, Step, Stays, SendTicks, EndTick, NoPurge, Sends, Present;
    SlotNow(w, s, name);
    if es == [] {
      NoEvent(w, s.now, name);
    } else {
      FirstEvent(w, s.now, es, name);
      var s' := SlotStep(w, s, es[0], name);
      var sent := Sends(Step(w, es[0]).1, name);
      var since' := if es[0].PurgeAt? then 0 else After(since, es[0]);
      FairAcrossPurges(Step(w, es[0]).0, s', es[1..], name, if sent then s.now else last, since');
      if sent {
        NoWaitCons(2 * s.n, last, s.now, SendTicks(Step(w, es[0]).0, s'.now, es[1..], name), EndTick(s.now, es));
      }
    }
  }

  /** Without a purge no wait is longer than one turn. */
  lemma {:induction false} FairWithoutPurge(w: Wheel, s: Spec, es: seq<Event>, name: PvName, last: int)
    requires Refines(w, s) && name in s.plan && Stays(w, es, name)
    requires NoPurge(es) && s.plan[name].due <= last + s.n
    ensures NoWaitOf(s.n + 1, last, SendTicks(w, s.now, es, name), EndTick(s.now, es))
    decreases es
  {
    hide Refines, Agrees, Step, Stays, SendTicks, EndTick, NoPurge, Sends, Present;
    SlotNow(w, s, name);
    if es == [] {
      NoEvent(w, s.now, name);
    } else {
      FirstEvent(w, s.now, es, name);
      var s' := SlotStep(w, s, es[0], name);
      var sent := Sends(Step(w, es[0]).1, name);
      FairWithoutPurge(Step(w, es[0]).0, s', es[1..], name, if sent then s.now else last);
      if sent {
        NoWaitCons(s.n + 1, last, s.now, SendTicks(Step(w, es[0]).0, s'.now, es[1..], name), EndTick(s.now, es));
      }
    }
  }

  /** After a purge every survivor is sent within one turn. */
  lemma SentSoonAfterPurge(w: Wheel, s: Spec, time: Time, maxtime: Word32, es: seq<Event>, name: PvName)
    requires Refines(w, s) && name in s.plan
    requires var w' := Step(w, PurgeAt(time, maxtime)).0; Stays(w', es, name) && NoPurge(es)
    requires EndTick(s.now, es) >= s.now + s.n
    ensures var ticks := SendTicks(Step(w, PurgeAt(time, maxtime)).0, s.now, es, name);
            ticks != [] && s.now <= ticks[0] < s.now + s.n
  {
    var w' := Step(w, PurgeAt(time, maxtime)).0;
    var s' := SlotStep(w, s, PurgeAt(time, maxtime), name);
    SendTimes(w', s', es, name);
  }

  // ---------------------------------------------------------------- whose reply it is

  /** Channel ids are handed out in order, so the k-th name added owns id k. */
  ghost predicate Attributed(s: Spec, names: seq<PvName>) {
    && |names| == s.nextId
    && forall name | name in s.plan :: s.plan[name].chanId < |names| && names[s.plan[name].chanId] == name
  }

  /** The names added by a run, in the order of their ids. */
  function Added(w: Wheel, es: seq<Event>): seq<PvName>
    requires Valid(w)
    decreases es
  {
    if es == [] then []
    else
      var (w', out) := Step(w, es[0]);
      Owners([], es[0], out) + Added(w', es[1..])
  }

  /** Requests and accepted replies pair each id with the name that owns it. */
  predicate PairsWith(e: Event, out: Output, names: seq<PvName>) {
    match out
    case Sent(pvs) => forall j | 0 <= j < |pvs| :: pvs[j].0 < |names| && names[pvs[j].0] == pvs[j].1
    case Found(Some(name)) => e.Reply? && e.id < |names| && names[e.id] == name
    case _ => true
  }

  /** The names with ids, after an event. */
  function Owners(names: seq<PvName>, e: Event, out: Output): seq<PvName> {
    if out == Accepted(true) && e.Search? then names + [e.pvname] else names
  }

  lemma SpecAttributes(s: Spec, e: Event, s': Spec, out: Output, names: seq<PvName>)
    requires SpecStep(s, e, s', out) && Attributed(s, names) && |Owners(names, e, out)| < POW32
    ensures Attributed(s', Owners(names, e, out)) && PairsWith(e, out, names)
  {
    if e.SendTick? {
      assert forall j | 0 <= j < |out.pvs| :: out.pvs[j] in out.pvs;
    }
  }

  lemma AttributedStep(w: Wheel, s: Spec, e: Event, names: seq<PvName>) returns (s': Spec)
    requires Refines(w, s) && Attributed(s, names) && |Owners(names, e, Step(w, e).1)| < POW32
    ensures Refines(Step(w, e).0, s') && SpecStep(s, e, s', Step(w, e).1)
    ensures Attributed(s', Owners(names, e, Step(w, e).1)) && PairsWith(e, Step(w, e).1, names)
  {
    hide Step, SpecStep, Attributed, PairsWith, Owners;
    assert Valid(w);
    hide Refines;
    s' := StepRefines(w, s, e);
    SpecAttributes(s, e, s', Step(w, e).1, names);
  }

  /**
   * Reply attribution: with fewer than 2^32 additions, every request sent in a run carries
   * the id that its name owns, and every reply that is accepted takes out exactly the PV
   * whose requests carried the reply's id.
   */
  lemma {:induction false} RepliesAreAttributed(w: Wheel, s: Spec, es: seq<Event>, names: seq<PvName>)
    requires Refines(w, s) && Attributed(s, names)
    requires |names| + |Added(w, es)| < POW32
    ensures forall i | 0 <= i < |es| :: PairsWith(es[i], Outputs(w, es)[i], names + Added(w, es))
    decreases es
  {
    hide Attributed, PairsWith, Step, Outputs, Added, Refines;
    if es != [] {
      ValidWheel(w, s);
      var (w', out) := Step(w, es[0]);
      AddedCons(w, es, names);
      var s' := AttributedStep(w, s, es[0], names);
      FirstOutput(w, es);
      RepliesAreAttributed(w', s', es[1..], Owners(names, es[0], out));
      PairsExtend(es[0], out, names, Added(w, es));
      forall i | 0 <= i < |es| ensures PairsWith(es[i], Outputs(w, es)[i], names + Added(w, es)) {
        if i > 0 {
          assert Outputs(w, es)[i] == Outputs(w', es[1..])[i - 1] && es[i] == es[1..][i - 1];
        }
      }
    }
  }

  lemma ValidWheel(w: Wheel, s: Spec)
    requires Refines(w, s)
    ensures Valid(w)
  {
  }

  lemma AddedCons(w: Wheel, es: seq<Event>, names: seq<PvName>)
    requires Valid(w) && es != []
    ensures var (w', out) := Step(w, es[0]);
            && Owners(names, es[0], out) + Added(w', es[1..]) == names + Added(w, es)
            && |Owners(names, es[0], out)| + |Added(w', es[1..])| == |names| + |Added(w, es)|
  {
    hide Step, Owners, Added;
    var (w', out) := Step(w, es[0]);
    AddedUnfold(w, es);
    OwnersAppend(names, es[0], out, Added(w', es[1..]));
  }

  lemma AddedUnfold(w: Wheel, es: seq<Event>)
    requires Valid(w) && es != []
    ensures var (w', out) := Step(w, es[0]); Added(w, es) == Owners([], es[0], out) + Added(w', es[1..])
  {
    hide Step, Owners;
  }

  lemma OwnersAppend(names: seq<PvName>, e: Event, out: Output, rest: seq<PvName>)
    ensures Owners(names, e, out) + rest == names + (Owners([], e, out) + rest)
  {
  }

  lemma PairsExtend(e: Event, out: Output, names: seq<PvName>, more: seq<PvName>)
    requires PairsWith(e, out, names)
    ensures PairsWith(e, out, names + more)
  {
  }

  /** No PV in the wheel has this id. */
  ghost predicate Retired(s: Spec, id: Word32) {
    id < s.nextId && forall name | name in s.plan :: s.plan[name].chanId != id
  }

  /** Once a PV is out of the wheel, no later reply to its old id finds anything or changes the wheel. */
  lemma {:induction false} LateRepliesAreIgnored(w: Wheel, s: Spec, es: seq<Event>, names: seq<PvName>, id: Word32)
    requires Refines(w, s) && Attributed(s, names) && Retired(s, id)
    requires |names| + |Added(w, es)| < POW32
    ensures Resolve(Run(w, es), id) == (Run(w, es), None)
    decreases es
  {
    ValidWheel(w, s);
    hide Agrees, Step, Attributed, Added, Run, SpecStep;
    if es == [] {
      NothingRun(w);
      ResolveRefines(w, s.now, s.plan, id);
    } else {
      var (w', out) := Step(w, es[0]);
      AddedCons(w, es, names);
      var s' := AttributedStep(w, s, es[0], names);
      IdsBelow(s, names);
      if out == Accepted(true) {
        AddsOne(s, es[0], s', out, names);
      }
      FirstOutput(w, es);
      RetiredStep(s, es[0], s', out, id);
      LateRepliesAreIgnored(w', s', es[1..], Owners(names, es[0], out), id);
    }
  }

  lemma NothingRun(w: Wheel)
    requires Valid(w)
    ensures Run(w, []) == w
  {
  }

  lemma IdsBelow(s: Spec, names: seq<PvName>)
    requires Attributed(s, names)
    ensures s.nextId == |names|
  {
  }

  lemma AddsOne(s: Spec, e: Event, s': Spec, out: Output, names: seq<PvName>)
    requires SpecStep(s, e, s', out) && out == Accepted(true)
    ensures |Owners(names, e, out)| == |names| + 1
  {
  }

  lemma RetiredStep(s: Spec, e: Event, s': Spec, out: Output, id: Word32)
    requires Retired(s, id) && SpecStep(s, e, s', out) && (out == Accepted(true) ==> s.nextId + 1 < POW32)
    ensures Retired(s', id)
  {
  }

  /** An accepted reply retires its id, so a duplicate of it is ignored. */
  lemma AcceptedIsRetired(w: Wheel, s: Spec, id: Word32, names: seq<PvName>) returns (s': Spec)
    requires Refines(w, s) && Attributed(s, names) && Resolve(w, id).1.Some?
    ensures Refines(Resolve(w, id).0, s') && Attributed(s', names) && Retired(s', id)
  {
    ResolveRefines(w, s.now, s.plan, id);
    s' := s.(plan := s.plan - {Resolve(w, id).1.value});
  }

  /**
   * The exact law of the missed bin: a reply under the id that a searched PV owns is accepted
   * for it if and only if the PV is not in the bin that the lookup does not reach.
   */
  lemma AcceptedExactly(w: Wheel, s: Spec, names: seq<PvName>, name: PvName)
    requires Refines(w, s) && Attributed(s, names) && name in s.plan
    ensures s.n > 0
    ensures Resolve(w, s.plan[name].chanId).1 == Some(name) <==> !Escapes(s.plan[name], s.now, s.cur, s.n)
  {
    ResolveRefines(w, s.now, s.plan, s.plan[name].chanId);
  }

  // ---------------------------------------------------------------- what stays of the backoff list

  predicate IsSuffix(rest: seq<Word32>, all: seq<Word32>) {
    rest != [] && |rest| <= |all| && rest == all[|all| - |rest|..]
  }

  ghost predicate Suffixes(s: Spec) {
    s.intervals != [] && forall name | name in s.plan :: IsSuffix(s.plan[name].rest, s.intervals)
  }

  lemma SuffixLeft(rest: seq<Word32>, all: seq<Word32>)
    requires IsSuffix(rest, all)
    ensures IsSuffix(Left(rest), all)
  {
  }

  /** In every step what a PV has left of its backoff is a non-empty suffix of the configured list. */
  lemma SuffixesKept(s: Spec, e: Event, s': Spec, out: Output)
    requires Suffixes(s) && SpecStep(s, e, s', out)
    ensures Suffixes(s')
  {
    hide IsSuffix, Left;
    forall name | name in s'.plan ensures IsSuffix(s'.plan[name].rest, s.intervals) {
      match e
      case Search(_, _) => WholeIsSuffix(s.intervals);
      case Forget(_) =>
      case Reply(_) =>
      case SendTick => SuffixLeft(s.plan[name].rest, s.intervals);
      case PurgeAt(_, _) =>
    }
  }

  lemma WholeIsSuffix(all: seq<Word32>)
    requires all != []
    ensures IsSuffix(all, all)
  {
    assert all[0..] == all;
  }

  lemma {:induction false} SuffixesInRun(ss: seq<Spec>, es: seq<Event>, outs: seq<Output>, k: nat)
    requires SpecRun(ss, es, outs) && k <= |es| && Suffixes(ss[0])
    ensures Suffixes(ss[k]) && ss[k].intervals == ss[0].intervals
    decreases k
  {
    hide Suffixes;
    if k > 0 {
      SuffixesInRun(ss, es, outs, k - 1);
      assert SpecStep(ss[k - 1], es[k - 1], ss[k - 1 + 1], outs[k - 1]);
      SuffixesKept(ss[k - 1], es[k - 1], ss[k], outs[k - 1]);
    }
  }

  /** After every run of a new searcher, what any PV has left is a non-empty suffix of the configured backoff. */
  lemma RemainingIsSuffix(configured: seq<Word32>, es: seq<Event>, p: Pos)
    requires |Fresh(configured).bins| > 0 && Valid(Fresh(configured)) && ValidPos(Run(Fresh(configured), es).bins, p)
    ensures IsSuffix(At(Run(Fresh(configured), es).bins, p).intervals, Backoff(configured))
  {
    hide IsSuffix, SpecStep, Run, Outputs, Agrees;
    var w, start := Fresh(configured), Spec(0, 0, |Fresh(configured).bins|, Backoff(configured), 0, map[]);
    FreshRefines(configured, 0);
    var ss := RunRefines(w, start, es);
    SuffixesInRun(ss, es, Outputs(w, es), |es|);
    EntryIsPlanned(Run(w, es), ss[|es|].now, ss[|es|].plan, p);
  }
}
