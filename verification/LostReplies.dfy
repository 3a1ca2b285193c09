/**
 * Replies that are never accepted: the lookup does not reach the last bin when the wheel stands
 * at bin 0, unless the bin count divides 2^64.
 */
module LostReplies {
  import opened Prelude
  import opened SearchWheel
  import opened Schedule
  import opened SearchRuns
  import opened Modular
  import Rebalance

  /** Nothing but clients, finds of other PVs and replies: the wheel does not turn. */
  predicate Standing(es: seq<Event>, name: PvName) {
    forall i | 0 <= i < |es| :: StandsStill(es[i], name)
  }

  predicate StandsStill(e: Event, name: PvName) {
    !e.SendTick? && !e.PurgeAt? && e != Forget(name)
  }

  lemma DeafStep(s: Spec, e: Event, s': Spec, out: Output, names: seq<PvName>, name: PvName)
    requires SpecStep(s, e, s', out) && Attributed(s, names) && StandsStill(e, name)
    requires name in s.plan && Escapes(s.plan[name], s.now, s.cur, s.n)
    ensures s'.n == s.n && name in s'.plan && s'.plan[name].chanId == s.plan[name].chanId
    ensures Escapes(s'.plan[name], s'.now, s'.cur, s'.n)
    ensures e == Reply(s.plan[name].chanId) ==> out == Found(None)
  {
  }

  /** A PV that is in the hidden bin stays unfound for as long as the wheel stands. */
  lemma {:induction false} HiddenIsDeaf(w: Wheel, s: Spec, es: seq<Event>, names: seq<PvName>, name: PvName, i: nat)
    requires Refines(w, s) && Attributed(s, names) && |names| + |Added(w, es)| < POW32
    requires name in s.plan && s.n > 0 && Escapes(s.plan[name], s.now, s.cur, s.n) && Standing(es, name)
    requires i < |es| && es[i] == Reply(s.plan[name].chanId)
    ensures Outputs(w, es)[i] == Found(None)
    decreases es
  {
    ValidWheel(w, s);
    hide Refines, Attributed, Step, Outputs, Added, SpecStep, Escapes, StandsStill;
    AddedCons(w, es, names);
    FirstOutput(w, es);
    var (w', out) := Step(w, es[0]);
    var s' := AttributedStep(w, s, es[0], names);
    DeafStep(s, es[0], s', out, names, name);
    if i > 0 {
      assert forall k | 0 <= k < |es[1..]| :: es[1..][k] == es[k + 1];
      HiddenIsDeaf(w', s', es[1..], Owners(names, es[0], out), name, i - 1);
    }
  }

  /**
   * The consequence of the missed bin: a PV on its last interval in the last bin, of a count that
   * does not divide 2^64, is asked for, and no reply that comes before the next tick is accepted.
   */
  lemma LastBinIsDeaf(w: Wheel, s: Spec, names: seq<PvName>, name: PvName, es: seq<Event>, i: nat)
    requires Refines(w, s) && Attributed(s, names) && s.n > 0 && s.cur == s.n - 1 && !WrapsEvenly(s.n)
    requires name in s.plan && s.plan[name].due == s.now && |s.plan[name].rest| == 1
    requires var w' := Step(w, SendTick).0; Standing(es, name) && |names| + |Added(w', es)| < POW32
    requires i < |es| && es[i] == Reply(s.plan[name].chanId)
    ensures var (w', out) := Step(w, SendTick);
            out.Sent? && (s.plan[name].chanId, name) in out.pvs && Outputs(w', es)[i] == Found(None)
  {
    hide Agrees, Attributed, Outputs, Added, Step, ExactlyDue, Standing;
    var (w', out) := Step(w, SendTick);
    assert Owners(names, SendTick, out) == names;
    NextBin(s.cur, s.n);
    var s' := AttributedStep(w, s, SendTick, names);
    DueIsSent(out, s.plan, s.now, name);
    assert Escapes(s'.plan[name], s'.now, s'.cur, s'.n);
    HiddenIsDeaf(w', s', es, names, name, i);
  }

  lemma DueIsSent(out: Output, m: Plan, now: int, name: PvName)
    requires out.Sent? && ExactlyDue(out.pvs, m, now) && name in m && m[name].due == now
    ensures (m[name].chanId, name) in out.pvs
  {
  }

  lemma IdleTick(w: Wheel)
    requires Valid(w) && w.bins[w.currentBin] == []
    ensures Step(w, SendTick) == (w.(currentBin := (w.currentBin + 1) % |w.bins|), Sent([]))
  {
    assert w.bins[w.currentBin := []] == w.bins;
  }

  lemma LoneTick(w: Wheel, pv: SearchedPv)
    requires Valid(w) && w.bins[w.currentBin] == [pv] && pv.intervals != []
    ensures Step(w, SendTick) == (w.(bins := Place(w.bins[w.currentBin := []], w.currentBin, pv),
                                     currentBin := (w.currentBin + 1) % |w.bins|),
                                  Sent([(pv.chanId, pv.pvname)]))
  {
    hide Place;
    var placed := Place(w.bins[w.currentBin := []], w.currentBin, pv);
    assert [pv][1..] == [] && Sweep(placed, w.currentBin, []) == placed;
    assert Due([pv]) == [(pv.chanId, pv.pvname)];
  }

  function Ticks(k: nat): seq<Event> {
    seq(k, _ => SendTick)
  }

  lemma {:induction false} IdleTicks(w: Wheel, k: nat, es: seq<Event>)
    requires Valid(w) && w.currentBin + k < |w.bins| && forall b | 0 <= b < |w.bins| :: w.bins[b] == []
    ensures var w' := w.(currentBin := w.currentBin + k);
            Valid(w') && forall i | 0 <= i < |es| :: Outputs(w, Ticks(k) + es)[k + i] == Outputs(w', es)[i]
    decreases k
  {
    hide Step, Outputs, SearchWheel.Valid;
    if k == 0 {
      assert Ticks(0) + es == es;
    } else {
      var next := w.(currentBin := w.currentBin + 1);
      assert (Ticks(k) + es)[1..] == Ticks(k - 1) + es && (Ticks(k) + es)[0] == SendTick;
      IdleTick(w);
      ModSmall(w.currentBin + 1, |w.bins|);
      FirstOutput(w, Ticks(k) + es);
      IdleTicks(next, k - 1, es);
    }
  }

  /** The wheel of a searcher configured with one interval of a second, with one PV in bin `b`. */
  function Lone(b: nat, cur: nat, pv: SearchedPv): Wheel
    requires b < 10
  {
    Wheel([1, 2, 10], Rebalance.Empty<SearchedPv>(10)[b := [pv]], cur, 1)
  }

  lemma LoneSearch(name: ShortName, time: Time)
    ensures var w := Fresh([1]).(currentBin := 6);
            && Valid(w) && |w.bins| == 10
            && Step(w, Search(name, time)) == (Lone(6, 6, SearchedPv(0, name, time, [1, 2, 10])), Accepted(true))
  {
    assert Backoff([1]) == [1, 2, 10];
    var w := Fresh([1]).(currentBin := 6);
    assert Find(w.bins, ScanOrder(10), ByName(name)).None?;
    assert [SearchedPv(0, name, time, [1, 2, 10])] + [] == [SearchedPv(0, name, time, [1, 2, 10])];
  }

  lemma LoneMoves(b: nat, to: nat, pv: SearchedPv)
    requires b < 10 && to < 10 && WellFormed(pv)
    requires to == if |pv.intervals| > 1 then (b + pv.intervals[0]) % 10 else b
    ensures Valid(Lone(b, b, pv))
    ensures Step(Lone(b, b, pv), SendTick) ==
            (Lone(to, (b + 1) % 10, pv.(intervals := Left(pv.intervals))), Sent([(pv.chanId, pv.pvname)]))
  {
    var w := Lone(b, b, pv);
    LoneTick(w, pv);
    var bins := w.bins[b := []];
    assert bins == Rebalance.Empty<SearchedPv>(10);
    assert [pv.(intervals := Left(pv.intervals))] + [] == [pv.(intervals := Left(pv.intervals))];
    assert [] + [pv] == [pv];
  }

  lemma LoneIsMissed(pv: SearchedPv)
    requires WellFormed(pv)
    ensures Valid(Lone(9, 0, pv)) && Step(Lone(9, 0, pv), Reply(pv.chanId)) == (Lone(9, 0, pv), Found(None))
  {
    hide Find, ProbeOrder;
    ProbeCoverage(0, 10, 9);
  }

  /** The last two ticks, and the reply. */
  lemma LoneEnd(pv: SearchedPv)
    requires WellFormed(pv) && |pv.intervals| == 1
    ensures Valid(Lone(9, 8, pv))
    ensures Outputs(Lone(9, 8, pv), [SendTick, SendTick, Reply(pv.chanId)]) ==
            [Sent([]), Sent([(pv.chanId, pv.pvname)]), Found(None)]
  {
    hide Step, Fresh, Lone, Valid, Outputs;
    LoneIdles(pv);
    LoneMoves(9, 9, pv);
    assert pv.(intervals := Left(pv.intervals)) == pv;
    LoneIsMissed(pv);
    var sent := Sent([(pv.chanId, pv.pvname)]);
    NoOutputs(Lone(9, 0, pv));
    LoneRun(Lone(9, 0, pv), Reply(pv.chanId), [], [Reply(pv.chanId)], [Found(None)]);
    LoneRun(Lone(9, 9, pv), SendTick, [Reply(pv.chanId)], [SendTick, Reply(pv.chanId)], [sent, Found(None)]);
    LoneRun(Lone(9, 8, pv), SendTick, [SendTick, Reply(pv.chanId)], [SendTick, SendTick, Reply(pv.chanId)],
            [Sent([]), sent, Found(None)]);
  }

  lemma NoOutputs(w: Wheel)
    requires Valid(w)
    ensures Outputs(w, []) == []
  {
  }

  /** The four ticks after the search, and the reply, step by step. */
  lemma LonePath(name: ShortName, time: Time)
    ensures var w := Fresh([1]).(currentBin := 6);
            && Valid(w)
            && Outputs(w, [Search(name, time), SendTick, SendTick, SendTick, SendTick, Reply(0)]) ==
                 [Accepted(true), Sent([(0, name)]), Sent([(0, name)]), Sent([]), Sent([(0, name)]), Found(None)]
  {
    hide Step, Fresh, Lone, Valid, Outputs;
    var first := SearchedPv(0, name, time, [1, 2, 10]);
    var second, last := first.(intervals := [2, 10]), first.(intervals := [10]);
    LoneSearch(name, time);
    LoneMoves(6, 7, first);
    assert first.(intervals := Left(first.intervals)) == second;
    LoneMoves(7, 9, second);
    assert second.(intervals := Left(second.intervals)) == last;
    LoneEnd(last);
    var sent, last3 := Sent([(0, name)]), [SendTick, SendTick, Reply(0)];
    LoneRun(Lone(7, 7, second), SendTick, last3, [SendTick, SendTick, SendTick, Reply(0)],
            [sent, Sent([]), sent, Found(None)]);
    LoneRun(Lone(6, 6, first), SendTick, [SendTick, SendTick, SendTick, Reply(0)],
            [SendTick, SendTick, SendTick, SendTick, Reply(0)], [sent, sent, Sent([]), sent, Found(None)]);
    LoneRun(Fresh([1]).(currentBin := 6), Search(name, time), [SendTick, SendTick, SendTick, SendTick, Reply(0)],
            [Search(name, time), SendTick, SendTick, SendTick, SendTick, Reply(0)],
            [Accepted(true), sent, sent, Sent([]), sent, Found(None)]);
  }

  lemma LoneIdles(pv: SearchedPv)
    requires WellFormed(pv)
    ensures Valid(Lone(9, 8, pv)) && Step(Lone(9, 8, pv), SendTick) == (Lone(9, 9, pv), Sent([]))
  {
    IdleTick(Lone(9, 8, pv));
  }

  /**
   * A searcher with one interval of a second has 10 bins. A name asked for at tick 6 is sent for
   * the third time at tick 9, and the IOC's answer to that request is ignored.
   */
  lemma AnswerIsLost(name: ShortName, time: Time)
    ensures var es := Ticks(6) + [Search(name, time), SendTick, SendTick, SendTick, SendTick, Reply(0)];
            Valid(Fresh([1])) && Outputs(Fresh([1]), es)[10] == Sent([(0, name)])
                && Outputs(Fresh([1]), es)[11] == Found(None)
  {
    LonePath(name, time);
    FreshIsIdle();
    hide Fresh, Outputs, Valid;
    var w, rest := Fresh([1]), [Search(name, time), SendTick, SendTick, SendTick, SendTick, Reply(0)];
    IdleTicks(w, 6, rest);
    assert Outputs(w, Ticks(6) + rest)[6 + 4] == Outputs(w.(currentBin := 6), rest)[4];
    assert Outputs(w, Ticks(6) + rest)[6 + 5] == Outputs(w.(currentBin := 6), rest)[5];
  }

  lemma FreshIsIdle()
    ensures var w := Fresh([1]);
            && Valid(w) && w.currentBin == 0 && |w.bins| == 10
            && forall b | 0 <= b < 10 :: w.bins[b] == []
  {
    assert Backoff([1]) == [1, 2, 10];
  }

  lemma LoneRun(w: Wheel, e: Event, rest: seq<Event>, es: seq<Event>, out: seq<Output>)
    requires Valid(w) && es == [e] + rest && out == [Step(w, e).1] + Outputs(Step(w, e).0, rest)
    ensures Outputs(w, es) == out
  {
    hide Step;
    assert es[1..] == rest;
  }
}
