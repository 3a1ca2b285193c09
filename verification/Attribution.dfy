/**
 * Where a cached reply comes from: an IOC that replied to one of the searchers under the
 * channel id that the name itself owns there.
 */
module Attribution {
  import opened Prelude
  import opened NameServer
  import opened CacheLaws
  import opened ServerLaws
  import opened Traces
  import SearchWheel
  import SearchRuns

  /** What is in the eager cache was there before or has been found since. */
  lemma {:induction false} CachedWasFound(c: Cache, trace: seq<Seen>, name: PvName)
    requires name in EagerRun(c, trace)
    ensures var entry := EagerRun(c, trace)[name];
            || (name in c && c[name] == entry)
            || exists j :: 0 <= j < |trace| && trace[j] == Found(name, entry.0, entry.1)
    decreases trace
  {
    if trace != [] {
      var next, entry := EagerStep(c, trace[0]), EagerRun(c, trace)[name];
      CachedWasFound(next, trace[1..], name);
      if j :| 0 <= j < |trace[1..]| && trace[1..][j] == Found(name, entry.0, entry.1) {
        assert trace[j + 1] == Found(name, entry.0, entry.1);
      } else if name !in c || c[name] != entry {
        assert trace[0] == Found(name, entry.0, entry.1);
      }
    }
  }

  lemma {:induction false} SearcherRunAppend(s: System, es: seq<Event>, fs: seq<Event>, k: nat)
    requires Sane(s) && Possible(s, es) && Possible(Run(s, es), fs)
    ensures Possible(s, es + fs) && SearcherRun(s, es + fs, k) == SearcherRun(s, es, k) + SearcherRun(Run(s, es), fs, k)
    decreases es
  {
    hide Sane, Step, Enabled, SearcherEvents;
    if es == [] {
      assert es + fs == fs;
    } else {
      assert (es + fs)[1..] == es[1..] + fs && (es + fs)[0] == es[0];
      SearcherRunAppend(Step(s, es[0]).0, es[1..], fs, k);
    }
  }

  /** The channel ids of a searcher over a run, each with the name that owns it. */
  function OwnersIn(s: System, es: seq<Event>, k: nat): seq<PvName>
    requires Sane(s) && Possible(s, es) && k < |s.searchers|
  {
    SearchRuns.Added(s.searchers[k], SearcherRun(s, es, k))
  }

  /** The outputs of a searcher's own run, up to one event. */
  lemma {:induction false} OutputAt(w: SearchWheel.Wheel, es: seq<SearchRuns.Event>, e: SearchRuns.Event,
                                    fs: seq<SearchRuns.Event>)
    requires SearchWheel.Valid(w)
    ensures SearchRuns.Outputs(w, es + [e] + fs)[|es|] == SearchRuns.Step(SearchRuns.Run(w, es), e).1
    decreases es
  {
    hide SearchWheel.Valid, SearchRuns.Step;
    if es == [] {
      assert ([e] + fs)[1..] == fs && es + [e] + fs == [e] + fs;
    } else {
      assert (es + [e] + fs)[1..] == es[1..] + [e] + fs;
      OutputAt(SearchRuns.Step(w, es[0]).0, es[1..], e, fs);
    }
  }

  /** What the step that found a name was: a reply that one searcher accepted for it. */
  lemma FoundByReply(m: System, e: Event, name: PvName, addr: Addr, response: Bytes)
    requires Sane(m) && Enabled(m, e) && Step(m, e).1 == Found(name, addr, response)
    ensures e.Reply? && e.addr == addr && e.response == response && e.searcher < |m.searchers|
    ensures SearchWheel.Valid(m.searchers[e.searcher])
    ensures SearchWheel.Resolve(m.searchers[e.searcher], e.id).1 == Some(name)
  {
    hide SearchWheel.Valid, SearchWheel.Resolve, PvFound, PvSearched, GuardStep, SearcherTick, PurgeAll;
    assert SearchWheel.Valid(m.searchers[e.searcher]);
  }

  /** With fewer than 2^32 additions to a new searcher, a reply is accepted for the name that owns its id. */
  lemma FoundUnderOwnId(configured: seq<Word32>, run: seq<SearchRuns.Event>, i: nat, id: Word32, name: PvName)
    requires |SearchWheel.Fresh(configured).bins| > 0 && SearchWheel.Valid(SearchWheel.Fresh(configured))
    requires var owners := SearchRuns.Added(SearchWheel.Fresh(configured), run); |owners| < POW32
    requires i < |run| && run[i] == SearchRuns.Reply(id)
    requires SearchRuns.Outputs(SearchWheel.Fresh(configured), run)[i] == SearchRuns.Found(Some(name))
    ensures var owners := SearchRuns.Added(SearchWheel.Fresh(configured), run); id < |owners| && owners[id] == name
  {
    var w := SearchWheel.Fresh(configured);
    var start := SearchRuns.Spec(0, 0, |w.bins|, SearchWheel.Backoff(configured), 0, map[]);
    SearchRuns.FreshRefines(configured, 0);
    assert SearchRuns.Attributed(start, []);
    hide SearchRuns.Outputs, SearchRuns.Added, SearchRuns.Refines, SearchRuns.Attributed, SearchWheel.Fresh;
    assert [] + SearchRuns.Added(w, run) == SearchRuns.Added(w, run);
    SearchRuns.RepliesAreAttributed(w, start, run, []);
    assert SearchRuns.PairsWith(run[i], SearchRuns.Outputs(w, run)[i], [] + SearchRuns.Added(w, run));
  }

  /** Event `i` of the run is the reply that is now cached for the name, and it came under the name's own channel id. */
  predicate Earned(s: System, es: seq<Event>, name: PvName, i: nat)
    requires Sane(s) && Possible(s, es)
  {
    && i < |es| && es[i].Reply? && es[i].searcher < |s.searchers| && name in View(Run(s, es))
    && View(Run(s, es))[name] == (es[i].addr, es[i].response)
    && var owners := OwnersIn(s, es, es[i].searcher);
       es[i].id < |owners| && owners[es[i].id] == name
  }

  lemma ReplyComesFirst(m: System, fs: seq<Event>)
    requires Sane(m) && Possible(m, fs) && fs != [] && fs[0].Reply?
    ensures var run := SearcherRun(m, fs, fs[0].searcher);
            run != [] && run[0] == SearchRuns.Reply(fs[0].id) && run == [run[0]] + run[1..]
  {
    hide Sane, Step, SearchWheel.Resolve;
  }

  /** The searcher's own run, cut at the reply. */
  lemma SearcherRunSplits(s: System, es: seq<Event>, i: nat) returns (rest: seq<SearchRuns.Event>)
    requires Sane(s) && Possible(s, es) && i < |es| && Possible(s, es[..i]) && es[i].Reply?
    ensures SearcherRun(s, es, es[i].searcher) ==
            SearcherRun(s, es[..i], es[i].searcher) + [SearchRuns.Reply(es[i].id)] + rest
  {
    hide Sane, Step, SearcherRun, Enabled;
    RunUntil(s, es, i);
    assert es[..i] + es[i..] == es && es[i..][0] == es[i];
    SearcherRunAppend(s, es[..i], es[i..], es[i].searcher);
    ReplyComesFirst(Run(s, es[..i]), es[i..]);
    rest := SearcherRun(Run(s, es[..i]), es[i..], es[i].searcher)[1..];
  }

  /** The searcher's own run up to the reply, and its output there. */
  lemma ReplyInSearcherRun(s: System, es: seq<Event>, i: nat, name: PvName) returns (at: nat)
    requires Sane(s) && Possible(s, es) && i < |es| && Possible(s, es[..i])
    requires es[i].Reply? && es[i].searcher < |s.searchers|
    requires var m := Run(s, es[..i]);
             && |m.searchers| == |s.searchers| && SearchWheel.Valid(m.searchers[es[i].searcher])
             && SearchWheel.Resolve(m.searchers[es[i].searcher], es[i].id).1 == Some(name)
    ensures var k := es[i].searcher; var run := SearcherRun(s, es, k);
            && SearchWheel.Valid(s.searchers[k]) && at < |run| && run[at] == SearchRuns.Reply(es[i].id)
            && SearchRuns.Outputs(s.searchers[k], run)[at] == SearchRuns.Found(Some(name))
  {
    var k := es[i].searcher;
    hide Sane, Step, Run, Possible, SearcherRun, SearchWheel.Valid, SearchWheel.Resolve, SearchRuns.Run,
         SearchRuns.Outputs;
    SearchersRun(s, es[..i], k);
    var rest := SearcherRunSplits(s, es, i);
    var before := SearcherRun(s, es[..i], k);
    OutputAt(s.searchers[k], before, SearchRuns.Reply(es[i].id), rest);
    at := |before|;
  }

  /** In a run that starts with nothing cached, the last reply that found a name is the one that is cached. */
  lemma CachedWasReply(s: System, es: seq<Event>, name: PvName) returns (i: nat)
    requires Inv(s) && Possible(s, es) && View(s) == map[] && name in View(Run(s, es))
    ensures i < |es| && Possible(s, es[..i]) && es[i].Reply? && es[i].searcher < |s.searchers|
    ensures View(Run(s, es))[name] == (es[i].addr, es[i].response)
    ensures var m := Run(s, es[..i]);
            && |m.searchers| == |s.searchers| && SearchWheel.Valid(m.searchers[es[i].searcher])
            && SearchWheel.Resolve(m.searchers[es[i].searcher], es[i].id).1 == Some(name)
  {
    InvIsSane(s);
    hide Sane, Inv, View, Step, EagerRun, Run, Possible, SearchWheel.Valid;
    RunRefinesEager(s, es);
    var entry := View(Run(s, es))[name];
    CachedWasFound(map[], Trace(s, es), name);
    i :| 0 <= i < |es| && Trace(s, es)[i] == Found(name, entry.0, entry.1);
    RunUntil(s, es, i);
    FoundByReply(Run(s, es[..i]), es[i], name, entry.0, entry.1);
    SearcherCount(s, es[..i]);
  }

  /**
   * Whatever is cached live in a run from the start is the reply of an IOC that came under the
   * channel id which the name owns in the searcher that got it.
   */
  lemma CachedIsEarned(searchers: nat, listeners: nat, configured: seq<Word32>, es: seq<Event>, name: PvName)
      returns (i: nat)
    requires |SearchWheel.Fresh(configured).bins| > 0
    requires var s := Start(searchers, listeners, configured);
             && Sane(s) && Possible(s, es) && name in View(Run(s, es))
             && forall k | 0 <= k < |s.searchers| :: |OwnersIn(s, es, k)| < POW32
    ensures Earned(Start(searchers, listeners, configured), es, name, i)
  {
    var s := Start(searchers, listeners, configured);
    StartIsSound(searchers, listeners, configured);
    assert View(s) == map[];
    StartWheels(searchers, listeners, configured);
    hide Start, Sane, Inv, Answers, InStep, View, Run, Possible, SearcherRun, SearchWheel.Fresh, SearchWheel.Valid;
    i := CachedWasReply(s, es, name);
    var at := ReplyInSearcherRun(s, es, i, name);
    var k := es[i].searcher;
    assert |OwnersIn(s, es, k)| < POW32;
    FoundUnderOwnId(configured, SearcherRun(s, es, k), at, es[i].id, name);
  }

  lemma StartWheels(searchers: nat, listeners: nat, configured: seq<Word32>)
    ensures forall k | 0 <= k < |Start(searchers, listeners, configured).searchers| ::
              Start(searchers, listeners, configured).searchers[k] == SearchWheel.Fresh(configured)
  {
  }

  lemma {:induction false} SearcherCount(s: System, es: seq<Event>)
    requires Sane(s) && Possible(s, es)
    ensures |Run(s, es).searchers| == |s.searchers|
    decreases es
  {
    hide Sane, Step, Enabled;
    if es != [] {
      StepKeepsCount(s, es[0]);
      SearcherCount(Step(s, es[0]).0, es[1..]);
    }
  }
}
