/** The searcher object: the wheel held in mutable fields, and the loops that work on it. */
module Searchers {
  import opened Prelude
  import opened Rebalance
  import opened SearchWheel
  import opened ChannelAccess
  import opened CodecLaws
  import opened ChannelIds

  class Searcher {
    var searchIntervals: seq<Word32>
    var chanId: Word32
    var searchedPvs: seq<Bin>
    var currentBin: nat
    const lastSearch: Time
    const handle: nat  // tells searcher objects apart

    ghost function Model(): Wheel
      reads this
    {
      Wheel(searchIntervals, searchedPvs, currentBin, chanId)
    }

    ghost predicate Valid()
      reads this
    {
      SearchWheel.Valid(Model())
    }

    constructor (handle: nat, configured: seq<Word32>, now: Time)
      requires configured != [] ==> configured[|configured| - 1] * 10 % POW32 > 0
      ensures Valid() && Model() == Fresh(configured)
      ensures this.handle == handle && lastSearch == now
    {
      this.handle := handle;
      lastSearch := now;
      var intervals: seq<Word32> := [];
      for i := 0 to |configured|
        invariant |intervals| == i
        invariant forall k | 0 <= k < i :: intervals[k] == configured[k] * 10 % POW32
      {
        intervals := intervals + [configured[i] * 10 % POW32];
      }
      intervals := [2] + intervals;
      intervals := [1] + intervals;
      assert intervals == Backoff(configured);
      searchIntervals := intervals;
      searchedPvs := Empty(intervals[|intervals| - 1]);
      currentBin, chanId := 0, 0;
    }

    /** Walks through a bin to the first PV with that name or id. */
    static method IndexIn(bin: Bin, key: Key) returns (j: nat)
      ensures j == FirstIn(bin, key)
    {
      j := 0;
      while j < |bin| && !Matches(bin[j], key)
        invariant j <= |bin| && forall k | 0 <= k < j :: !Matches(bin[k], key)
      {
        j := j + 1;
      }
    }

    static lemma FindStep(bins: seq<Bin>, order: seq<nat>, k: Key, i: nat)
      requires InRange(order, |bins|) && i < |order|
      ensures var b := order[i]; var j := FirstIn(bins[b], k);
              Find(bins, order[i..], k) == if j < |bins[b]| then Some(Pos(b, j)) else Find(bins, order[i + 1..], k)
    {
      assert order[i..][0] == order[i] && order[i..][1..] == order[i + 1..];
    }

    static lemma FindWhole(bins: seq<Bin>, order: seq<nat>, k: Key)
      requires InRange(order, |bins|)
      ensures Find(bins, order[0..], k) == Find(bins, order, k)
      ensures Find(bins, order[|order|..], k) == None
    {
      assert order[0..] == order;
    }

    /** The two outcomes of adding, by where the name is found. */
    static lemma AddIs(w: Wheel, pvname: PvName, now: Time)
      requires SearchWheel.Valid(w) && |pvname| <= MAX_NAME
      ensures var pv := SearchedPv(w.chanId, pvname, now, w.searchIntervals);
              Add(w, pvname, now) ==
              match Find(w.bins, ScanOrder(|w.bins|), ByName(pvname))
              case Some(p) =>
                (w.(bins := w.bins[p.bin := w.bins[p.bin][p.idx := w.bins[p.bin][p.idx].(lastSearched := now)]]), false)
              case None =>
                (w.(bins := w.bins[w.currentBin := [pv] + w.bins[w.currentBin]], chanId := (w.chanId + 1) % POW32),
                 true)
    {
    }

    method AddPV(pvname: PvName, now: Time) returns (added: bool)
      requires Valid() && |pvname| <= MAX_NAME
      modifies this
      ensures Valid() && (Model(), added) == Add(old(Model()), pvname, now)
    {
      ghost var order, key := ScanOrder(|searchedPvs|), ByName(pvname);
      FindWhole(searchedPvs, order, key);
      AddIs(Model(), pvname, now);
      assert currentBin < |searchedPvs|;
      hide Find, FirstIn, Add, SearchWheel.Valid;
      for i := 0 to |searchedPvs|
        invariant unchanged(this)
        invariant Find(searchedPvs, order, key) == Find(searchedPvs, order[i..], key)
      {
        FindStep(searchedPvs, order, key, i);
        var j := IndexIn(searchedPvs[i], ByName(pvname));
        if j < |searchedPvs[i]| {
          var pv := searchedPvs[i][j].(lastSearched := now);
          searchedPvs := searchedPvs[i := searchedPvs[i][j := pv]];
          return false;
        }
      }
      var pv := SearchedPv(chanId, pvname, now, searchIntervals);
      chanId := (chanId + 1) % POW32;
      searchedPvs := searchedPvs[currentBin := [pv] + searchedPvs[currentBin]];
      return true;
    }

    /** The bins before `b` are renumbered, and of bin `b` the first `j` PVs. */
    static ghost predicate Renumbering(all: seq<Bin>, b: nat, j: nat, bins: seq<Bin>, next: Word32) {
      && b < |all| == |bins| && j <= |all[b]| && next == (|Flatten(all[..b])| + j) % POW32
      && (forall k | 0 <= k < |all| && k != b :: bins[k] == if k < b then Renumbered(all)[k] else all[k])
      && bins[b] == Renumbered(all)[b][..j] + all[b][j..]
    }

    static lemma RenumberingStart(all: seq<Bin>)
      requires all != []
      ensures Renumbering(all, 0, 0, all, 0)
    {
      assert all[..0] == [] && Renumbered(all)[0][..0] + all[0][0..] == all[0];
    }

    static lemma RenumberingStep(all: seq<Bin>, b: nat, j: nat, bins: seq<Bin>, next: Word32)
      requires Renumbering(all, b, j, bins, next) && j < |all[b]|
      ensures j < |bins[b]| && |bins[b]| == |all[b]|
      ensures Renumbering(all, b, j + 1, bins[b := bins[b][j := bins[b][j].(chanId := next)]], (next + 1) % POW32)
    {
      hide Flatten, Renumbered;
      RenumberedAt(all, b, j);
      NextWord(|Flatten(all[..b])| + j);
      var bin := bins[b][j := bins[b][j].(chanId := next)];
      assert bins[b][j] == all[b][j];
      assert bin[j] == Renumbered(all)[b][j];
      assert bin == Renumbered(all)[b][..j + 1] + all[b][j + 1..];
    }

    static lemma NextWord(x: nat)
      ensures (x % POW32 + 1) % POW32 == (x + 1) % POW32
    {
    }

    static lemma RenumberedAt(all: seq<Bin>, b: nat, j: nat)
      requires b < |all| && j < |all[b]|
      ensures |Renumbered(all)| == |all| && |Renumbered(all)[b]| == |all[b]|
      ensures Renumbered(all)[b][j] == all[b][j].(chanId := (|Flatten(all[..b])| + j) % POW32)
    {
      hide Flatten;
    }

    static lemma RenumberingBin(all: seq<Bin>, b: nat, bins: seq<Bin>, next: Word32)
      requires b < |all| && Renumbering(all, b, |all[b]|, bins, next)
      ensures b + 1 < |all| ==> Renumbering(all, b + 1, 0, bins, next)
      ensures b + 1 == |all| ==> bins == Renumbered(all) && next == |Flatten(all)| % POW32
    {
      hide Flatten;
      FlattenSnoc(all, b);
      assert bins[b] == Renumbered(all)[b];
      if b + 1 < |all| {
        assert bins[b + 1] == Renumbered(all)[b + 1][..0] + all[b + 1][0..];
      } else {
        assert all[..b + 1] == all;
      }
    }

    /** The next channel id; when the ids run out, all PVs are numbered afresh. */
    method GetNextChanId() returns (id: Word32)
      requires Valid()
      modifies this`searchedPvs, this`chanId
      ensures Valid() && (Model(), id) == NextChanId(old(Model()))
    {
      hide Renumbering, Flatten;
      ghost var w := Model();
      chanId := (chanId + 1) % POW32;
      if chanId == INT32_MAX {
        chanId := 0;
        RenumberingStart(searchedPvs);
        for b := 0 to |searchedPvs|
          invariant |searchedPvs| == |w.bins| && searchIntervals == w.searchIntervals && currentBin == w.currentBin
          invariant b < |w.bins| ==> Renumbering(w.bins, b, 0, searchedPvs, chanId)
          invariant b == |w.bins| ==> searchedPvs == Renumbered(w.bins) && chanId == |Flatten(w.bins)| % POW32
        {
          RenumberingSize(w.bins, b, 0, searchedPvs, chanId);
          for j := 0 to |searchedPvs[b]|
            invariant |searchedPvs| == |w.bins| && searchIntervals == w.searchIntervals && currentBin == w.currentBin
            invariant |searchedPvs[b]| == |w.bins[b]|
            invariant Renumbering(w.bins, b, j, searchedPvs, chanId)
          {
            RenumberingStep(w.bins, b, j, searchedPvs, chanId);
            searchedPvs := searchedPvs[b := searchedPvs[b][j := searchedPvs[b][j].(chanId := chanId)]];
            chanId := (chanId + 1) % POW32;
          }
          RenumberingBin(w.bins, b, searchedPvs, chanId);
        }
      }
      return chanId;
    }

    static lemma RenumberingSize(all: seq<Bin>, b: nat, j: nat, bins: seq<Bin>, next: Word32)
      requires Renumbering(all, b, j, bins, next)
      ensures b < |all| == |bins| && |bins[b]| == |all[b]|
    {
    }

    static lemma RemoveIs(w: Wheel, pvname: PvName)
      requires SearchWheel.Valid(w)
      ensures var found := Find(w.bins, ScanOrder(|w.bins|), ByName(pvname));
              && SearchWheel.Valid(Remove(w, pvname))
              && Remove(w, pvname) == match found
                 case Some(p) => w.(bins := w.bins[p.bin := w.bins[p.bin][..p.idx] + w.bins[p.bin][p.idx + 1..]])
                 case None => w
    {
    }

    method RemovePV(pvname: PvName)
      requires Valid()
      modifies this`searchedPvs
      ensures Valid() && Model() == Remove(old(Model()), pvname)
    {
      ghost var order, key := ScanOrder(|searchedPvs|), ByName(pvname);
      FindWhole(searchedPvs, order, key);
      RemoveIs(Model(), pvname);
      hide Find, FirstIn, Remove, SearchWheel.Valid;
      for i := 0 to |searchedPvs|
        invariant unchanged(this)
        invariant Find(searchedPvs, order, key) == Find(searchedPvs, order[i..], key)
      {
        FindStep(searchedPvs, order, key, i);
        var j := IndexIn(searchedPvs[i], ByName(pvname));
        if j < |searchedPvs[i]| {
          searchedPvs := searchedPvs[i := searchedPvs[i][..j] + searchedPvs[i][j + 1..]];
          return;
        }
      }
    }

    static lemma ResolveIs(w: Wheel, id: Word32)
      requires SearchWheel.Valid(w)
      ensures var found := Find(w.bins, ProbeOrder(w.currentBin, |w.bins|), ById(id));
              && |w.bins| > 0 && SearchWheel.Valid(Resolve(w, id).0)
              && Resolve(w, id) == match found
                 case Some(p) => (w.(bins := w.bins[p.bin := w.bins[p.bin][..p.idx] + w.bins[p.bin][p.idx + 1..]]),
                                  Some(w.bins[p.bin][p.idx].pvname))
                 case None => (w, None)
    {
    }

    /** The lookup of processIncoming: takes the PV with this channel id out of the bins that are probed. */
    method ResolveReply(id: Word32) returns (found: Option<PvName>)
      requires Valid()
      modifies this`searchedPvs
      ensures Valid() && (Model(), found) == Resolve(old(Model()), id)
    {
      ghost var order, key := ProbeOrder(currentBin, |searchedPvs|), ById(id);
      FindWhole(searchedPvs, order, key);
      ResolveIs(Model(), id);
      hide Find, FirstIn, ProbeOrder, ProbeIndex, Resolve, SearchWheel.Valid;
      for i := 0 to |searchedPvs|
        invariant unchanged(this)
        invariant Find(searchedPvs, order, key) == Find(searchedPvs, order[i..], key)
      {
        var b := ProbeIndex(currentBin, i, |searchedPvs|);
        FindStep(searchedPvs, order, key, i);
        var j := IndexIn(searchedPvs[b], ById(id));
        if j < |searchedPvs[b]| {
          found := Some(searchedPvs[b][j].pvname);
          searchedPvs := searchedPvs[b := searchedPvs[b][..j] + searchedPvs[b][j + 1..]];
          return found;
        }
      }
      return None;
    }

    /** Before the first 99 ms are over nothing happens; every later call is a tick. */
    predicate Ticks(now: Time) {
      Truncate(now - lastSearch, MILLISECOND) >= 99
    }

    /**
     * The limit of one search in 99 ms holds back the first search only: the time it is measured
     * from is never renewed, so once it has passed, every later call is a tick.
     */
    lemma RateLimitIsOnce(now: Time, later: Time)
      requires now <= later
      ensures Ticks(now) <==> now >= lastSearch + 99 * MILLISECOND
      ensures Ticks(now) ==> Ticks(later)
    {
      var d := now - lastSearch;
      assert d >= 0 ==> Truncate(d, MILLISECOND) == d / MILLISECOND;
      assert d < 0 ==> Truncate(d, MILLISECOND) <= 0;
    }

    /** Splicing the element behind the passed ones is placing it, on values. */
    static lemma SpliceIsPlace(state: seq<Bin>, cur: nat, todo: Bin)
      requires cur < |state| && todo != [] && forall j | 0 <= j < |todo| :: WellFormed(todo[j])
      ensures WellFormed(todo[0])
      ensures Sweep(state, cur, todo) == Sweep(Place(state, cur, todo[0]), cur, todo[1..])
      ensures var bins := state[cur := state[cur] + todo]; var it := |state[cur]|; var pv := todo[0];
              var next := Place(state, cur, pv); var after := next[cur := next[cur] + todo[1..]];
              if |pv.intervals| > 1 then
                var b := (cur + pv.intervals[0]) % |bins|; var moved := pv.(intervals := pv.intervals[1..]);
                var cut := bins[cur := bins[cur][..it] + bins[cur][it + 1..]];
                after == cut[b := [moved] + cut[b]] && |next[cur]| == if b == cur then it + 1 else it
              else
                after == bins && |next[cur]| == it + 1
    {
      var bins := state[cur := state[cur] + todo];
      var it, pv := |state[cur]|, todo[0];
      assert WellFormed(todo[0]);
      var next := Place(state, cur, pv);
      var after := next[cur := next[cur] + todo[1..]];
      if |pv.intervals| > 1 {
        var b := (cur + pv.intervals[0]) % |bins|;
        var moved := pv.(intervals := pv.intervals[1..]);
        var cut := bins[cur := bins[cur][..it] + bins[cur][it + 1..]];
        assert cut[cur] == state[cur] + todo[1..];
        if b == cur {
          assert after[cur] == [moved] + cut[b];
        }
        assert after == cut[b := [moved] + cut[b]];
      } else {
        assert after[cur] == bins[cur];
        assert after == bins;
      }
    }

    static lemma DueStep(bin: Bin, k: nat)
      requires k < |bin|
      ensures Due(bin[..k + 1]) == Due(bin[..k]) + [(bin[k].chanId, bin[k].pvname)]
    {
    }

    static lemma SweepEnd(state: seq<Bin>, cur: nat)
      requires cur < |state|
      ensures Sweep(state, cur, []) == state == state[cur := state[cur] + []]
    {
      assert state[cur] + [] == state[cur];
    }

    /** Moves the PV at `it`, which has just been collected; returns where the next one is. */
    method MoveSent(it: nat, ghost state: seq<Bin>, ghost todo: Bin) returns (next: nat)
      requires currentBin < |state| && todo != [] && forall j | 0 <= j < |todo| :: WellFormed(todo[j])
      requires searchedPvs == state[currentBin := state[currentBin] + todo] && it == |state[currentBin]|
      modifies this`searchedPvs
      ensures WellFormed(todo[0])
      ensures var placed := Place(state, currentBin, todo[0]);
              && searchedPvs == placed[currentBin := placed[currentBin] + todo[1..]]
              && next == |placed[currentBin]|
    {
      hide Place, Sweep;
      SpliceIsPlace(state, currentBin, todo);
      var pv := searchedPvs[currentBin][it];
      if |pv.intervals| > 1 {
        var newBin := (currentBin + pv.intervals[0]) % |searchedPvs|;
        var moved := pv.(intervals := pv.intervals[1..]);
        searchedPvs := searchedPvs[currentBin := searchedPvs[currentBin][..it] + searchedPvs[currentBin][it + 1..]];
        searchedPvs := searchedPvs[newBin := [moved] + searchedPvs[newBin]];
        // spliced into its own bin, it shifts the next element up by one
        next := if newBin == currentBin then it + 1 else it;
      } else {
        next := it + 1;
      }
    }

    /** The sending loop has passed `passed` PVs of the current bin and stands at `it`. */
    static ghost predicate Sweeping(w: Wheel, passed: nat, state: seq<Bin>, bins: seq<Bin>, it: nat, pvs: seq<Request>)
      requires SearchWheel.Valid(w)
    {
      var cur, bin := w.currentBin, w.bins[w.currentBin];
      && |state| == |w.bins| && passed <= |bin| && it == |state[cur]|
      && bins == state[cur := state[cur] + bin[passed..]]
      && pvs == Due(bin[..passed])
      && (forall j | 0 <= j < |bin| :: WellFormed(bin[j]))
      && Sweep(state, cur, bin[passed..]) == Sweep(w.bins[cur := []], cur, bin)
    }

    static lemma SweepingStart(w: Wheel)
      requires SearchWheel.Valid(w)
      ensures Sweeping(w, 0, w.bins[w.currentBin := []], w.bins, 0, [])
    {
      var bin := w.bins[w.currentBin];
      assert [] + bin == bin && bin[0..] == bin;
      assert w.bins == w.bins[w.currentBin := []][w.currentBin := bin];
    }

    static lemma SweepingStep(w: Wheel, passed: nat, state: seq<Bin>, bins: seq<Bin>, it: nat, pvs: seq<Request>)
      requires SearchWheel.Valid(w) && Sweeping(w, passed, state, bins, it, pvs) && passed < |w.bins[w.currentBin]|
      ensures it < |bins[w.currentBin]|
      ensures var cur, bin := w.currentBin, w.bins[w.currentBin];
              var pv := bin[passed]; var todo := bin[passed..];
              && pv == bins[cur][it] == todo[0] && WellFormed(pv)
              && |bins| == |state| && bins == state[cur := state[cur] + todo] && it == |state[cur]|
              && (forall j | 0 <= j < |todo| :: WellFormed(todo[j]))
              && var placed := Place(state, cur, pv);
                 Sweeping(w, passed + 1, placed, placed[cur := placed[cur] + todo[1..]], |placed[cur]|,
                          pvs + [(pv.chanId, pv.pvname)])
    {
      hide Sweep, Place, Due;
      var cur, bin := w.currentBin, w.bins[w.currentBin];
      SpliceIsPlace(state, cur, bin[passed..]);
      DueStep(bin, passed);
      assert bin[passed..][1..] == bin[passed + 1..];
    }

    static lemma SweepingEnd(w: Wheel, passed: nat, state: seq<Bin>, bins: seq<Bin>, it: nat, pvs: seq<Request>)
      requires SearchWheel.Valid(w) && Sweeping(w, passed, state, bins, it, pvs) && passed == |w.bins[w.currentBin]|
      ensures Tick(w) == (w.(bins := bins, currentBin := (w.currentBin + 1) % |w.bins|), pvs)
    {
      var bin := w.bins[w.currentBin];
      assert bin[passed..] == [] && bin[..passed] == bin;
      SweepEnd(state, w.currentBin);
    }

    static lemma SweepingSize(w: Wheel, passed: nat, state: seq<Bin>, bins: seq<Bin>, it: nat, pvs: seq<Request>)
      requires SearchWheel.Valid(w) && Sweeping(w, passed, state, bins, it, pvs)
      ensures |bins| == |w.bins| && passed <= |w.bins[w.currentBin]|
      ensures it < |bins[w.currentBin]| <==> passed < |w.bins[w.currentBin]|
    {
    }

    /** One turn of the sending loop. */
    method SweepOne(it: nat, pvs: seq<Request>, ghost w: Wheel, ghost passed: nat, ghost state: seq<Bin>)
      returns (next: nat, more: seq<Request>, ghost placed: seq<Bin>)
      requires SearchWheel.Valid(w) && currentBin == w.currentBin < |searchedPvs| && it < |searchedPvs[currentBin]|
      requires Sweeping(w, passed, state, searchedPvs, it, pvs)
      modifies this`searchedPvs
      ensures passed < |w.bins[w.currentBin]|
      ensures Sweeping(w, passed + 1, placed, searchedPvs, next, more)
    {
      SweepingSize(w, passed, state, searchedPvs, it, pvs);
      SweepingStep(w, passed, state, searchedPvs, it, pvs);
      hide Sweeping, Place;
      var pv := searchedPvs[currentBin][it];
      more := pvs + [(pv.chanId, pv.pvname)];
      placed := Place(state, currentBin, pv);
      next := MoveSent(it, state, w.bins[w.currentBin][passed..]);
    }

    /** Collects the PVs of the current bin and moves each one to the bin of its next search. */
    method SweepBin() returns (pvs: seq<Request>)
      requires Valid()
      modifies this`searchedPvs, this`currentBin
      ensures Valid() && (Model(), pvs) == Tick(old(Model()))
    {
      hide Sweeping, Tick;
      ghost var w := Model();
      ghost var state, passed := searchedPvs[currentBin := []], 0;
      TickValid(w);
      SweepingStart(w);
      pvs := [];
      var it: nat := 0;
      while it < |searchedPvs[currentBin]|
        invariant currentBin == w.currentBin < |searchedPvs| && passed <= |w.bins[w.currentBin]|
        invariant Sweeping(w, passed, state, searchedPvs, it, pvs)
        decreases |w.bins[w.currentBin]| - passed
      {
        it, pvs, state := SweepOne(it, pvs, w, passed, state);
        passed := passed + 1;
        SweepingSize(w, passed, state, searchedPvs, it, pvs);
      }
      SweepingSize(w, passed, state, searchedPvs, it, pvs);
      SweepingEnd(w, passed, state, searchedPvs, it, pvs);
      currentBin := (currentBin + 1) % |searchedPvs|;
    }

    method ProcessOutgoing(now: Time) returns (packets: seq<Bytes>)
      requires Valid()
      modifies this`searchedPvs, this`currentBin
      ensures Valid() && Model() == if Ticks(now) then Tick(old(Model())).0 else old(Model())
      ensures Received(packets) == if Ticks(now) then OnWire(Tick(old(Model())).1) else []
    {
      if Truncate(now - lastSearch, MILLISECOND) < 99 {
        return [];
      }
      var pvs := SweepBin();
      packets := SendRequests(pvs);
    }

    static lemma KeepOneMore(bin: Bin, k: nat, now: Time, maxtime: Word32)
      requires k < |bin|
      ensures Keep(bin[..k + 1], now, maxtime) ==
              Keep(bin[..k], now, maxtime) + if Requested(bin[k], now, maxtime) then [bin[k]] else []
    {
      assert bin[..k + 1] == bin[..k] + [bin[k]];
      KeepAppend(bin[..k], [bin[k]], now, maxtime);
      assert Keep([bin[k]], now, maxtime) ==
             (if Requested(bin[k], now, maxtime) then [bin[k]] else []) + Keep([], now, maxtime);
    }

    /** The purging loop has passed `passed` PVs of a bin and stands at `it`. */
    static ghost predicate Purging(all: Bin, now: Time, maxtime: Word32, passed: nat, bin: Bin, it: nat, nPurged: nat) {
      && passed <= |all| && it == |Keep(all[..passed], now, maxtime)| && nPurged + it == passed
      && bin == Keep(all[..passed], now, maxtime) + all[passed..]
    }

    static lemma PurgingStart(all: Bin, now: Time, maxtime: Word32)
      ensures Purging(all, now, maxtime, 0, all, 0, 0)
    {
      assert all[..0] == [];
    }

    static lemma PurgingStep(all: Bin, now: Time, maxtime: Word32, passed: nat, bin: Bin, it: nat, nPurged: nat)
      requires Purging(all, now, maxtime, passed, bin, it, nPurged) && it < |bin|
      ensures passed < |all|
      ensures if Requested(bin[it], now, maxtime) then Purging(all, now, maxtime, passed + 1, bin, it + 1, nPurged)
              else Purging(all, now, maxtime, passed + 1, bin[..it] + bin[it + 1..], it, nPurged + 1)
    {
      hide Keep;
      KeepOneMore(all, passed, now, maxtime);
      assert all[passed..] == [all[passed]] + all[passed + 1..];
    }

    static lemma PurgingEnd(all: Bin, now: Time, maxtime: Word32, passed: nat, bin: Bin, it: nat, nPurged: nat)
      requires Purging(all, now, maxtime, passed, bin, it, nPurged) && it >= |bin|
      ensures bin == Keep(all, now, maxtime) && nPurged + |bin| == |all|
    {
      assert all[..passed] == all && all[passed..] == [];
    }

    /** Erases the PVs of a bin that nobody has asked for lately. */
    static method PurgeBin(all: Bin, now: Time, maxtime: Word32) returns (bin: Bin, nPurged: nat)
      ensures bin == Keep(all, now, maxtime) && nPurged + |bin| == |all|
    {
      hide Purging, Keep;
      bin := all;
      ghost var passed := 0;
      nPurged := 0;
      var it := 0;
      PurgingStart(all, now, maxtime);
      while it < |bin|
        invariant passed <= |all|
        invariant Purging(all, now, maxtime, passed, bin, it, nPurged)
        decreases |all| - passed
      {
        PurgingStep(all, now, maxtime, passed, bin, it, nPurged);
        if Truncate(now - bin[it].lastSearched, SECOND) > maxtime {
          bin := bin[..it] + bin[it + 1..];
          nPurged := nPurged + 1;
        } else {
          it := it + 1;
        }
        passed := passed + 1;
      }
      PurgingEnd(all, now, maxtime, passed, bin, it, nPurged);
    }

    /** One turn of the dealing loop, on values: the bins before `j` are dealt, those from `j` on are empty. */
    static lemma DealStep(bins: seq<Bin>, i: nat, perBin: nat, left: Bin)
      requires i < |bins| && left != [] && perBin > 0
      requires bins[i..] == Empty(|bins| - i)
      ensures var n := |bins|; var k := Take(perBin, |left|); var j := Min(i + Advance(perBin, |left|), n);
              var next := bins[i := left[..k] + bins[i]];
              && next[j..] == Empty(n - j)
              && bins[..i] + Rebalance.Deal(n, i, perBin, left).0 ==
                   next[..j] + Rebalance.Deal(n, j, perBin, left[k..]).0
              && Rebalance.Deal(n, i, perBin, left).1 == Rebalance.Deal(n, j, perBin, left[k..]).1
    {
      var n := |bins|;
      var k, j := Take(perBin, |left|), Min(i + Advance(perBin, |left|), n);
      var next := bins[i := left[..k] + bins[i]];
      assert forall b | i <= b < n :: bins[b] == bins[i..][b - i] == [];
      assert left[..k] + [] == left[..k];
      assert next[..j] == bins[..i] + ([left[..k]] + Empty(j - i - 1));
      var rest := Rebalance.Deal(n, j, perBin, left[k..]).0;
      assert Rebalance.Deal(n, i, perBin, left).0 == [left[..k]] + Empty(j - i - 1) + rest;
    }

    /** Fills bin `i` and skips the bins its surplus stands for. */
    method DealOne(i: nat, perBin: nat, left: Bin) returns (next: nat, rest: Bin)
      requires i < |searchedPvs| && left != []
      modifies this`searchedPvs
      ensures var k := Take(perBin, |left|);
              && next == i + Advance(perBin, |left|) && rest == left[k..]
              && searchedPvs == old(searchedPvs)[i := left[..k] + old(searchedPvs)[i]]
    {
      next := i;
      var nPvs := Min(perBin, |left|);
      if nPvs < 10 {
        next := next + (10 - nPvs - 1);
        nPvs := Min(|left|, 10);
      }
      next := next + 1;
      searchedPvs := searchedPvs[i := left[..nPvs] + searchedPvs[i]];
      rest := left[nPvs..];
    }

    /** What the dealing loop has done so far leads to the same final deal. */
    static ghost predicate Dealing(bins: seq<Bin>, i: nat, perBin: nat, left: Bin, all: Bin) {
      var n := |bins|; var j := Min(i, n);
      && (left != [] || all != [] ==> perBin > 0)
      && bins[j..] == Empty(n - j)
      && bins[..j] + Rebalance.Deal(n, j, perBin, left).0 == Rebalance.Deal(n, 0, perBin, all).0
      && Rebalance.Deal(n, j, perBin, left).1 == Rebalance.Deal(n, 0, perBin, all).1
    }

    static lemma DealingStart(bins: seq<Bin>, perBin: nat, all: Bin)
      requires bins == Empty(|bins|) && (all != [] ==> perBin > 0)
      ensures Dealing(bins, 0, perBin, all, all)
    {
      assert bins[..0] == [] && bins[0..] == bins;
    }

    static lemma DealingStep(bins: seq<Bin>, i: nat, perBin: nat, left: Bin, all: Bin)
      requires i < |bins| && left != [] && Dealing(bins, i, perBin, left, all)
      ensures var k := Take(perBin, |left|);
              Dealing(bins[i := left[..k] + bins[i]], i + Advance(perBin, |left|), perBin, left[k..], all)
    {
      hide Rebalance.Deal;
      DealStep(bins, i, perBin, left);
    }

    static lemma DealingEnd(bins: seq<Bin>, i: nat, left: Bin, all: Bin)
      requires bins != [] && (i >= |bins| || left == [])
      requires Dealing(bins, i, CeilDiv(|all|, |bins|), left, all)
      ensures Balanced(|bins|, all) == bins[|bins| - 1 := bins[|bins| - 1] + left]
    {
      var n := |bins|;
      var perBin := CeilDiv(|all|, n);
      CeilDivPositive(|all|, n);
      DealEnd(n, Min(i, n), perBin, left);
      assert bins[..Min(i, n)] + bins[Min(i, n)..] == bins;
    }

    /** Deals `pvs` out to the emptied bins. */
    method Deal(pvs: Bin)
      requires searchedPvs == Empty(|searchedPvs|) && |searchedPvs| > 0
      modifies this`searchedPvs
      ensures searchedPvs == Balanced(old(|searchedPvs|), pvs)
    {
      hide Dealing, Balanced, Take;
      var n := |searchedPvs|;
      var left := pvs;
      var perBin := (|left| + n - 1) / n;
      CeilDivPositive(|pvs|, n);
      DealingStart(searchedPvs, perBin, pvs);
      var i: nat := 0;
      while i < n && left != []
        invariant |searchedPvs| == n && Dealing(searchedPvs, i, perBin, left, pvs)
        decreases n - i
      {
        DealingStep(searchedPvs, i, perBin, left, pvs);
        i, left := DealOne(i, perBin, left);
      }
      DealingEnd(searchedPvs, i, left, pvs);
      if left != [] {
        searchedPvs := searchedPvs[n - 1 := searchedPvs[n - 1] + left];
      } else {
        assert searchedPvs[n - 1] + [] == searchedPvs[n - 1];
      }
    }

    static lemma DealEnd(n: nat, i: nat, perBin: nat, left: Bin)
      requires i <= n && (left != [] ==> perBin > 0) && (i == n || left == [])
      ensures Rebalance.Deal(n, i, perBin, left) == (Empty(n - i), left)
    {
    }

    /** One turn of the purging loop, on values. */
    static lemma KeepStep(bins: seq<Bin>, b: nat, now: Time, maxtime: Word32)
      requires b < |bins|
      ensures Flatten(bins[..b + 1]) == Flatten(bins[..b]) + bins[b]
      ensures Keep(Flatten(bins[..b + 1]), now, maxtime) ==
              Keep(Flatten(bins[..b]), now, maxtime) + Keep(bins[b], now, maxtime)
    {
      FlattenAppend(bins[..b], [bins[b]]);
      assert bins[..b] + [bins[b]] == bins[..b + 1];
      assert Flatten([bins[b]]) == bins[b] + Flatten<SearchedPv>([]);
      KeepAppend(Flatten(bins[..b]), bins[b], now, maxtime);
    }

    static lemma NothingKept(bins: seq<Bin>, now: Time, maxtime: Word32)
      ensures Flatten(bins[..0]) == [] && Keep([], now, maxtime) == []
    {
    }

    method PurgePVs(now: Time, maxtime: Word32) returns (nPurged: nat, nSearching: nat)
      requires Valid()
      modifies this`searchedPvs, this`currentBin
      ensures Valid() && (Model(), nPurged, nSearching) == Purge(old(Model()), now, maxtime)
    {
      hide Flatten, Keep, Balanced;
      ghost var w := Model();
      PurgeValid(w, now, maxtime);
      NothingKept(w.bins, now, maxtime);
      nPurged := 0;
      var pvs: Bin := [];
      for b := 0 to |searchedPvs|
        invariant Model() == w.(bins := searchedPvs) && |searchedPvs| == |w.bins|
        invariant forall k | 0 <= k < |w.bins| :: searchedPvs[k] == if k < b then [] else w.bins[k]
        invariant pvs == Keep(Flatten(w.bins[..b]), now, maxtime)
        invariant nPurged + |pvs| == |Flatten(w.bins[..b])|
      {
        var bin, n := PurgeBin(searchedPvs[b], now, maxtime);
        KeepStep(w.bins, b, now, maxtime);
        nPurged := nPurged + n;
        pvs := pvs + bin;
        searchedPvs := searchedPvs[b := []];
      }
      assert w.bins[..|w.bins|] == w.bins;
      nSearching := |pvs|;
      Deal(pvs);
      currentBin := 0;
    }
  }
}
