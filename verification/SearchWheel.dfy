/**
 * The search schedule as a value: a wheel of bins, one of which is sent at each tick.
 * These functions are what the methods of `Searcher` compute.
 */
module SearchWheel {
  import opened Prelude
  import opened Rebalance
  import ChannelAccess

  /** A PV being searched for; `intervals` are the backoff steps it still has to take. */
  datatype SearchedPv = SearchedPv(chanId: Word32, pvname: PvName, lastSearched: Time, intervals: seq<Word32>)
  type Bin = seq<SearchedPv>

  datatype Wheel = Wheel(searchIntervals: seq<Word32>, bins: seq<Bin>, currentBin: nat, chanId: Word32)

  predicate WellFormed(pv: SearchedPv) {
    pv.intervals != [] && |pv.pvname| <= ChannelAccess.MAX_NAME
  }

  predicate Valid(w: Wheel) {
    && w.currentBin < |w.bins| < POW32 && w.searchIntervals != []
    && (forall b, j | 0 <= b < |w.bins| && 0 <= j < |w.bins[b]| :: WellFormed(w.bins[b][j]))
  }

  // ---------------------------------------------------------------- looking up

  datatype Key = ByName(name: PvName) | ById(id: Word32)

  predicate Matches(pv: SearchedPv, k: Key) {
    match k
    case ByName(name) => pv.pvname == name
    case ById(id) => pv.chanId == id
  }

  datatype Pos = Pos(bin: nat, idx: nat)

  predicate ValidPos(bins: seq<Bin>, p: Pos) {
    p.bin < |bins| && p.idx < |bins[p.bin]|
  }

  function At(bins: seq<Bin>, p: Pos): SearchedPv
    requires ValidPos(bins, p)
  {
    bins[p.bin][p.idx]
  }

  function FirstIn(bin: Bin, k: Key): (i: nat)
    ensures i <= |bin| && (i < |bin| ==> Matches(bin[i], k))
    ensures forall j | 0 <= j < i :: !Matches(bin[j], k)
  {
    if bin == [] || Matches(bin[0], k) then 0 else 1 + FirstIn(bin[1..], k)
  }

  predicate InRange(order: seq<nat>, n: nat) {
    forall i | 0 <= i < |order| :: order[i] < n
  }

  /** The first match when the bins are looked through in the given order. */
  function Find(bins: seq<Bin>, order: seq<nat>, k: Key): (r: Option<Pos>)
    requires InRange(order, |bins|)
    ensures r.Some? ==> ValidPos(bins, r.value) && Matches(At(bins, r.value), k) && r.value.bin in order
    ensures r.None? ==> forall b, j | b in order && 0 <= j < |bins[b]| :: !Matches(bins[b][j], k)
  {
    if order == [] then None
    else
      var i := FirstIn(bins[order[0]], k);
      if i < |bins[order[0]]| then Some(Pos(order[0], i)) else Find(bins, order[1..], k)
  }

  /** By name, the bins are scanned from the first to the last. */
  function ScanOrder(n: nat): (order: seq<nat>)
    ensures |order| == n && InRange(order, n) && forall b | 0 <= b < n :: order[b] == b
  {
    seq(n, i => i)
  }

  /** The bin that a reply is looked for at step `i`, in 64-bit unsigned arithmetic. */
  function ProbeIndex(currentBin: nat, i: nat, n: nat): (b: nat)
    requires n > 0
    ensures b < n
  {
    (currentBin + i - 1) % POW64 % n
  }

  function ProbeOrder(currentBin: nat, n: nat): (order: seq<nat>)
    requires n > 0
    ensures |order| == n && InRange(order, n) && forall i | 0 <= i < n :: order[i] == ProbeIndex(currentBin, i, n)
  {
    seq(n, i requires 0 <= i => ProbeIndex(currentBin, i, n))
  }

  function Erase(bins: seq<Bin>, p: Pos): (r: seq<Bin>)
    requires ValidPos(bins, p)
    ensures |r| == |bins|
  {
    bins[p.bin := bins[p.bin][..p.idx] + bins[p.bin][p.idx + 1..]]
  }

  // ---------------------------------------------------------------- the operations

  /** The backoff list of a new search: two quick retries, then the configured seconds in ticks. */
  function Backoff(configured: seq<Word32>): seq<Word32> {
    [1, 2] + seq(|configured|, i requires 0 <= i < |configured| => configured[i] * 10 % POW32)
  }

  function Fresh(configured: seq<Word32>): Wheel {
    var intervals := Backoff(configured);
    Wheel(intervals, Empty<SearchedPv>(intervals[|intervals| - 1]), 0, 0)
  }

  function Add(w: Wheel, pvname: PvName, now: Time): (r: (Wheel, bool))
    requires Valid(w) && |pvname| <= ChannelAccess.MAX_NAME
    ensures Valid(r.0)
  {
    match Find(w.bins, ScanOrder(|w.bins|), ByName(pvname))
    case Some(p) =>
      var pv := At(w.bins, p).(lastSearched := now);
      (w.(bins := w.bins[p.bin := w.bins[p.bin][p.idx := pv]]), false)
    case None =>
      var pv := SearchedPv(w.chanId, pvname, now, w.searchIntervals);
      (w.(bins := w.bins[w.currentBin := [pv] + w.bins[w.currentBin]], chanId := (w.chanId + 1) % POW32), true)
  }

  function Remove(w: Wheel, pvname: PvName): (r: Wheel)
    requires Valid(w)
    ensures Valid(r)
  {
    match Find(w.bins, ScanOrder(|w.bins|), ByName(pvname))
    case Some(p) => w.(bins := Erase(w.bins, p))
    case None => w
  }

  /** A reply to channel id `id` takes the PV it is found for out of the wheel. */
  function Resolve(w: Wheel, id: Word32): (r: (Wheel, Option<PvName>))
    requires Valid(w)
    ensures Valid(r.0)
  {
    match Find(w.bins, ProbeOrder(w.currentBin, |w.bins|), ById(id))
    case Some(p) => (w.(bins := Erase(w.bins, p)), Some(At(w.bins, p).pvname))
    case None => (w, None)
  }

  /** Puts a PV that has just been sent where it will be sent next. */
  function Place(bins: seq<Bin>, cur: nat, pv: SearchedPv): (r: seq<Bin>)
    requires cur < |bins| && pv.intervals != []
    ensures |r| == |bins|
  {
    if |pv.intervals| > 1 then
      var b := (cur + pv.intervals[0]) % |bins|;
      bins[b := [pv.(intervals := pv.intervals[1..])] + bins[b]]
    else
      bins[cur := bins[cur] + [pv]]
  }

  /** Places `todo` one after the other; `bins[cur]` holds what has already been passed. */
  function Sweep(bins: seq<Bin>, cur: nat, todo: Bin): (r: seq<Bin>)
    requires cur < |bins| && forall j | 0 <= j < |todo| :: WellFormed(todo[j])
    ensures |r| == |bins|
    decreases todo
  {
    if todo == [] then bins
    else
      assert WellFormed(todo[0]);
      Sweep(Place(bins, cur, todo[0]), cur, todo[1..])
  }

  /** The requests for the PVs of one bin. */
  function Due(bin: Bin): (pvs: seq<(Word32, PvName)>)
    ensures |pvs| == |bin|
  {
    seq(|bin|, j requires 0 <= j < |bin| => (bin[j].chanId, bin[j].pvname))
  }

  function Tick(w: Wheel): (r: (Wheel, seq<(Word32, PvName)>))
    requires Valid(w)
  {
    var bin := w.bins[w.currentBin];
    (w.(bins := Sweep(w.bins[w.currentBin := []], w.currentBin, bin),
        currentBin := (w.currentBin + 1) % |w.bins|),
     Due(bin))
  }

  predicate Requested(pv: SearchedPv, now: Time, maxtime: Word32) {
    Truncate(now - pv.lastSearched, SECOND) <= maxtime
  }

  function Keep(bin: Bin, now: Time, maxtime: Word32): (r: Bin)
    ensures |r| <= |bin|
  {
    if bin == [] then []
    else (if Requested(bin[0], now, maxtime) then [bin[0]] else []) + Keep(bin[1..], now, maxtime)
  }

  /** The survivors of a purge, in bin order. */
  function Survivors(w: Wheel, now: Time, maxtime: Word32): Bin {
    Keep(Flatten(w.bins), now, maxtime)
  }

  function Purge(w: Wheel, now: Time, maxtime: Word32): (r: (Wheel, nat, nat))
    requires Valid(w)
  {
    var pvs := Survivors(w, now, maxtime);
    (w.(bins := Balanced(|w.bins|, pvs), currentBin := 0), |Flatten(w.bins)| - |pvs|, |pvs|)
  }

  // ---------------------------------------------------------------- well-formedness

  lemma {:induction false} SweepValid(w: Wheel, todo: Bin)
    requires Valid(w) && forall j | 0 <= j < |todo| :: WellFormed(todo[j])
    ensures Valid(w.(bins := Sweep(w.bins, w.currentBin, todo)))
    decreases todo
  {
    if todo != [] {
      var bins := Place(w.bins, w.currentBin, todo[0]);
      assert Valid(w.(bins := bins));
      SweepValid(w.(bins := bins), todo[1..]);
    }
  }

  lemma TickValid(w: Wheel)
    requires Valid(w)
    ensures Valid(Tick(w).0)
  {
    SweepValid(w.(bins := w.bins[w.currentBin := []]), w.bins[w.currentBin]);
  }

  lemma {:induction false} FlattenMember<T>(bins: seq<seq<T>>, x: T)
    ensures x in Flatten(bins) <==> exists b, j :: 0 <= b < |bins| && 0 <= j < |bins[b]| && bins[b][j] == x
  {
    if bins != [] {
      FlattenMember(bins[1..], x);
      if x in bins[0] {
        var j :| 0 <= j < |bins[0]| && bins[0][j] == x;
      }
      if x in Flatten(bins[1..]) {
        var b, j :| 0 <= b < |bins[1..]| && 0 <= j < |bins[1..][b]| && bins[1..][b][j] == x;
        assert bins[b + 1][j] == x;
      }
      if b, j :| 0 <= b < |bins| && 0 <= j < |bins[b]| && bins[b][j] == x && b > 0 {
        assert bins[1..][b - 1][j] == x;
      }
    }
  }

  lemma {:induction false} KeepMember(bin: Bin, now: Time, maxtime: Word32)
    ensures forall pv :: pv in Keep(bin, now, maxtime) <==> pv in bin && Requested(pv, now, maxtime)
  {
    if bin != [] {
      KeepMember(bin[1..], now, maxtime);
    }
  }

  lemma KeepNone(now: Time, maxtime: Word32)
    ensures Keep([], now, maxtime) == []
  {
  }

  lemma KeepCons(pvs: Bin, now: Time, maxtime: Word32)
    requires pvs != []
    ensures Keep(pvs, now, maxtime) ==
            if Requested(pvs[0], now, maxtime) then [pvs[0]] + Keep(pvs[1..], now, maxtime)
            else Keep(pvs[1..], now, maxtime)
  {
  }

  lemma {:induction false} KeepAppend(a: Bin, b: Bin, now: Time, maxtime: Word32)
    ensures Keep(a + b, now, maxtime) == Keep(a, now, maxtime) + Keep(b, now, maxtime)
  {
    hide Keep, Requested;
    if a == [] {
      assert a + b == b;
      KeepNone(now, maxtime);
    } else {
      assert (a + b)[1..] == a[1..] + b;
      KeepCons(a, now, maxtime);
      KeepCons(a + b, now, maxtime);
      KeepAppend(a[1..], b, now, maxtime);
    }
  }

  lemma PurgeValid(w: Wheel, now: Time, maxtime: Word32)
    requires Valid(w)
    ensures Valid(Purge(w, now, maxtime).0)
  {
    var pvs := Survivors(w, now, maxtime);
    var bins := Balanced(|w.bins|, pvs);
    BalancedConserves(|w.bins|, pvs);
    KeepMember(Flatten(w.bins), now, maxtime);
    forall b, j | 0 <= b < |bins| && 0 <= j < |bins[b]| ensures WellFormed(bins[b][j]) {
      var pv := bins[b][j];
      FlattenMember(bins, pv);
      assert pv in pvs && pv in Flatten(w.bins);
      FlattenMember(w.bins, pv);
    }
  }

  lemma {:induction false} KeepCount(bin: Bin, now: Time, maxtime: Word32, pv: SearchedPv)
    ensures multiset(Keep(bin, now, maxtime))[pv] == if Requested(pv, now, maxtime) then multiset(bin)[pv] else 0
  {
    hide Keep, Requested;
    if bin == [] {
      KeepNone(now, maxtime);
    } else {
      KeepCons(bin, now, maxtime);
      KeepCount(bin[1..], now, maxtime, pv);
      assert multiset(bin) == multiset{bin[0]} + multiset(bin[1..]) by {
        assert bin == [bin[0]] + bin[1..];
      }
      var rest := Keep(bin[1..], now, maxtime);
      assert multiset([bin[0]] + rest) == multiset{bin[0]} + multiset(rest);
    }
  }

  /**
   * A purge neither loses, duplicates nor alters a PV that was asked for lately, keeps their
   * order, and its two counts add up to what was there.
   */
  lemma PurgeConserves(w: Wheel, now: Time, maxtime: Word32)
    requires Valid(w)
    ensures var (w', nPurged, nSearching) := Purge(w, now, maxtime);
            var before, after := Flatten(w.bins), Flatten(w'.bins);
            && nPurged + nSearching == |before| && nSearching == |after|
            && after == Keep(before, now, maxtime)
            && forall pv :: multiset(after)[pv] == if Requested(pv, now, maxtime) then multiset(before)[pv] else 0
  {
    BalancedConserves(|w.bins|, Survivors(w, now, maxtime));
    forall pv
      ensures multiset(Survivors(w, now, maxtime))[pv] ==
              if Requested(pv, now, maxtime) then multiset(Flatten(w.bins))[pv] else 0
    {
      KeepCount(Flatten(w.bins), now, maxtime, pv);
    }
  }
}
