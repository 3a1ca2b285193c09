/**
 * The wheel against the obvious specification: a map from each PV name to the tick at
 * which it is next due and the backoff steps it has left.
 */
module Schedule {
  import opened Prelude
  import opened Rebalance
  import opened SearchWheel
  import opened Modular
  import ChannelAccess

  /** What the specification knows of a PV being searched for. */
  datatype Slot = Slot(chanId: Word32, lastSearched: Time, rest: seq<Word32>, due: int)
  type Plan = map<PvName, Slot>

  // ---------------------------------------------------------------- the wheel as a bag of slots

  function SlotOf(pv: SearchedPv, due: int): (PvName, Slot) {
    (pv.pvname, Slot(pv.chanId, pv.lastSearched, pv.intervals, due))
  }

  function BinBag(bin: Bin, due: int): multiset<(PvName, Slot)> {
    if bin == [] then multiset{} else multiset{SlotOf(bin[0], due)} + BinBag(bin[1..], due)
  }

  /** All entries of the bins, each with the tick of its bin. */
  function Bag(bins: seq<Bin>, dues: seq<int>): multiset<(PvName, Slot)>
    requires |bins| == |dues|
  {
    if bins == [] then multiset{} else BinBag(bins[0], dues[0]) + Bag(bins[1..], dues[1..])
  }

  /** Bin `b` is sent at the first tick from `now` on whose current bin it is. */
  function DueTick(now: int, cur: nat, n: nat, b: nat): int {
    if b >= cur then now + b - cur else now + b - cur + n
  }

  function Dues(now: int, cur: nat, n: nat): (dues: seq<int>)
    ensures |dues| == n && forall b | 0 <= b < n :: dues[b] == DueTick(now, cur, n, b)
  {
    seq(n, b requires 0 <= b => DueTick(now, cur, n, b))
  }

  function BagOf(w: Wheel, now: int): multiset<(PvName, Slot)> {
    Bag(w.bins, Dues(now, w.currentBin, |w.bins|))
  }

  function Entries(m: Plan): set<(PvName, Slot)> {
    set name | name in m :: (name, m[name])
  }

  /** The wheel, at tick `now`, is an index for exactly this plan; in particular no name occurs twice. */
  ghost predicate Agrees(w: Wheel, now: int, m: Plan) {
    BagOf(w, now) == multiset(Entries(m))
  }

  // ---------------------------------------------------------------- bags and updates

  lemma {:induction false} BinBagAppend(a: Bin, b: Bin, due: int)
    ensures BinBag(a + b, due) == BinBag(a, due) + BinBag(b, due)
  {
    if a == [] {
      assert a + b == b;
    } else {
      assert (a + b)[1..] == a[1..] + b;
      BinBagAppend(a[1..], b, due);
    }
  }

  lemma BinBagOne(pv: SearchedPv, due: int)
    ensures BinBag([pv], due) == multiset{SlotOf(pv, due)}
  {
    assert BinBag([pv], due) == multiset{SlotOf(pv, due)} + BinBag([], due);
  }

  lemma Cancel<T>(x: multiset<T>, y: multiset<T>, a: multiset<T>, c: multiset<T>)
    requires x + a == y + (c + a)
    ensures x == y + c
  {
    forall e ensures x[e] == (y + c)[e] {
      assert (x + a)[e] == (y + (c + a))[e];
    }
  }

  lemma CancelOne<T>(x: multiset<T>, y: multiset<T>, a: T)
    requires multiset{a} + x == multiset{a} + y
    ensures x == y
  {
    forall e ensures x[e] == y[e] {
      assert (multiset{a} + x)[e] == (multiset{a} + y)[e];
    }
  }

  /** Swapping one part of a sum for another. */
  lemma Exchange<T>(x: multiset<T>, y: multiset<T>, a: multiset<T>, b: multiset<T>, r: multiset<T>)
    requires x + a == y + b
    ensures r + x + a == r + y + b
  {
    forall e ensures (r + x + a)[e] == (r + y + b)[e] {
      assert (x + a)[e] == (y + b)[e];
    }
    assert r + x + a == r + y + b;
  }

  lemma BagCons(bins: seq<Bin>, dues: seq<int>)
    requires |bins| == |dues| && bins != []
    ensures Bag(bins, dues) == BinBag(bins[0], dues[0]) + Bag(bins[1..], dues[1..])
  {
  }

  lemma {:induction false} BagUpdate(bins: seq<Bin>, dues: seq<int>, b: nat, bin: Bin)
    requires |bins| == |dues| && b < |bins|
    ensures Bag(bins[b := bin], dues) + BinBag(bins[b], dues[b]) == Bag(bins, dues) + BinBag(bin, dues[b])
  {
    BagCons(bins, dues);
    BagCons(bins[b := bin], dues);
    hide Bag, BinBag;
    if b == 0 {
      assert bins[b := bin][1..] == bins[1..];
    } else {
      BagUpdate(bins[1..], dues[1..], b - 1, bin);
      assert bins[b := bin][1..] == bins[1..][b - 1 := bin];
      Exchange(Bag(bins[1..][b - 1 := bin], dues[1..]), Bag(bins[1..], dues[1..]),
               BinBag(bins[b], dues[b]), BinBag(bin, dues[b]), BinBag(bins[0], dues[0]));
    }
  }

  /** Only the ticks of non-empty bins matter. */
  lemma {:induction false} BagRetime(bins: seq<Bin>, dues: seq<int>, others: seq<int>)
    requires |bins| == |dues| == |others|
    requires forall b | 0 <= b < |bins| :: bins[b] == [] || dues[b] == others[b]
    ensures Bag(bins, dues) == Bag(bins, others)
  {
    if bins != [] {
      forall b | 0 <= b < |bins[1..]| ensures bins[1..][b] == [] || dues[1..][b] == others[1..][b] {
        assert bins[1..][b] == bins[b + 1] && dues[1..][b] == dues[b + 1] && others[1..][b] == others[b + 1];
      }
      BagRetime(bins[1..], dues[1..], others[1..]);
    }
  }

  lemma BagPushFront(bins: seq<Bin>, dues: seq<int>, b: nat, pv: SearchedPv)
    requires |bins| == |dues| && b < |bins|
    ensures Bag(bins[b := [pv] + bins[b]], dues) == Bag(bins, dues) + multiset{SlotOf(pv, dues[b])}
  {
    BagUpdate(bins, dues, b, [pv] + bins[b]);
    BinBagAppend([pv], bins[b], dues[b]);
    BinBagOne(pv, dues[b]);
    Cancel(Bag(bins[b := [pv] + bins[b]], dues), Bag(bins, dues), BinBag(bins[b], dues[b]),
           multiset{SlotOf(pv, dues[b])});
  }

  lemma BagPushBack(bins: seq<Bin>, dues: seq<int>, b: nat, pv: SearchedPv)
    requires |bins| == |dues| && b < |bins|
    ensures Bag(bins[b := bins[b] + [pv]], dues) == Bag(bins, dues) + multiset{SlotOf(pv, dues[b])}
  {
    BagUpdate(bins, dues, b, bins[b] + [pv]);
    BinBagAppend(bins[b], [pv], dues[b]);
    BinBagOne(pv, dues[b]);
    Cancel(Bag(bins[b := bins[b] + [pv]], dues), Bag(bins, dues), BinBag(bins[b], dues[b]),
           multiset{SlotOf(pv, dues[b])});
  }

  lemma BinBagSplit(bin: Bin, i: nat, due: int)
    requires i < |bin|
    ensures BinBag(bin, due) == BinBag(bin[..i] + bin[i + 1..], due) + multiset{SlotOf(bin[i], due)}
  {
    assert bin == bin[..i] + ([bin[i]] + bin[i + 1..]);
    BinBagAppend(bin[..i], [bin[i]] + bin[i + 1..], due);
    BinBagAppend([bin[i]], bin[i + 1..], due);
    BinBagOne(bin[i], due);
    BinBagAppend(bin[..i], bin[i + 1..], due);
    hide BinBag;
  }

  lemma BagErase(bins: seq<Bin>, dues: seq<int>, p: Pos)
    requires |bins| == |dues| && ValidPos(bins, p)
    ensures Bag(bins, dues) == Bag(Erase(bins, p), dues) + multiset{SlotOf(At(bins, p), dues[p.bin])}
  {
    hide BinBag, Bag;
    var bin := bins[p.bin];
    var cut := bin[..p.idx] + bin[p.idx + 1..];
    BagUpdate(bins, dues, p.bin, cut);
    BinBagSplit(bin, p.idx, dues[p.bin]);
    var x := multiset{SlotOf(bin[p.idx], dues[p.bin])};
    assert Bag(bins, dues) + BinBag(cut, dues[p.bin]) == Bag(Erase(bins, p), dues) + (x + BinBag(cut, dues[p.bin]));
    Cancel(Bag(bins, dues), Bag(Erase(bins, p), dues), BinBag(cut, dues[p.bin]), x);
  }

  /** Replacing an entry is erasing the old one from the bag and adding the new one. */
  lemma BagReplace(bins: seq<Bin>, dues: seq<int>, p: Pos, pv: SearchedPv)
    requires |bins| == |dues| && ValidPos(bins, p)
    ensures Bag(bins[p.bin := bins[p.bin][p.idx := pv]], dues) ==
            Bag(Erase(bins, p), dues) + multiset{SlotOf(pv, dues[p.bin])}
  {
    var bin := bins[p.bin];
    var next := bins[p.bin := bin[p.idx := pv]];
    BagErase(next, dues, p);
    assert Erase(next, p) == Erase(bins, p) by {
      assert bin[p.idx := pv][..p.idx] + bin[p.idx := pv][p.idx + 1..] == bin[..p.idx] + bin[p.idx + 1..];
      assert next[p.bin := bin[..p.idx] + bin[p.idx + 1..]] == bins[p.bin := bin[..p.idx] + bin[p.idx + 1..]];
    }
  }

  lemma {:induction false} BinBagMember(bin: Bin, due: int, x: (PvName, Slot)) returns (j: nat)
    requires x in BinBag(bin, due)
    ensures j < |bin| && SlotOf(bin[j], due) == x
  {
    if SlotOf(bin[0], due) == x {
      j := 0;
    } else {
      var k := BinBagMember(bin[1..], due, x);
      j := k + 1;
    }
  }

  /** Every slot in the bag stands for a PV in some bin. */
  lemma {:induction false} BagMember(bins: seq<Bin>, dues: seq<int>, x: (PvName, Slot)) returns (p: Pos)
    requires |bins| == |dues| && x in Bag(bins, dues)
    ensures ValidPos(bins, p) && SlotOf(At(bins, p), dues[p.bin]) == x
  {
    if x in BinBag(bins[0], dues[0]) {
      var j := BinBagMember(bins[0], dues[0], x);
      p := Pos(0, j);
    } else {
      var q := BagMember(bins[1..], dues[1..], x);
      p := Pos(q.bin + 1, q.idx);
    }
  }

  // ---------------------------------------------------------------- plans and their items

  lemma PlanInsert(m: Plan, name: PvName, slot: Slot)
    requires name !in m
    ensures multiset(Entries(m[name := slot])) == multiset(Entries(m)) + multiset{(name, slot)}
  {
    var next := m[name := slot];
    forall x | x in Entries(m) + {(name, slot)} ensures x in Entries(next) {
      assert x.0 in next;
    }
    assert Entries(next) == Entries(m) + {(name, slot)};
  }

  lemma PlanRemove(m: Plan, name: PvName)
    requires name in m
    ensures multiset(Entries(m)) == multiset(Entries(m - {name})) + multiset{(name, m[name])}
  {
    var rest := m - {name};
    PlanInsert(rest, name, m[name]);
    assert rest[name := m[name]] == m;
  }

  // ---------------------------------------------------------------- what the wheel knows about the plan

  /** The entry at a position is the plan's slot for its name. */
  lemma EntryIsPlanned(w: Wheel, now: int, m: Plan, p: Pos)
    requires Agrees(w, now, m) && ValidPos(w.bins, p)
    ensures var pv := At(w.bins, p);
            && pv.pvname in m
            && SlotOf(pv, DueTick(now, w.currentBin, |w.bins|, p.bin)) == (pv.pvname, m[pv.pvname])
  {
    BagErase(w.bins, Dues(now, w.currentBin, |w.bins|), p);
    var x := SlotOf(At(w.bins, p), DueTick(now, w.currentBin, |w.bins|, p.bin));
    assert x in multiset(Entries(m));
    assert x in Entries(m) && x == (x.0, x.1);
  }

  /** A planned name is found in the bin of its due tick. */
  lemma PlannedHasEntry(w: Wheel, now: int, m: Plan, name: PvName) returns (p: Pos)
    requires Agrees(w, now, m) && name in m
    ensures ValidPos(w.bins, p)
    ensures SlotOf(At(w.bins, p), DueTick(now, w.currentBin, |w.bins|, p.bin)) == (name, m[name])
  {
    assert (name, m[name]) in Entries(m);
    assert (name, m[name]) in multiset(Entries(m));
    p := BagMember(w.bins, Dues(now, w.currentBin, |w.bins|), (name, m[name]));
  }

  /** Every search is due within one turn of the wheel. */
  lemma DueWithinTurn(w: Wheel, now: int, m: Plan)
    requires Valid(w) && Agrees(w, now, m)
    ensures forall name | name in m :: now <= m[name].due < now + |w.bins|
  {
    forall name | name in m ensures now <= m[name].due < now + |w.bins| {
      var p := PlannedHasEntry(w, now, m, name);
    }
  }

  /** By name, a PV is found exactly when it is planned. */
  lemma FindByName(w: Wheel, now: int, m: Plan, name: PvName)
    requires Agrees(w, now, m)
    ensures Find(w.bins, ScanOrder(|w.bins|), ByName(name)).Some? <==> name in m
  {
    var order := ScanOrder(|w.bins|);
    var r := Find(w.bins, order, ByName(name));
    if r.Some? {
      EntryIsPlanned(w, now, m, r.value);
    }
    if name in m {
      var p := PlannedHasEntry(w, now, m, name);
      assert order[p.bin] == p.bin;
      assert Matches(w.bins[p.bin][p.idx], ByName(name));
    }
  }

  // ---------------------------------------------------------------- add and remove

  function PlanAdd(m: Plan, name: PvName, now: int, time: Time, id: Word32, intervals: seq<Word32>): Plan {
    if name in m then m[name := m[name].(lastSearched := time)]
    else m[name := Slot(id, time, intervals, now)]
  }

  lemma TouchRefines(w: Wheel, now: int, m: Plan, p: Pos, time: Time)
    requires Valid(w) && Agrees(w, now, m) && ValidPos(w.bins, p)
    ensures var pv := At(w.bins, p);
            && pv.pvname in m
            && Agrees(w.(bins := w.bins[p.bin := w.bins[p.bin][p.idx := pv.(lastSearched := time)]]), now,
                   m[pv.pvname := m[pv.pvname].(lastSearched := time)])
  {
    hide Bag, BinBag;
    var pv := At(w.bins, p);
    var name := pv.pvname;
    EntryIsPlanned(w, now, m, p);
    EraseRefines(w, now, m, p);
    BagReplace(w.bins, Dues(now, w.currentBin, |w.bins|), p, pv.(lastSearched := time));
    var slot := m[name].(lastSearched := time);
    PlanInsert(m - {name}, name, slot);
    assert (m - {name})[name := slot] == m[name := slot];
  }

  lemma PushRefines(w: Wheel, now: int, m: Plan, pv: SearchedPv)
    requires Valid(w) && Agrees(w, now, m) && pv.pvname !in m
    ensures Agrees(w.(bins := w.bins[w.currentBin := [pv] + w.bins[w.currentBin]]), now,
                   m[pv.pvname := Slot(pv.chanId, pv.lastSearched, pv.intervals, now)])
  {
    hide Bag, BinBag;
    BagPushFront(w.bins, Dues(now, w.currentBin, |w.bins|), w.currentBin, pv);
    PlanInsert(m, pv.pvname, Slot(pv.chanId, pv.lastSearched, pv.intervals, now));
  }

  lemma AddRefines(w: Wheel, now: int, m: Plan, name: PvName, time: Time)
    requires Valid(w) && Agrees(w, now, m) && |name| <= ChannelAccess.MAX_NAME
    ensures var r := Add(w, name, time);
            && Agrees(r.0, now, PlanAdd(m, name, now, time, w.chanId, w.searchIntervals))
            && (r.1 <==> name !in m)
  {
    hide Agrees;
    FindByName(w, now, m, name);
    match Find(w.bins, ScanOrder(|w.bins|), ByName(name))
    case Some(p) => TouchRefines(w, now, m, p, time);
    case None =>
      var pv := SearchedPv(w.chanId, name, time, w.searchIntervals);
      PushRefines(w, now, m, pv);
      SameBins(w.(bins := w.bins[w.currentBin := [pv] + w.bins[w.currentBin]]), (w.chanId + 1) % POW32, now,
               PlanAdd(m, name, now, time, w.chanId, w.searchIntervals));
  }

  lemma SameBins(w: Wheel, id: Word32, now: int, m: Plan)
    requires Agrees(w, now, m)
    ensures Agrees(w.(chanId := id), now, m)
  {
  }

  lemma EraseRefines(w: Wheel, now: int, m: Plan, p: Pos)
    requires Valid(w) && Agrees(w, now, m) && ValidPos(w.bins, p)
    ensures Agrees(w.(bins := Erase(w.bins, p)), now, m - {At(w.bins, p).pvname})
  {
    var dues := Dues(now, w.currentBin, |w.bins|);
    var name := At(w.bins, p).pvname;
    EntryIsPlanned(w, now, m, p);
    BagErase(w.bins, dues, p);
    PlanRemove(m, name);
    Cancel(Bag(Erase(w.bins, p), dues), multiset(Entries(m - {name})), multiset{(name, m[name])}, multiset{});
  }

  lemma RemoveRefines(w: Wheel, now: int, m: Plan, name: PvName)
    requires Valid(w) && Agrees(w, now, m)
    ensures Agrees(Remove(w, name), now, m - {name})
  {
    FindByName(w, now, m, name);
    match Find(w.bins, ScanOrder(|w.bins|), ByName(name))
    case Some(p) => EraseRefines(w, now, m, p);
    case None => assert m - {name} == m;
  }

  // ---------------------------------------------------------------- replies

  /** 2^64 is a multiple of the bin count, so unsigned wrap-around and the modulus agree. */
  predicate WrapsEvenly(n: nat)
    requires n > 0
  {
    POW64 % n == 0
  }

  /** The last bin escapes the lookup exactly when the wheel stands at bin 0 and the count does not divide 2^64. */
  predicate Hidden(currentBin: nat, n: nat, b: nat)
    requires n > 0
  {
    currentBin == 0 && b == n - 1 && !WrapsEvenly(n)
  }

  lemma ProbeIndexIs(cur: nat, i: nat, n: nat)
    requires cur < n < POW32 && i < n
    ensures cur >= 1 || i >= 1 || WrapsEvenly(n) ==> ProbeIndex(cur, i, n) == (cur + n - 1 + i) % n
    ensures cur == 0 && i == 0 ==> (ProbeIndex(cur, i, n) == n - 1 <==> WrapsEvenly(n))
  {
    if cur + i >= 1 {
      assert (cur + i - 1) % POW64 == cur + i - 1;
      ModTurn(cur + i - 1, n);
    } else {
      assert (cur + i - 1) % POW64 == POW64 - 1;
      WrapAtZero(n);
    }
  }

  lemma WrapAtZero(n: nat)
    requires 0 < n < POW32
    ensures (POW64 - 1) % n == n - 1 <==> WrapsEvenly(n)
    ensures WrapsEvenly(n) ==> (POW64 - 1) % n == (n - 1) % n
  {
    Fundamental(POW64, n);
    var q, r := POW64 / n, POW64 % n;
    ModSmall(n - 1, n);
    if r == 0 {
      assert (q - 1) * n == n * q - n;
      ModUnique(POW64 - 1, q - 1, n - 1, n);
    } else {
      ModUnique(POW64 - 1, q, r - 1, n);
    }
  }

  /** The turn at which bin `b` is probed, when it is. */
  function ProbeTurn(cur: nat, n: nat, b: nat): nat
    requires cur < n && b < n
  {
    if b >= cur then if b - cur + 1 < n then b - cur + 1 else 0
    else if b + n - cur + 1 < n then b + n - cur + 1 else 0
  }

  lemma TurnIsRight(cur: nat, n: nat, b: nat)
    requires cur < n < POW32 && b < n && !Hidden(cur, n, b)
    ensures ProbeTurn(cur, n, b) < n && ProbeIndex(cur, ProbeTurn(cur, n, b), n) == b
  {
    var i := ProbeTurn(cur, n, b);
    ProbeIndexIs(cur, i, n);
    if cur + i >= 1 {
      if cur + i - 1 >= n { ModUnique(cur + i - 1, 1, b, n); } else { ModUnique(cur + i - 1, 0, b, n); }
    }
  }

  lemma HiddenIsMissed(n: nat, i: nat)
    requires 0 < n < POW32 && i < n && !WrapsEvenly(n)
    ensures ProbeIndex(0, i, n) != n - 1
  {
    if i == 0 {
      ProbeIndexIs(0, i, n);
    } else {
      assert (i - 1) % POW64 == i - 1;
      ModSmall(i - 1, n);
    }
  }

  /** Which bins a reply is looked for in: all of them, or all but the last. */
  lemma ProbeCoverage(cur: nat, n: nat, b: nat)
    requires cur < n < POW32 && b < n
    ensures b in ProbeOrder(cur, n) <==> !Hidden(cur, n, b)
  {
    hide ProbeIndex, WrapsEvenly;
    var order := ProbeOrder(cur, n);
    if !Hidden(cur, n, b) {
      TurnIsRight(cur, n, b);
      assert order[ProbeTurn(cur, n, b)] == b;
    } else if b in order {
      var i :| 0 <= i < n && order[i] == b;
      HiddenIsMissed(n, i);
      assert false;
    }
  }

  /** The intended probing visits every bin once; the code does so exactly off bin 0 or when the count divides 2^64. */
  lemma ProbeIsPermutation(cur: nat, n: nat)
    requires cur < n < POW32
    ensures (forall b | 0 <= b < n :: b in ProbeOrder(cur, n)) <==> cur >= 1 || WrapsEvenly(n)
    ensures cur >= 1 || WrapsEvenly(n) ==>
              forall i, j | 0 <= i < j < n :: ProbeOrder(cur, n)[i] != ProbeOrder(cur, n)[j]
    ensures cur >= 1 || WrapsEvenly(n) ==>
              forall i | 0 <= i < n :: ProbeOrder(cur, n)[i] == (cur + n - 1 + i) % n
  {
    hide ProbeIndex, WrapsEvenly, ProbeOrder;
    ProbeCoverage(cur, n, n - 1);
    forall b | 0 <= b < n - 1 ensures b in ProbeOrder(cur, n) {
      ProbeCoverage(cur, n, b);
    }
    if cur >= 1 || WrapsEvenly(n) {
      forall i | 0 <= i < n ensures ProbeOrder(cur, n)[i] == (cur + n - 1 + i) % n {
        ProbeIndexIs(cur, i, n);
      }
      forall i, j | 0 <= i < j < n ensures ProbeOrder(cur, n)[i] != ProbeOrder(cur, n)[j] {
        ProbeIndexIs(cur, i, n);
        ProbeIndexIs(cur, j, n);
        ModDistinct(cur + n - 1 + i, cur + n - 1 + j, n);
      }
    }
  }

  /** The default configuration is affected: its 3000 bins lose the last one at bin 0. */
  lemma DefaultHidesLastBin()
    ensures |Fresh([1, 5, 10, 30, 60, 300]).bins| == 3000
    ensures 2999 !in ProbeOrder(0, 3000)
  {
    ProbeCoverage(0, 3000, 2999);
  }

  /** This slot is in the bin that a reply is not looked for in. */
  predicate Escapes(slot: Slot, now: int, cur: nat, n: nat)
    requires n > 0
  {
    cur == 0 && slot.due == now + n - 1 && !WrapsEvenly(n)
  }

  /** An accepted reply takes exactly the PV with its id; a rejected one changes nothing. */
  lemma ResolveRefines(w: Wheel, now: int, m: Plan, id: Word32)
    requires Valid(w) && Agrees(w, now, m)
    ensures var r := Resolve(w, id);
            match r.1
            case Some(name) => name in m && m[name].chanId == id && !Escapes(m[name], now, w.currentBin, |w.bins|)
                               && Agrees(r.0, now, m - {name})
            case None => r.0 == w && forall name | name in m && m[name].chanId == id ::
                           Escapes(m[name], now, w.currentBin, |w.bins|)
  {
    var n := |w.bins|;
    var order := ProbeOrder(w.currentBin, n);
    match Find(w.bins, order, ById(id))
    case Some(p) =>
      EntryIsPlanned(w, now, m, p);
      ProbeCoverage(w.currentBin, n, p.bin);
      EraseRefines(w, now, m, p);
    case None =>
      forall name | name in m && m[name].chanId == id ensures Escapes(m[name], now, w.currentBin, n) {
        var p := PlannedHasEntry(w, now, m, name);
        assert Matches(w.bins[p.bin][p.idx], ById(id));
        ProbeCoverage(w.currentBin, n, p.bin);
      }
  }

  // ---------------------------------------------------------------- ticks

  /** The realised delay of one backoff step on a wheel of `n` bins: one whole turn stands for 0. */
  function Turns(interval: nat, n: nat): (d: nat)
    requires n > 0
    ensures 1 <= d <= n
  {
    if interval % n == 0 then n else interval % n
  }

  /** How long after this search the next one comes: the last step means once per turn. */
  function Delay(rest: seq<Word32>, n: nat): (d: nat)
    requires n > 0 && rest != []
    ensures 1 <= d <= n
  {
    if |rest| > 1 then Turns(rest[0], n) else n
  }

  function Left(rest: seq<Word32>): (r: seq<Word32>)
    requires rest != []
    ensures r != []
  {
    if |rest| > 1 then rest[1..] else rest
  }

  function Advanced(slot: Slot, n: nat): Slot
    requires n > 0 && slot.rest != []
  {
    slot.(rest := Left(slot.rest), due := slot.due + Delay(slot.rest, n))
  }

  ghost predicate Planned(m: Plan) {
    forall name | name in m :: m[name].rest != []
  }

  function PlanTick(m: Plan, now: int, n: nat): Plan
    requires n > 0 && forall name | name in m :: m[name].rest != []
  {
    map name | name in m :: if m[name].due == now then Advanced(m[name], n) else m[name]
  }

  /** The requests are those of the PVs due now, each once. */
  ghost predicate ExactlyDue(pvs: seq<(Word32, PvName)>, m: Plan, now: int) {
    && (forall i, j | 0 <= i < j < |pvs| :: pvs[i].1 != pvs[j].1)
    && (forall p :: p in pvs <==> p.1 in m && m[p.1].due == now && m[p.1].chanId == p.0)
  }

  /** The general gap formula: an interval is realised modulo the turn, and exactly iff it fits one. */
  lemma GapFormula(interval: nat, n: nat)
    requires n > 0
    ensures Turns(interval, n) == interval <==> 1 <= interval <= n
    ensures (interval - Turns(interval, n)) % n == 0
  {
    if interval < n { ModSmall(interval, n); }
    Fundamental(interval, n);
    var q := interval / n;
    if interval % n == 0 {
      assert interval - n == (q - 1) * n by { assert (q - 1) * n == n * q - n; }
      ModUnique(interval - n, q - 1, 0, n);
      if q == 1 { assert n * q == n; }
      ModSmall(0, n);
      if interval == n { ModUnique(n, 1, 0, n); }
    } else {
      ModUnique(interval - interval % n, q, 0, n);
      if interval == n { ModUnique(n, 1, 0, n); }
    }
  }

  lemma PlacedDue(now: int, cur: nat, n: nat, interval: nat)
    requires cur < n
    ensures var b := (cur + interval) % n;
            DueTick(now + 1, (cur + 1) % n, n, b) == now + Turns(interval, n)
  {
    var e := interval % n;
    Fundamental(interval, n);
    if cur + e < n {
      ModUnique(cur + interval, interval / n, cur + e, n);
    } else {
      assert (interval / n + 1) * n == n * (interval / n) + n;
      ModUnique(cur + interval, interval / n + 1, cur + e - n, n);
    }
    NextBin(cur, n);
  }

  lemma NextBin(cur: nat, n: nat)
    requires cur < n
    ensures (cur + 1) % n == if cur + 1 == n then 0 else cur + 1
  {
    if cur + 1 == n { ModUnique(n, 1, 0, n); } else { ModSmall(cur + 1, n); }
  }

  /** Placing a sent PV adds its advanced slot to the bag of the next tick. */
  lemma PlaceRefines(bins: seq<Bin>, cur: nat, now: int, pv: SearchedPv)
    requires cur < |bins| && pv.intervals != []
    ensures var n := |bins|; var dues := Dues(now + 1, (cur + 1) % n, n);
            var slot := SlotOf(pv, now).1;
            Bag(Place(bins, cur, pv), dues) == Bag(bins, dues) + multiset{(pv.pvname, Advanced(slot, n))}
  {
    hide Bag, BinBag, Dues;
    var n := |bins|;
    var dues := Dues(now + 1, (cur + 1) % n, n);
    AdvancedSlot(pv, cur, now, n);
    if |pv.intervals| > 1 {
      hide Turns, Delay, Advanced;
      var b := (cur + pv.intervals[0]) % n;
      BagPushFront(bins, dues, b, pv.(intervals := pv.intervals[1..]));
    } else {
      hide Turns, Delay, Advanced;
      BagPushBack(bins, dues, cur, pv);
    }
  }

  lemma AdvancedSlot(pv: SearchedPv, cur: nat, now: int, n: nat)
    requires cur < n && pv.intervals != []
    ensures var next := pv.(intervals := Left(pv.intervals));
            var b := if |pv.intervals| > 1 then (cur + pv.intervals[0]) % n else cur;
            && b < n
            && SlotOf(next, Dues(now + 1, (cur + 1) % n, n)[b]) == (pv.pvname, Advanced(SlotOf(pv, now).1, n))
  {
    NextBin(cur, n);
    if |pv.intervals| > 1 {
      PlacedDue(now, cur, n, pv.intervals[0]);
    }
  }

  lemma BinBagCons(bin: Bin, due: int)
    requires bin != []
    ensures BinBag(bin, due) == multiset{SlotOf(bin[0], due)} + BinBag(bin[1..], due)
  {
  }

  lemma InEntries(m: Plan, x: (PvName, Slot))
    ensures x in multiset(Entries(m)) <==> x.0 in m && m[x.0] == x.1
  {
    if x.0 in m && m[x.0] == x.1 {
      assert x == (x.0, m[x.0]);
    }
  }

  lemma Rearrange<T>(a: multiset<T>, x: multiset<T>, b: multiset<T>, c: multiset<T>, y: multiset<T>)
    requires a + (x + b) == c + x
    ensures a + y + b == c + y
  {
    forall e ensures (a + y + b)[e] == (c + y)[e] {
      assert (a + (x + b))[e] == (c + x)[e];
    }
  }

  /** While the bin is being sent, what is placed and what is still to do make up the plan. */
  lemma {:induction false} SweepRefines(bins: seq<Bin>, cur: nat, todo: Bin, now: int, m: Plan)
    requires cur < |bins| && (forall j | 0 <= j < |todo| :: WellFormed(todo[j])) && Planned(m)
    requires var n := |bins|;
             Bag(bins, Dues(now + 1, (cur + 1) % n, n)) + BinBag(todo, now) == multiset(Entries(m))
    ensures var n := |bins|;
            Bag(Sweep(bins, cur, todo), Dues(now + 1, (cur + 1) % n, n)) == multiset(Entries(PlanTick(m, now, n)))
    decreases todo
  {
    if todo == [] {
      SweepDone(bins, cur, now, m);
    } else {
      hide Bag, BinBag, Place, Dues;
      var n, pv := |bins|, todo[0];
      assert WellFormed(pv);
      SweepStep(bins, cur, todo, now, m);
      var next := m[pv.pvname := Advanced(SlotOf(pv, now).1, n)];
      TickOnce(m, pv.pvname, now, n);
      SweepRefines(Place(bins, cur, pv), cur, todo[1..], now, next);
    }
  }

  lemma TickOnce(m: Plan, name: PvName, now: int, n: nat)
    requires n > 0 && Planned(m) && name in m && m[name].due == now
    ensures var next := m[name := Advanced(m[name], n)];
            Planned(next) && PlanTick(next, now, n) == PlanTick(m, now, n)
  {
  }

  lemma SweepDone(bins: seq<Bin>, cur: nat, now: int, m: Plan)
    requires cur < |bins| && Planned(m)
    requires var n := |bins|;
             Bag(bins, Dues(now + 1, (cur + 1) % n, n)) + BinBag([], now) == multiset(Entries(m))
    ensures Bag(bins, Dues(now + 1, (cur + 1) % |bins|, |bins|)) == multiset(Entries(m))
    ensures PlanTick(m, now, |bins|) == m
  {
    var n := |bins|;
    var dues := Dues(now + 1, (cur + 1) % n, n);
    NextBin(cur, n);
    LaterDues(now, (cur + 1) % n, n);
    NoEntries(now);
    hide Bag, BinBag, Dues, Entries, PlanTick;
    assert Bag(bins, dues) == multiset(Entries(m));
    forall name | name in m ensures m[name].due != now {
      NotDue(bins, dues, now, m, name);
    }
    NothingDue(m, now, n);
  }

  lemma NoEntries(due: int)
    ensures BinBag([], due) == multiset{}
  {
  }

  lemma LaterDues(now: int, cur: nat, n: nat)
    requires cur < n
    ensures var dues := Dues(now + 1, cur, n); forall b | 0 <= b < n :: dues[b] > now
  {
    var dues := Dues(now + 1, cur, n);
    assert forall b | 0 <= b < n :: dues[b] == DueTick(now + 1, cur, n, b);
  }

  lemma NothingDue(m: Plan, now: int, n: nat)
    requires n > 0 && Planned(m) && forall name | name in m :: m[name].due != now
    ensures PlanTick(m, now, n) == m
  {
  }

  lemma NotDue(bins: seq<Bin>, dues: seq<int>, now: int, m: Plan, name: PvName)
    requires |bins| == |dues| && Bag(bins, dues) == multiset(Entries(m)) && name in m
    requires forall b | 0 <= b < |dues| :: dues[b] > now
    ensures m[name].due > now
  {
    hide Bag;
    InEntries(m, (name, m[name]));
    var p := BagMember(bins, dues, (name, m[name]));
  }

  lemma SweepStep(bins: seq<Bin>, cur: nat, todo: Bin, now: int, m: Plan)
    requires cur < |bins| && todo != [] && WellFormed(todo[0])
    requires var n := |bins|;
             Bag(bins, Dues(now + 1, (cur + 1) % n, n)) + BinBag(todo, now) == multiset(Entries(m))
    ensures var n := |bins|; var pv := todo[0]; var x := SlotOf(pv, now);
            && pv.pvname in m && m[pv.pvname] == x.1
            && Bag(Place(bins, cur, pv), Dues(now + 1, (cur + 1) % n, n)) + BinBag(todo[1..], now) ==
               multiset(Entries(m[pv.pvname := Advanced(x.1, n)]))
  {
    var n := |bins|;
    var dues := Dues(now + 1, (cur + 1) % n, n);
    var pv := todo[0];
    var x := SlotOf(pv, now);
    BinBagCons(todo, now);
    PlaceRefines(bins, cur, now, pv);
    hide Bag, BinBag, Place, Advanced;
    assert x in multiset(Entries(m));
    InEntries(m, x);
    var adv := Advanced(x.1, n);
    var rest := m - {pv.pvname};
    PlanRemove(m, pv.pvname);
    PlanInsert(rest, pv.pvname, adv);
    assert rest[pv.pvname := adv] == m[pv.pvname := adv];
    Rearrange(Bag(bins, dues), multiset{x}, BinBag(todo[1..], now), multiset(Entries(rest)),
              multiset{(pv.pvname, adv)});
  }

  lemma PlannedIsWellFormed(w: Wheel, now: int, m: Plan)
    requires Valid(w) && Agrees(w, now, m)
    ensures Planned(m)
  {
    forall name | name in m ensures m[name].rest != [] {
      var p := PlannedHasEntry(w, now, m, name);
      assert WellFormed(w.bins[p.bin][p.idx]);
    }
  }

  /** Two entries of the wheel never have the same name. */
  lemma EntriesDistinct(w: Wheel, now: int, m: Plan, b: nat, i: nat, j: nat)
    requires Valid(w) && Agrees(w, now, m) && b < |w.bins| && i < j < |w.bins[b]|
    ensures w.bins[b][i].pvname != w.bins[b][j].pvname
  {
    var w' := w.(bins := Erase(w.bins, Pos(b, j)));
    EraseRefines(w, now, m, Pos(b, j));
    EntryIsPlanned(w', now, m - {w.bins[b][j].pvname}, Pos(b, i));
  }

  /** A tick sends exactly what is due, and reschedules it by the plan's rule. */
  lemma TickRefines(w: Wheel, now: int, m: Plan)
    requires Valid(w) && Agrees(w, now, m)
    ensures Planned(m) && Agrees(Tick(w).0, now + 1, PlanTick(m, now, |w.bins|))
    ensures ExactlyDue(Tick(w).1, m, now)
  {
    PlannedIsWellFormed(w, now, m);
    TickPlan(w, now, m);
    TickSends(w, now, m);
  }

  lemma TickPlan(w: Wheel, now: int, m: Plan)
    requires Valid(w) && Agrees(w, now, m) && Planned(m)
    ensures Agrees(Tick(w).0, now + 1, PlanTick(m, now, |w.bins|))
  {
    var n, cur := |w.bins|, w.currentBin;
    var bin := w.bins[cur];
    var dues, after := Dues(now, cur, n), Dues(now + 1, (cur + 1) % n, n);
    NextBin(cur, n);
    NextDues(now, cur, n);
    NoEntries(now);
    hide Bag, BinBag, Sweep, Dues, PlanTick, Entries;
    BagUpdate(w.bins, dues, cur, []);
    BagRetime(w.bins[cur := []], dues, after);
    assert Bag(w.bins[cur := []], after) + BinBag(bin, now) == multiset(Entries(m));
    SweepRefines(w.bins[cur := []], cur, bin, now, m);
  }

  /** When the wheel turns on, only the bin just sent gets another due tick. */
  lemma NextDues(now: int, cur: nat, n: nat)
    requires cur < n
    ensures Dues(now, cur, n)[cur] == now
    ensures var dues, after := Dues(now, cur, n), Dues(now + 1, (cur + 1) % n, n);
            forall b | 0 <= b < n && b != cur :: after[b] == dues[b]
  {
    NextBin(cur, n);
  }

  lemma TickSends(w: Wheel, now: int, m: Plan)
    requires Valid(w) && Agrees(w, now, m)
    ensures ExactlyDue(Tick(w).1, m, now)
  {
    var n, cur := |w.bins|, w.currentBin;
    var bin, pvs := w.bins[cur], Tick(w).1;
    forall i, j | 0 <= i < j < |pvs| ensures pvs[i].1 != pvs[j].1 {
      EntriesDistinct(w, now, m, cur, i, j);
    }
    forall p ensures p in pvs <==> p.1 in m && m[p.1].due == now && m[p.1].chanId == p.0 {
      if p in pvs {
        var j :| 0 <= j < |pvs| && pvs[j] == p;
        EntryIsPlanned(w, now, m, Pos(cur, j));
      }
      if p.1 in m && m[p.1].due == now && m[p.1].chanId == p.0 {
        var q := PlannedHasEntry(w, now, m, p.1);
        assert q.bin == cur && pvs[q.idx] == p;
      }
    }
  }

  // ---------------------------------------------------------------- purges

  /** The same entries under other due ticks. */
  lemma {:induction false} Retimed(bins: seq<Bin>, dues: seq<int>, m: Plan, others: seq<int>) returns (next: Plan)
    requires |bins| == |dues| == |others|
    requires Bag(bins, dues) == multiset(Entries(m))
    ensures Bag(bins, others) == multiset(Entries(next))
    ensures next.Keys == m.Keys
    ensures forall name | name in m :: next[name] == m[name].(due := next[name].due) && next[name].due in others
    decreases |bins|, if bins == [] then 0 else |bins[0]|
  {
    if bins == [] {
      next := m;
      forall name | name in m ensures false {
        InEntries(m, (name, m[name]));
      }
      assert next == map[];
    } else if bins[0] == [] {
      BagCons(bins, dues);
      BagCons(bins, others);
      next := Retimed(bins[1..], dues[1..], m, others[1..]);
      assert BinBag(bins[0], others[0]) == multiset{};
    } else {
      next := RetimedOne(bins, dues, m, others);
    }
  }

  lemma {:induction false} RetimedOne(bins: seq<Bin>, dues: seq<int>, m: Plan, others: seq<int>) returns (next: Plan)
    requires |bins| == |dues| == |others| && bins != [] && bins[0] != []
    requires Bag(bins, dues) == multiset(Entries(m))
    ensures Bag(bins, others) == multiset(Entries(next))
    ensures next.Keys == m.Keys
    ensures forall name | name in m :: next[name] == m[name].(due := next[name].due) && next[name].due in others
    decreases |bins|, |bins[0]|, 0
  {
    hide Bag;
    var pv, p := bins[0][0], Pos(0, 0);
    var cut := Erase(bins, p);
    BagErase(bins, dues, p);
    BagErase(bins, others, p);
    var x, y := SlotOf(pv, dues[0]), SlotOf(pv, others[0]);
    assert x in multiset(Entries(m));
    InEntries(m, x);
    PlanRemove(m, pv.pvname);
    var rest := m - {pv.pvname};
    Cancel(Bag(cut, dues), multiset(Entries(rest)), multiset{x}, multiset{});
    assert |cut[0]| < |bins[0]|;
    var r := Retimed(cut, dues, rest, others);
    next := r[pv.pvname := y.1];
    PlanInsert(r, pv.pvname, y.1);
  }

  lemma {:induction false} BagFlatten(bins: seq<Bin>, dues: seq<int>)
    requires |bins| == |dues| && forall b | 0 <= b < |dues| :: dues[b] == 0
    ensures Bag(bins, dues) == BinBag(Flatten(bins), 0)
  {
    if bins != [] {
      BagFlatten(bins[1..], dues[1..]);
      BinBagAppend(bins[0], Flatten(bins[1..]), 0);
    }
  }

  function PlanKeep(m: Plan, time: Time, maxtime: Word32): Plan {
    map name | name in m && Truncate(time - m[name].lastSearched, SECOND) <= maxtime :: m[name]
  }

  lemma {:induction false} KeepRefines(pvs: Bin, m: Plan, time: Time, maxtime: Word32)
    requires BinBag(pvs, 0) == multiset(Entries(m))
    ensures BinBag(Keep(pvs, time, maxtime), 0) == multiset(Entries(PlanKeep(m, time, maxtime)))
  {
    if pvs == [] {
      forall name | name in m ensures false {
        InEntries(m, (name, m[name]));
      }
      assert PlanKeep(m, time, maxtime) == map[];
    } else {
      var pv := pvs[0];
      var x := SlotOf(pv, 0);
      BinBagCons(pvs, 0);
      assert x in multiset(Entries(m));
      InEntries(m, x);
      PlanRemove(m, pv.pvname);
      var rest := m - {pv.pvname};
      CancelOne(BinBag(pvs[1..], 0), multiset(Entries(rest)), x);
      KeepRefines(pvs[1..], rest, time, maxtime);
      KeepOne(pvs, m, time, maxtime);
    }
  }

  lemma PlanKeepOne(m: Plan, name: PvName, time: Time, maxtime: Word32)
    requires name in m
    ensures var kept := PlanKeep(m - {name}, time, maxtime);
            && name !in kept
            && PlanKeep(m, time, maxtime) ==
               if Truncate(time - m[name].lastSearched, SECOND) <= maxtime then kept[name := m[name]] else kept
  {
  }

  lemma KeepOne(pvs: Bin, m: Plan, time: Time, maxtime: Word32)
    requires pvs != [] && var x := SlotOf(pvs[0], 0); x.0 in m && m[x.0] == x.1
    requires BinBag(Keep(pvs[1..], time, maxtime), 0) ==
             multiset(Entries(PlanKeep(m - {pvs[0].pvname}, time, maxtime)))
    ensures BinBag(Keep(pvs, time, maxtime), 0) == multiset(Entries(PlanKeep(m, time, maxtime)))
  {
    KeepCons(pvs, time, maxtime);
    hide Keep, BinBag, PlanKeep;
    var pv := pvs[0];
    var kept, rest := Keep(pvs[1..], time, maxtime), PlanKeep(m - {pv.pvname}, time, maxtime);
    PlanKeepOne(m, pv.pvname, time, maxtime);
    if Requested(pv, time, maxtime) {
      BinBagAppend([pv], kept, 0);
      BinBagOne(pv, 0);
      PlanInsert(rest, pv.pvname, m[pv.pvname]);
    }
  }

  /** What a purge does to a plan: stale PVs go, the others keep everything but their due tick. */
  ghost predicate PlanPurge(m: Plan, next: Plan, time: Time, maxtime: Word32) {
    && next.Keys == PlanKeep(m, time, maxtime).Keys
    && forall name | name in next :: next[name] == m[name].(due := next[name].due)
  }

  lemma PurgeRefines(w: Wheel, now: int, m: Plan, time: Time, maxtime: Word32) returns (next: Plan)
    requires Valid(w) && Agrees(w, now, m)
    ensures Agrees(Purge(w, time, maxtime).0, now, next)
    ensures PlanPurge(m, next, time, maxtime)
  {
    hide Bag, BinBag, Flatten, Keep, Balanced;
    var n := |w.bins|;
    var zeros: seq<int> := seq(n, _ => 0);
    var bare := Retimed(w.bins, Dues(now, w.currentBin, n), m, zeros);
    BagFlatten(w.bins, zeros);
    KeepRefines(Flatten(w.bins), bare, time, maxtime);
    var pvs := Survivors(w, time, maxtime);
    BalancedConserves(n, pvs);
    BagFlatten(Balanced(n, pvs), zeros);
    next := Retimed(Balanced(n, pvs), zeros, PlanKeep(bare, time, maxtime), Dues(now, 0, n));
  }

  /** A purge fixes when each survivor is sent next, by its position among the survivors alone. */
  lemma SurvivorDue(w: Wheel, now: int, time: Time, maxtime: Word32, next: Plan, x: nat)
    requires Valid(w) && Agrees(Purge(w, time, maxtime).0, now, next) && x < |Keep(Flatten(w.bins), time, maxtime)|
    ensures var pvs := Keep(Flatten(w.bins), time, maxtime);
            pvs[x].pvname in next && next[pvs[x].pvname].due == now + BinOf(|w.bins|, |pvs|, x)
  {
    hide Keep, Flatten, Agrees, Balanced, BinOf;
    var pvs := Keep(Flatten(w.bins), time, maxtime);
    var j := SurvivorBin(|w.bins|, pvs, x);
    var w' := Purge(w, time, maxtime).0;
    assert w'.bins == Balanced(|w.bins|, pvs) && w'.currentBin == 0;
    EntryIsPlanned(w', now, next, Pos(BinOf(|w.bins|, |pvs|, x), j));
  }
}
