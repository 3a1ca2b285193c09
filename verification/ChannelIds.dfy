/** The other channel id allocator of the searcher, which renumbers all PVs when it runs out of ids. */
module ChannelIds {
  import opened Prelude
  import opened Rebalance
  import opened SearchWheel

  const INT32_MAX: nat := 0x7fff_ffff

  /** The PVs of a bin, renumbered from `n` on. */
  function NumberedFrom(bin: Bin, n: nat): Bin {
    seq(|bin|, j requires 0 <= j < |bin| => bin[j].(chanId := (n + j) % POW32))
  }

  /** All bins, numbered through in order. */
  function Renumbered(bins: seq<Bin>): seq<Bin> {
    seq(|bins|, b requires 0 <= b < |bins| => NumberedFrom(bins[b], |Flatten(bins[..b])|))
  }

  function NextChanId(w: Wheel): (Wheel, Word32) {
    var next := (w.chanId + 1) % POW32;
    if next != INT32_MAX then (w.(chanId := next), next)
    else
      var count := |Flatten(w.bins)| % POW32;
      (w.(bins := Renumbered(w.bins), chanId := count), count)
  }

  /** The ids in use are pairwise distinct, at most the last one given, and short of the limit. */
  ghost predicate Allocated(held: Bin, last: Word32) {
    && last < INT32_MAX
    && (forall i | 0 <= i < |held| :: held[i].chanId <= last)
    && (forall i, j | 0 <= i < j < |held| :: held[i].chanId != held[j].chanId)
  }

  lemma FlattenSnoc(bins: seq<Bin>, b: nat)
    requires b < |bins|
    ensures Flatten(bins[..b + 1]) == Flatten(bins[..b]) + bins[b]
  {
    assert bins[..b + 1] == bins[..b] + [bins[b]];
    FlattenAppend(bins[..b], [bins[b]]);
    assert Flatten([bins[b]]) == bins[b] + Flatten<SearchedPv>([]);
  }

  lemma {:induction false} RenumberedFlat(bins: seq<Bin>, b: nat)
    requires b <= |bins|
    ensures Flatten(Renumbered(bins)[..b]) == NumberedFrom(Flatten(bins[..b]), 0)
    decreases b
  {
    if b > 0 {
      RenumberedFlat(bins, b - 1);
      FlattenSnoc(bins, b - 1);
      FlattenSnoc(Renumbered(bins), b - 1);
    }
  }

  /** No PV holds the id, and it is safe to give it out. */
  ghost predicate Free(held: Bin, id: Word32) {
    && (forall i | 0 <= i < |held| :: held[i].chanId != id)
    && Allocated(held, id)
  }

  lemma FreeMayBeTaken(held: Bin, pv: SearchedPv)
    requires Free(held, pv.chanId)
    ensures Allocated([pv] + held, pv.chanId)
  {
  }

  /** The same PVs, but for their ids. */
  ghost predicate OnlyIdsDiffer(held: Bin, held': Bin) {
    |held'| == |held| && forall i | 0 <= i < |held| :: held'[i] == held[i].(chanId := held'[i].chanId)
  }

  lemma NumberedFree(held: Bin)
    requires |held| < INT32_MAX
    ensures Free(NumberedFrom(held, 0), |held|) && OnlyIdsDiffer(held, NumberedFrom(held, 0))
  {
    assert forall i | 0 <= i < |held| :: NumberedFrom(held, 0)[i].chanId == i;
  }

  lemma RenumberedValid(w: Wheel, id: Word32)
    requires SearchWheel.Valid(w)
    ensures SearchWheel.Valid(w.(bins := Renumbered(w.bins), chanId := id))
  {
    hide Flatten;
    var bins := Renumbered(w.bins);
    forall b, j | 0 <= b < |bins| && 0 <= j < |bins[b]| ensures WellFormed(bins[b][j]) {
      assert WellFormed(w.bins[b][j]);
    }
  }

  /**
   * With fewer than INT32_MAX PVs, every call gives an id that no PV holds, keeps the ids in use
   * distinct, and changes nothing of the PVs but their ids; so once a new PV takes the id, the
   * next call is as safe as this one.
   */
  lemma ChanIdsStayDistinct(w: Wheel, pv: SearchedPv)
    requires SearchWheel.Valid(w) && Allocated(Flatten(w.bins), w.chanId) && |Flatten(w.bins)| < INT32_MAX
    ensures var (w', id) := NextChanId(w);
            var held' := Flatten(w'.bins);
            && SearchWheel.Valid(w') && w'.chanId == id
            && Free(held', id) && Allocated([pv.(chanId := id)] + held', id)
            && OnlyIdsDiffer(Flatten(w.bins), held')
  {
    hide Flatten, NextChanId, SearchWheel.Valid, Allocated, Free, OnlyIdsDiffer;
    if w.chanId + 1 == INT32_MAX {
      Renumber(w);
    } else {
      CountOn(w);
    }
    var id := NextChanId(w).1;
    FreeIsAllocated(Flatten(NextChanId(w).0.bins), id);
    FreeMayBeTaken(Flatten(NextChanId(w).0.bins), pv.(chanId := id));
  }

  lemma FreeIsAllocated(held: Bin, id: Word32)
    requires Free(held, id)
    ensures Allocated(held, id)
  {
  }

  lemma CountOn(w: Wheel)
    requires SearchWheel.Valid(w) && Allocated(Flatten(w.bins), w.chanId) && w.chanId + 1 != INT32_MAX
    ensures var (w', id) := NextChanId(w);
            && SearchWheel.Valid(w') && w'.chanId == id
            && Free(Flatten(w'.bins), id) && OnlyIdsDiffer(Flatten(w.bins), Flatten(w'.bins))
  {
    hide Flatten, Renumbered;
  }

  lemma Renumber(w: Wheel)
    requires SearchWheel.Valid(w) && |Flatten(w.bins)| < INT32_MAX && w.chanId + 1 == INT32_MAX
    ensures var (w', id) := NextChanId(w);
            && SearchWheel.Valid(w') && w'.chanId == id
            && Free(Flatten(w'.bins), id) && OnlyIdsDiffer(Flatten(w.bins), Flatten(w'.bins))
  {
    hide Flatten, Renumbered, NumberedFrom, SearchWheel.Valid, Free, OnlyIdsDiffer;
    var held := Flatten(w.bins);
    RenumberedSize(w.bins);
    RenumberedFlat(w.bins, |w.bins|);
    assert w.bins[..|w.bins|] == w.bins && Renumbered(w.bins)[..|w.bins|] == Renumbered(w.bins);
    NumberedFree(held);
    RenumberedValid(w, |held|);
  }

  lemma RenumberedSize(bins: seq<Bin>)
    ensures |Renumbered(bins)| == |bins|
  {
  }

  /** Short of the limit the counter goes on and nothing else changes; at the limit all PVs are numbered from 0 on. */
  lemma NextChanIdExactly(w: Wheel)
    requires SearchWheel.Valid(w) && w.chanId + 1 < POW32 && |Flatten(w.bins)| < POW32
    ensures var (w', id) := NextChanId(w);
            && w'.chanId == id
            && (w.chanId + 1 != 0x7fff_ffff ==> id == w.chanId + 1 && w' == w.(chanId := id))
            && (w.chanId + 1 == 0x7fff_ffff ==>
                  var held := Flatten(w'.bins);
                  id == |held| == |Flatten(w.bins)| && forall i | 0 <= i < |held| :: held[i].chanId == i)
  {
    hide Flatten;
    if w.chanId + 1 == INT32_MAX {
      RenumberedFlat(w.bins, |w.bins|);
      RenumberedSize(w.bins);
      assert w.bins[..|w.bins|] == w.bins && Renumbered(w.bins)[..|w.bins|] == Renumbered(w.bins);
    }
  }
}
