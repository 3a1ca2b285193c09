/**
 * How a purge deals the surviving PVs out to the bins: `perBin` at a time, but at
 * least ten to a bin, skipping bins to make up for the surplus.
 */
module Rebalance {
  import opened Prelude

  function Min(a: int, b: int): int {
    if a < b then a else b
  }

  /** Integer form of `ceil(n / d)`. */
  function CeilDiv(n: nat, d: nat): nat
    requires d > 0
  {
    (n + d - 1) / d
  }

  function Flatten<T>(bins: seq<seq<T>>): seq<T> {
    if bins == [] then [] else bins[0] + Flatten(bins[1..])
  }

  function Empty<T>(n: nat): (bins: seq<seq<T>>)
    ensures |bins| == n && forall b | 0 <= b < n :: bins[b] == []
  {
    seq(n, _ => [])
  }

  lemma {:induction false} FlattenAppend<T>(a: seq<seq<T>>, b: seq<seq<T>>)
    ensures Flatten(a + b) == Flatten(a) + Flatten(b)
  {
    if a == [] {
      assert a + b == b;
    } else {
      assert (a + b)[1..] == a[1..] + b;
      FlattenAppend(a[1..], b);
    }
  }

  lemma {:induction false} FlattenEmpty<T>(bins: seq<seq<T>>)
    requires forall b | 0 <= b < |bins| :: bins[b] == []
    ensures Flatten(bins) == []
  {
    if bins != [] {
      FlattenEmpty(bins[1..]);
    }
  }

  /** How many of `left` PVs the next bin takes, and how far on the bin after it is. */
  function Take(perBin: nat, left: nat): nat {
    var n := Min(perBin, left);
    if n < 10 then Min(left, 10) else n
  }

  function Advance(perBin: nat, left: nat): (step: nat)
    ensures step >= 1
  {
    var n := Min(perBin, left);
    if n < 10 then 10 - n else 1
  }

  /** The bins from `i` to `n`, dealt from `pvs`, and the PVs for which no bin was left. */
  function Deal<T>(n: nat, i: nat, perBin: nat, pvs: seq<T>): (r: (seq<seq<T>>, seq<T>))
    requires i <= n && (pvs != [] ==> perBin > 0)
    ensures |r.0| == n - i
    decreases n - i
  {
    if i == n || pvs == [] then (Empty(n - i), pvs)
    else
      var k, j := Take(perBin, |pvs|), Min(i + Advance(perBin, |pvs|), n);
      var rest := Deal(n, j, perBin, pvs[k..]);
      ([pvs[..k]] + Empty(j - i - 1) + rest.0, rest.1)
  }

  /** All bins after a purge: what could not be dealt is appended to the last one. */
  function Balanced<T>(n: nat, pvs: seq<T>): (bins: seq<seq<T>>)
    requires n > 0
    ensures |bins| == n
  {
    CeilDivPositive(|pvs|, n);
    var r := Deal(n, 0, CeilDiv(|pvs|, n), pvs);
    r.0[n - 1 := r.0[n - 1] + r.1]
  }

  lemma CeilDivPositive(a: nat, n: nat)
    requires n > 0
    ensures a > 0 ==> CeilDiv(a, n) > 0
  {
    if a > 0 {
      assert (a + n - 1) / n >= n / n by { DivMonotone(n, a + n - 1, n); }
    }
  }

  lemma DivMonotone(a: nat, b: nat, d: nat)
    requires d > 0 && a <= b
    ensures a / d <= b / d
  {
    if a / d > b / d {
      MulMonotone(b / d + 1, a / d, d);
      assert false;
    }
  }

  lemma MulMonotone(a: nat, b: nat, d: nat)
    requires a <= b
    ensures a * d <= b * d
  {
  }

  lemma DealUnfold<T>(n: nat, i: nat, perBin: nat, pvs: seq<T>)
    requires i < n && pvs != [] && perBin > 0
    ensures var k := Take(perBin, |pvs|); var j := Min(i + Advance(perBin, |pvs|), n);
            && 0 < k <= |pvs| && i < j <= n
            && var rest := Deal(n, j, perBin, pvs[k..]);
               Deal(n, i, perBin, pvs) == ([pvs[..k]] + Empty(j - i - 1) + rest.0, rest.1)
  {
  }

  /** Dealing keeps every PV once, in order. */
  lemma {:induction false} DealConserves<T>(n: nat, i: nat, perBin: nat, pvs: seq<T>)
    requires i <= n && (pvs != [] ==> perBin > 0)
    ensures Flatten(Deal(n, i, perBin, pvs).0) + Deal(n, i, perBin, pvs).1 == pvs
    decreases n - i
  {
    if i == n || pvs == [] {
      FlattenEmpty(Empty<T>(n - i));
    } else {
      DealUnfold(n, i, perBin, pvs);
      hide Flatten, Take, Deal;
      var k, j := Take(perBin, |pvs|), Min(i + Advance(perBin, |pvs|), n);
      var rest := Deal(n, j, perBin, pvs[k..]);
      DealConserves(n, j, perBin, pvs[k..]);
      FlattenDealt(pvs[..k], j - i - 1, rest.0);
      assert pvs == pvs[..k] + pvs[k..];
    }
  }

  lemma FlattenDealt<T>(bin: seq<T>, skipped: nat, bins: seq<seq<T>>)
    ensures Flatten([bin] + Empty(skipped) + bins) == bin + Flatten(bins)
  {
    FlattenAppend([bin] + Empty(skipped), bins);
    FlattenAppend([bin], Empty(skipped));
    FlattenEmpty(Empty<T>(skipped));
    assert Flatten([bin]) == bin + Flatten<T>([]);
  }

  /** A purge neither loses, duplicates nor reorders a survivor. */
  lemma BalancedConserves<T>(n: nat, pvs: seq<T>)
    requires n > 0
    ensures Flatten(Balanced(n, pvs)) == pvs
  {
    CeilDivPositive(|pvs|, n);
    var r := Deal(n, 0, CeilDiv(|pvs|, n), pvs);
    DealConserves(n, 0, CeilDiv(|pvs|, n), pvs);
    assert Balanced(n, pvs) == r.0[n - 1 := r.0[n - 1] + r.1];
    hide Deal, Flatten, Balanced, CeilDiv;
    var head, last := r.0[..n - 1], r.0[n - 1];
    FlattenAppend(head, [last]);
    FlattenAppend(head, [last + r.1]);
    FlattenOne(last);
    FlattenOne(last + r.1);
    assert r.0 == head + [last];
    assert Balanced(n, pvs) == head + [last + r.1];
    assert Flatten(head) + last + r.1 == Flatten(head) + (last + r.1);
  }

  lemma FlattenOne<T>(bin: seq<T>)
    ensures Flatten([bin]) == bin
  {
    assert Flatten([bin]) == bin + Flatten<T>([]);
  }

  lemma {:induction false} DealtBinsBounded<T>(n: nat, i: nat, perBin: nat, pvs: seq<T>)
    requires i <= n && (pvs != [] ==> perBin > 0)
    ensures forall bin | bin in Deal(n, i, perBin, pvs).0 :: |bin| <= if perBin > 10 then perBin else 10
    decreases n - i
  {
    if i < n && pvs != [] {
      var k, j := Take(perBin, |pvs|), Min(i + Advance(perBin, |pvs|), n);
      DealtBinsBounded(n, j, perBin, pvs[k..]);
    }
  }

  /** What remains undealt when bins `i..n` are dealt `left` PVs. */
  function Leftover(bins: nat, perBin: nat, left: nat): nat
    requires 0 < perBin < 10
  {
    if left <= 10 * CeilDiv(bins, 10 - perBin) then 0 else left - 10 * CeilDiv(bins, 10 - perBin)
  }

  lemma CeilDivStep(bins: nat, step: nat)
    requires 1 <= step <= 9 && bins > 0
    ensures CeilDiv(bins, step) == 1 + (if bins <= step then 0 else CeilDiv(bins - step, step))
  {
    if step == 1 {} else if step == 2 {} else if step == 3 {} else if step == 4 {}
    else if step == 5 {} else if step == 6 {} else if step == 7 {} else if step == 8 {} else {}
  }

  lemma {:induction false} DealLeftoverSkipping<T>(n: nat, i: nat, perBin: nat, pvs: seq<T>)
    requires i <= n && 0 < perBin < 10
    ensures |Deal(n, i, perBin, pvs).1| == Leftover(n - i, perBin, |pvs|)
    decreases n - i
  {
    if i < n && pvs != [] {
      var k, j := Take(perBin, |pvs|), Min(i + Advance(perBin, |pvs|), n);
      DealLeftoverSkipping(n, j, perBin, pvs[k..]);
      CeilDivStep(n - i, 10 - perBin);
    }
  }

  lemma {:induction false} DealLeftoverFull<T>(n: nat, i: nat, perBin: nat, pvs: seq<T>)
    requires i <= n && perBin >= 10 && |pvs| <= perBin * (n - i)
    ensures Deal(n, i, perBin, pvs).1 == []
    decreases n - i
  {
    if i < n && pvs != [] {
      var k, j := Take(perBin, |pvs|), Min(i + Advance(perBin, |pvs|), n);
      if perBin <= |pvs| {
        assert perBin * (n - i) == perBin * (n - j) + perBin;
      } else {
        assert pvs[k..] == [] && 0 <= perBin * (n - j);
      }
      DealLeftoverFull(n, j, perBin, pvs[k..]);
    }
  }

  lemma CeilDivCovers(a: nat, n: nat)
    requires n > 0
    ensures a <= CeilDiv(a, n) * n < a + n
  {
  }

  /**
   * The exact bound on a rebalanced wheel: every bin but the last holds at most
   * max(10, perBin) PVs, and the leftover of the last bin has a closed form.
   */
  lemma RebalanceBound<T>(n: nat, pvs: seq<T>)
    requires n > 0
    ensures var perBin := CeilDiv(|pvs|, n); var bins := Balanced(n, pvs);
            && (forall b | 0 <= b < n - 1 :: |bins[b]| <= if perBin > 10 then perBin else 10)
            && (pvs != [] ==> perBin > 0)
            && |bins[n - 1]| == |Deal(n, 0, perBin, pvs).0[n - 1]| +
                 (if perBin == 0 || perBin >= 10 then 0 else Leftover(n, perBin, |pvs|))
            && |Deal(n, 0, perBin, pvs).0[n - 1]| <= if perBin > 10 then perBin else 10
  {
    var perBin := CeilDiv(|pvs|, n);
    CeilDivPositive(|pvs|, n);
    CeilDivCovers(|pvs|, n);
    DealtBinsBounded(n, 0, perBin, pvs);
    var dealt := Deal(n, 0, perBin, pvs).0;
    assert Balanced(n, pvs) == dealt[n - 1 := dealt[n - 1] + Deal(n, 0, perBin, pvs).1];
    hide Deal, Balanced, Leftover, CeilDiv;
    assert forall b | 0 <= b < n :: dealt[b] in dealt;
    if perBin >= 10 {
      DealLeftoverFull(n, 0, perBin, pvs);
    } else if perBin > 0 {
      DealLeftoverSkipping(n, 0, perBin, pvs);
    }
  }

  /** Few PVs, or more than eight to a bin, always fit: nothing is left over. */
  lemma NoLeftover<T>(n: nat, pvs: seq<T>)
    requires n > 0 && (|pvs| <= n || |pvs| > 8 * n)
    ensures (pvs != [] ==> CeilDiv(|pvs|, n) > 0) && Deal(n, 0, CeilDiv(|pvs|, n), pvs).1 == []
  {
    var perBin := CeilDiv(|pvs|, n);
    CeilDivPositive(|pvs|, n);
    CeilDivCovers(|pvs|, n);
    if perBin >= 10 {
      DealLeftoverFull(n, 0, perBin, pvs);
    } else if perBin > 0 {
      DealLeftoverSkipping(n, 0, perBin, pvs);
      LeftoverIsNone(n, perBin, |pvs|);
    }
  }

  lemma LeftoverIsNone(n: nat, perBin: nat, left: nat)
    requires n > 0 && (left <= n || left > 8 * n)
    requires 0 < perBin < 10 && perBin == CeilDiv(left, n)
    ensures Leftover(n, perBin, left) == 0
  {
    CeilDivCovers(left, n);
    if left <= n {
      if perBin >= 2 { MulMonotone(2, perBin, n); }
      CeilDivCovers(n, 9);
    } else {
      if perBin <= 8 { MulMonotone(perBin, 8, n); }
      assert CeilDiv(n, 1) == n;
    }
  }

  // ---------------------------------------------------------------- where each PV goes

  /** The part of a list from position `a` to before `b`, as far as the list goes. */
  function Part<T>(pvs: seq<T>, a: nat, b: nat): seq<T>
    requires a <= b
  {
    pvs[Min(a, |pvs|)..Min(b, |pvs|)]
  }

  lemma PartBehind<T>(pvs: seq<T>, k: nat, a: nat, b: nat)
    requires k <= |pvs| && a <= b
    ensures Part(pvs[k..], a, b) == Part(pvs, k + a, k + b)
  {
  }

  lemma PartPast<T>(pvs: seq<T>, a: nat, b: nat)
    requires |pvs| <= a <= b
    ensures Part(pvs, a, b) == []
  {
  }

  lemma FirstPart<T>(pvs: seq<T>, k: nat)
    ensures Part(pvs, 0, k) == pvs[..Min(k, |pvs|)]
  {
  }

  lemma NextShare(c: nat, perBin: nat)
    ensures (c + 1) * perBin == c * perBin + perBin && 0 <= c * perBin
  {
  }

  /** With ten or more to a bin, every bin takes its share, in order. */
  lemma {:induction false} DealtFull<T>(n: nat, i: nat, perBin: nat, pvs: seq<T>, b: nat)
    requires i <= b < n && perBin >= 10
    ensures 0 <= (b - i) * perBin <= (b - i + 1) * perBin
    ensures Deal(n, i, perBin, pvs).0[b - i] == Part(pvs, (b - i) * perBin, (b - i + 1) * perBin)
    decreases n - i
  {
    hide Deal, Part;
    var c := b - i;
    NextShare(c, perBin);
    if |pvs| < perBin {
      DealtShort(n, i, perBin, pvs, c);
    } else {
      DealUnfold(n, i, perBin, pvs);
      if c == 0 {
        FirstPart(pvs, perBin);
      } else {
        NextShare(c - 1, perBin);
        DealtFull(n, i + 1, perBin, pvs[perBin..], b);
        PartBehind(pvs, perBin, (c - 1) * perBin, c * perBin);
      }
    }
  }

  /** A short rest goes into one bin, and those behind get nothing. */
  lemma DealtShort<T>(n: nat, i: nat, perBin: nat, pvs: seq<T>, c: nat)
    requires i + c < n && perBin >= 10 && |pvs| < perBin
    ensures 0 <= c * perBin <= (c + 1) * perBin
    ensures Deal(n, i, perBin, pvs).0[c] == Part(pvs, c * perBin, (c + 1) * perBin)
  {
    hide Deal, Part;
    NextShare(c, perBin);
    if c == 0 {
      FirstPart(pvs, perBin);
    } else {
      NextShare(c - 1, perBin);
      PartPast(pvs, c * perBin, (c + 1) * perBin);
    }
    if pvs == [] {
      DealtNone(n, i, perBin, pvs);
    } else {
      DealUnfold(n, i, perBin, pvs);
      assert pvs[|pvs|..] == [];
      DealtNone(n, Min(i + Advance(perBin, |pvs|), n), perBin, pvs[|pvs|..]);
    }
  }

  /** Which of the bins that take PVs bin `c` is, if it is one. */
  function Round(c: nat, step: nat): Option<nat>
    requires step > 0
  {
    if c % step == 0 then Some(c / step) else None
  }

  lemma RoundBack(c: nat, step: nat)
    requires 1 <= step <= 9
    ensures c >= step ==> Round(c, step) == match Round(c - step, step) case Some(q) => Some(q + 1) case None => None
    ensures 0 < c < step ==> Round(c, step) == None
    ensures c == 0 ==> Round(c, step) == Some(0)
    ensures c > 0 ==> Round(c, step) != Some(0)
  {
    StepBack(c, step);
  }

  lemma StepBack(c: nat, step: nat)
    requires 1 <= step <= 9
    ensures c >= step ==> c % step == (c - step) % step && c / step == (c - step) / step + 1
    ensures 0 < c < step ==> c % step != 0
    ensures c == 0 ==> c % step == 0 && c / step == 0
    ensures c >= step ==> c / step >= 1
  {
    if step == 1 {} else if step == 2 {} else if step == 3 {} else if step == 4 {}
    else if step == 5 {} else if step == 6 {} else if step == 7 {} else if step == 8 {} else {}
  }

  /** The ten PVs of a round, as far as the list goes. */
  function Ten<T>(pvs: seq<T>, round: Option<nat>): seq<T> {
    match round case Some(q) => Part(pvs, 10 * q, 10 * q + 10) case None => []
  }

  lemma TenBehind<T>(pvs: seq<T>, k: nat, round: Option<nat>)
    requires k == Min(10, |pvs|)
    ensures Ten(pvs[k..], round) == Ten(pvs, match round case Some(q) => Some(q + 1) case None => None)
  {
  }

  lemma ShortTen<T>(pvs: seq<T>, round: Option<nat>)
    requires |pvs| <= 10
    ensures Ten(pvs, round) == if round == Some(0) then pvs else []
  {
  }

  /** With fewer, every so many bins take ten, and those between take none. */
  lemma {:induction false} DealtSkipping<T>(n: nat, i: nat, perBin: nat, pvs: seq<T>, b: nat)
    requires i <= b < n && 0 < perBin < 10
    ensures Deal(n, i, perBin, pvs).0[b - i] == Ten(pvs, Round(b - i, 10 - perBin))
    decreases n - i
  {
    hide Round, Ten, Deal;
    var c, step := b - i, 10 - perBin;
    RoundBack(c, step);
    if pvs == [] {
      DealtNone(n, i, perBin, pvs);
      ShortTen(pvs, Round(c, step));
    } else {
      DealUnfold(n, i, perBin, pvs);
      var k, j := Take(perBin, |pvs|), Min(i + Advance(perBin, |pvs|), n);
      if |pvs| >= perBin {
        if c == 0 {
          FirstTen(pvs, k);
        } else if b >= j {
          DealtSkipping(n, j, perBin, pvs[k..], b);
          TenBehind(pvs, k, Round(c - step, step));
        } else {
          NoTen(pvs);
        }
      } else {
        assert pvs[k..] == [];
        DealtNone(n, j, perBin, pvs[k..]);
        ShortTen(pvs, Round(c, step));
      }
    }
  }

  lemma DealtNone<T>(n: nat, i: nat, perBin: nat, pvs: seq<T>)
    requires i <= n && pvs == []
    ensures Deal(n, i, perBin, pvs) == (Empty(n - i), [])
  {
  }

  lemma FirstTen<T>(pvs: seq<T>, k: nat)
    requires k == Min(10, |pvs|)
    ensures Ten(pvs, Some(0)) == pvs[..k]
  {
  }

  lemma NoTen<T>(pvs: seq<T>)
    ensures Ten(pvs, None) == []
  {
  }

  /** What is left when the bins are used up is the end of the list. */
  lemma {:induction false} RestSkipping<T>(n: nat, i: nat, perBin: nat, pvs: seq<T>)
    requires i <= n && 0 < perBin < 10
    ensures Deal(n, i, perBin, pvs).1 == pvs[Min(10 * CeilDiv(n - i, 10 - perBin), |pvs|)..]
    decreases n - i
  {
    hide Deal, CeilDiv;
    NoneToDeal(10 - perBin);
    if i == n || pvs == [] {
      DealtAll(n, i, perBin, pvs);
    } else {
      DealUnfold(n, i, perBin, pvs);
      var k, j := Take(perBin, |pvs|), Min(i + Advance(perBin, |pvs|), n);
      CeilDivStep(n - i, 10 - perBin);
      if |pvs| < perBin {
        assert pvs[k..] == [];
        DealtAll(n, j, perBin, pvs[k..]);
      } else {
        RestSkipping(n, j, perBin, pvs[k..]);
        var rest := Min(10 * CeilDiv(n - j, 10 - perBin), |pvs[k..]|);
        assert pvs[k..][rest..] == pvs[k + rest..];
      }
    }
  }

  lemma NoneToDeal(step: nat)
    requires step > 0
    ensures CeilDiv(0, step) == 0
  {
  }

  lemma DealtAll<T>(n: nat, i: nat, perBin: nat, pvs: seq<T>)
    requires i <= n && perBin > 0 && (i == n || pvs == [])
    ensures Deal(n, i, perBin, pvs).1 == pvs
  {
  }

  lemma BalancedIs<T>(n: nat, pvs: seq<T>, b: nat)
    requires b < n
    ensures var perBin := CeilDiv(|pvs|, n);
            && (pvs != [] ==> perBin > 0)
            && var r := Deal(n, 0, perBin, pvs);
               Balanced(n, pvs)[b] == r.0[b] + (if b == n - 1 then r.1 else [])
  {
    CeilDivPositive(|pvs|, n);
    hide Deal, CeilDiv;
  }

  /** What each bin holds after a purge: with ten or more PVs to a bin, bin `b` holds the `b`-th share. */
  lemma FullContents<T>(n: nat, pvs: seq<T>, b: nat)
    requires b < n && CeilDiv(|pvs|, n) >= 10
    ensures var perBin := CeilDiv(|pvs|, n);
            0 <= b * perBin <= (b + 1) * perBin && Balanced(n, pvs)[b] == Part(pvs, b * perBin, (b + 1) * perBin)
  {
    hide Deal, Balanced, CeilDiv, Part;
    var perBin := CeilDiv(|pvs|, n);
    BalancedIs(n, pvs, b);
    CeilDivCovers(|pvs|, n);
    DealtFull(n, 0, perBin, pvs, b);
    assert |pvs| <= perBin * (n - 0);
    DealLeftoverFull(n, 0, perBin, pvs);
  }

  /**
   * With fewer, every so many bins hold ten each, those between none, and what is left at the
   * end of the list stands at the end of the last bin.
   */
  lemma SkippingContents<T>(n: nat, pvs: seq<T>, b: nat)
    requires b < n && 0 < CeilDiv(|pvs|, n) < 10
    ensures var step := 10 - CeilDiv(|pvs|, n);
            Balanced(n, pvs)[b] ==
              (if b % step == 0 then Part(pvs, 10 * (b / step), 10 * (b / step) + 10) else [])
              + (if b == n - 1 then pvs[Min(10 * CeilDiv(n, step), |pvs|)..] else [])
  {
    hide Deal, Balanced, Part;
    var perBin := CeilDiv(|pvs|, n);
    BalancedIs(n, pvs, b);
    DealtSkipping(n, 0, perBin, pvs, b);
    RestSkipping(n, 0, perBin, pvs);
  }

  /** The bin that the PV at position `x` of `total` survivors goes to. */
  function BinOf(n: nat, total: nat, x: nat): nat
    requires n > 0
  {
    var perBin := (total + n - 1) / n;
    if perBin >= 10 then x / perBin
    else if x / 10 * (10 - perBin) < n then x / 10 * (10 - perBin)
    else n - 1
  }

  lemma PartHolds<T>(pvs: seq<T>, a: nat, b: nat, x: nat)
    requires a <= x < b && x < |pvs|
    ensures x - a < |Part(pvs, a, b)| && Part(pvs, a, b)[x - a] == pvs[x]
  {
  }

  lemma QuotientBounds(x: nat, d: nat, n: nat)
    requires d > 0 && x < d * n
    ensures x / d < n && x / d * d <= x < (x / d + 1) * d
  {
    if x / d >= n {
      MulMonotone(n, x / d, d);
    }
  }

  lemma {:induction false} RoundOf(q: nat, step: nat)
    requires 1 <= step <= 9
    ensures 0 <= q * step && Round(q * step, step) == Some(q)
    decreases q
  {
    hide Round;
    if q == 0 {
      RoundBack(0, step);
    } else {
      RoundOf(q - 1, step);
      NextShare(q - 1, step);
      RoundBack(q * step, step);
    }
  }

  lemma MultipleOf(q: nat, step: nat)
    requires 1 <= step <= 9
    ensures (q * step) % step == 0 && (q * step) / step == q
  {
    RoundOf(q, step);
  }

  lemma PastTheEnd(q: nat, step: nat, n: nat)
    requires 1 <= step <= 9 && q * step >= n
    ensures CeilDiv(n, step) <= q
  {
    if step == 1 {} else if step == 2 {} else if step == 3 {} else if step == 4 {}
    else if step == 5 {} else if step == 6 {} else if step == 7 {} else if step == 8 {} else {}
  }

  lemma FullBin<T>(n: nat, pvs: seq<T>, x: nat) returns (j: nat)
    requires n > 0 && x < |pvs| && CeilDiv(|pvs|, n) >= 10
    ensures var b := x / CeilDiv(|pvs|, n); b < n && j < |Balanced(n, pvs)[b]| && Balanced(n, pvs)[b][j] == pvs[x]
  {
    hide Balanced, Part, CeilDiv;
    var perBin := CeilDiv(|pvs|, n);
    CeilDivCovers(|pvs|, n);
    var b := x / perBin;
    QuotientBounds(x, perBin, n);
    FullContents(n, pvs, b);
    PartHolds(pvs, b * perBin, (b + 1) * perBin, x);
    j := x - b * perBin;
  }

  lemma SkippingBin<T>(n: nat, pvs: seq<T>, x: nat, b: nat) returns (j: nat)
    requires b < n && x < |pvs| && 0 < CeilDiv(|pvs|, n) < 10 && b == x / 10 * (10 - CeilDiv(|pvs|, n))
    ensures j < |Balanced(n, pvs)[b]| && Balanced(n, pvs)[b][j] == pvs[x]
  {
    hide Balanced, Part, CeilDiv;
    var q, step := x / 10, 10 - CeilDiv(|pvs|, n);
    MultipleOf(q, step);
    SkippingContents(n, pvs, b);
    PartHolds(pvs, 10 * q, 10 * q + 10, x);
    j := x - 10 * q;
  }

  lemma LastBin<T>(n: nat, pvs: seq<T>, x: nat) returns (j: nat)
    requires n > 0 && x < |pvs| && 0 < CeilDiv(|pvs|, n) < 10 && n <= x / 10 * (10 - CeilDiv(|pvs|, n))
    ensures j < |Balanced(n, pvs)[n - 1]| && Balanced(n, pvs)[n - 1][j] == pvs[x]
  {
    hide Balanced, Part, CeilDiv;
    var q, step := x / 10, 10 - CeilDiv(|pvs|, n);
    PastTheEnd(q, step, n);
    SkippingContents(n, pvs, n - 1);
    var last, end := Balanced(n, pvs)[n - 1], 10 * CeilDiv(n, step);
    assert end <= x;
    EndsWith(last, pvs, end);
    j := |last| - (|pvs| - x);
  }

  lemma EndsWith<T>(bin: seq<T>, pvs: seq<T>, end: nat)
    requires end <= |pvs| && exists first :: bin == first + pvs[end..]
    ensures forall x | end <= x < |pvs| :: 0 <= |bin| - (|pvs| - x) && bin[|bin| - (|pvs| - x)] == pvs[x]
  {
    var first :| bin == first + pvs[end..];
  }

  /** Every survivor is in the bin that its position gives. */
  lemma SurvivorBin<T>(n: nat, pvs: seq<T>, x: nat) returns (j: nat)
    requires n > 0 && x < |pvs|
    ensures BinOf(n, |pvs|, x) < n
    ensures j < |Balanced(n, pvs)[BinOf(n, |pvs|, x)]| && Balanced(n, pvs)[BinOf(n, |pvs|, x)][j] == pvs[x]
  {
    hide Balanced;
    CeilDivPositive(|pvs|, n);
    if CeilDiv(|pvs|, n) >= 10 {
      j := FullBin(n, pvs, x);
    } else {
      var b := x / 10 * (10 - CeilDiv(|pvs|, n));
      if b < n {
        j := SkippingBin(n, pvs, x, b);
      } else {
        j := LastBin(n, pvs, x);
      }
    }
  }
}
