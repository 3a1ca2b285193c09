/** Types shared by every component: bytes, machine words, addresses and time. */
module Prelude {
  datatype Option<+T> = None | Some(value: T)

  type Byte = b: int | 0 <= b < 256
  type Bytes = seq<Byte>
  type Word16 = w: int | 0 <= w < 0x1_0000
  type Word32 = w: int | 0 <= w < 0x1_0000_0000
  const POW16: int := 0x1_0000
  const POW32: int := 0x1_0000_0000
  const POW64: int := 0x1_0000_0000_0000_0000

  /** A PV name is the raw byte string a client sent, without its padding. */
  type PvName = Bytes

  /** An IPv4 address in network byte order. */
  type IPv4 = s: Bytes | |s| == 4 witness [0, 0, 0, 0]
  datatype Addr = Addr(ip: IPv4, port: Word16)

  /** Readings of the monotonic clock, in nanoseconds. */
  type Time = int
  const SECOND: int := 1_000_000_000
  const MILLISECOND: int := 1_000_000

  /** `duration_cast`: a difference in whole units, truncated toward zero. */
  function Truncate(d: int, unit: int): int
    requires unit > 0
  {
    if d >= 0 then d / unit else -((-d) / unit)
  }

  /** Positions in a list of `n`, in increasing order: a sublist, each element at most once. */
  predicate Increasing(idx: seq<nat>, n: nat) {
    && (forall i | 0 <= i < |idx| :: idx[i] < n)
    && (forall i, j | 0 <= i < j < |idx| :: idx[i] < idx[j])
  }

  function PlusOne(idx: seq<nat>): (later: seq<nat>)
    ensures |later| == |idx| && forall i | 0 <= i < |idx| :: later[i] == idx[i] + 1
  {
    seq(|idx|, i requires 0 <= i < |idx| => idx[i] + 1)
  }

  lemma PlusOneIncreases(idx: seq<nat>, n: nat)
    requires Increasing(idx, n)
    ensures Increasing(PlusOne(idx), n + 1) && Increasing([0] + PlusOne(idx), n + 1)
  {
  }

  lemma PlusOneMember(idx: seq<nat>, k: nat)
    ensures k in PlusOne(idx) <==> k > 0 && k - 1 in idx
    ensures k in [0] + PlusOne(idx) <==> k == 0 || k - 1 in idx
  {
    if k > 0 && k - 1 in idx {
      var i :| 0 <= i < |idx| && idx[i] == k - 1;
      assert PlusOne(idx)[i] == k;
    }
  }
}
