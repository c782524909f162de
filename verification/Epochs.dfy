/** The epoch schedule: height ranges, checkpoints and epoch ends. */
module Epochs {
  import opened Common
  import opened Network
  import opened NetworkRuns

  /** The height range EpochInfo reports, in Go's wrapping arithmetic. */
  function EpochInfo(st: Store, epoch: uint64): (int64, int64) {
    RangeOf(GetParams(st).epochLength, epoch)
  }

  function RangeOf(length: uint64, epoch: uint64): (int64, int64) {
    var next := Uint64(epoch + 1);
    (ToInt64(Uint64(epoch * length)), ToInt64(Uint64(next * length - 1)))
  }

  /** While the range fits an int64, it holds exactly the heights that CurrentEpoch puts in the epoch. */
  lemma RangeIsEpoch(st: Store, epoch: uint64, height: int64)
    requires GetParams(st).epochLength > 0 && (epoch + 1) * GetParams(st).epochLength <= TWO_63
    ensures var (start, end) := EpochInfo(st, epoch);
            start <= height <= end <==> CurrentEpoch(st, height) == Ok(epoch)
  {
    var length := GetParams(st).epochLength;
    RangeBounds(length, epoch);
    QuotientRange(ToUint64(height), length, epoch);
  }

  lemma RangeBounds(length: uint64, epoch: uint64)
    requires length > 0 && (epoch + 1) * length <= TWO_63
    ensures 0 <= epoch * length < (epoch + 1) * length
    ensures RangeOf(length, epoch) == (epoch * length, (epoch + 1) * length - 1)
  {
    assert (epoch + 1) * length == epoch * length + length;
    assert epoch + 1 <= TWO_63 by { MulMonotone(1, length, epoch + 1); }
    assert Uint64(epoch + 1) == epoch + 1;
  }

  lemma QuotientRange(x: nat, length: nat, q: nat)
    requires length > 0
    ensures x / length == q <==> q * length <= x < (q + 1) * length
  {
    var d := x / length;
    assert x == d * length + x % length;
    assert (q + 1) * length == q * length + length;
    if d < q { MulMonotone(d + 1, q, length); }
    if d > q { MulMonotone(q + 1, d, length); }
  }

  /** The ranges follow each other without gap or overlap, from height 0. */
  lemma RangesPartition(st: Store, epoch: uint64)
    requires GetParams(st).epochLength > 0 && (epoch + 2) * GetParams(st).epochLength <= TWO_63
    ensures EpochInfo(st, 0).0 == 0
    ensures EpochInfo(st, epoch + 1).0 == EpochInfo(st, epoch).1 + 1
  {
    var length := GetParams(st).epochLength;
    assert (epoch + 2) * length == (epoch + 1) * length + length == epoch * length + 2 * length;
    assert epoch + 2 <= TWO_63 by { MulMonotone(1, length, epoch + 2); }
    RangeBounds(length, epoch);
    RangeBounds(length, epoch + 1);
    RangeBounds(length, 0);
  }

  /** The end blocker at this height closes an epoch. */
  predicate ClosesEpoch(st: Store, height: int64) {
    CurrentEpoch(st, height) != CurrentEpoch(st, NextHeight(height))
  }

  /** Checkpoints are exactly the first heights of epochs, epoch ends exactly the last ones. */
  lemma Schedule(st: Store, height: nat)
    requires st.params.Some? && GetParams(st).epochLength > 0 && height + 1 < TWO_63
    ensures var length, epoch := GetParams(st).epochLength, height / GetParams(st).epochLength;
            && CurrentEpoch(st, height) == Ok(epoch)
            && (IsCheckpointHeight(st, height) == Ok(true) <==> height == epoch * length)
            && (ClosesEpoch(st, height) <==> height == (epoch + 1) * length - 1)
            && (ClosesEpoch(st, height) ==> CurrentEpoch(st, height + 1) == Ok(epoch + 1))
  {
    var length, epoch := GetParams(st).epochLength, height / GetParams(st).epochLength;
    QuotientRange(height, length, epoch);
    QuotientRange(height + 1, length, epoch);
    QuotientRange(height + 1, length, epoch + 1);
    assert (epoch + 1) * length == epoch * length + length;
    assert (epoch + 2) * length == (epoch + 1) * length + length;
    assert height == epoch * length + height % length;
  }

  /** The epochs closed by the end blockers at heights from, ..., from + n - 1, in order. */
  function ClosedEpochs(st: Store, from: nat, n: nat): seq<uint64>
    requires GetParams(st).epochLength > 0 && from + n < TWO_63
  {
    if n == 0 then []
    else
      ClosedEpochs(st, from, n - 1) +
      (if ClosesEpoch(st, from + n - 1) then [CurrentEpoch(st, from + n - 1).value] else [])
  }

  /** Over consecutive heights every completed epoch is closed once, in order, and no other. */
  lemma {:induction false} EachEpochClosedOnce(st: Store, from: nat, n: nat)
    requires st.params.Some? && GetParams(st).epochLength > 0 && from + n < TWO_63
    ensures var length := GetParams(st).epochLength;
            && from / length <= (from + n) / length
            && ClosedEpochs(st, from, n) == seq((from + n) / length - from / length,
                                                i requires 0 <= i => from / length + i as nat)
  {
    if n > 0 {
      EachEpochClosedOnce(st, from, n - 1);
      Schedule(st, from + n - 1);
    }
  }

  /** A successful end blocker renumbers the validators exactly when it closes an epoch. */
  lemma RebuildAtEpochEnd(st: Store, ctx: Context)
    requires st.params.Some? && GetParams(st).epochLength > 0 && EndBlockerSpec(st, ctx).1.Ok?
    ensures var st', built := EndBlockerSpec(st, ctx).0, BuildIndex(ctx.staking.all);
            if ClosesEpoch(st, ctx.height)
            then st'.validatorIndex == built.indices && st'.validatorPower == built.powers
            else st'.validatorIndex == st.validatorIndex && st'.validatorPower == st.validatorPower
  {
    CheckpointFrame(st, ctx.height, ctx.staking.totalPower);
  }
}
