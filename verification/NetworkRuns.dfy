/** Whole runs of the network module: messages and end blockers in any order. */
module NetworkRuns {
  import opened Common
  import opened Bits
  import opened Bitmap
  import opened Network
  import opened Quorum
  import Decimal

  datatype Op =
    | Attest(validator: string, height: int64, vote: seq<byte>)
    | Join(validator: string, wellFormed: bool)
    | Leave(validator: string)
    | UpdateParams(authorised: bool, params: Params)
    | EndBlock

  datatype Event = Event(ctx: Context, op: Op)

  function Call(st: Store, e: Event): (Store, Outcome<()>) {
    match e.op
    case Attest(v, h, vote) => AttestSpec(st, e.ctx, v, h, vote)
    case Join(v, wf) => JoinSpec(st, e.ctx, v, wf)
    case Leave(v) => LeaveSpec(st, v)
    case UpdateParams(a, p) => UpdateParamsSpec(st, a, p)
    case EndBlock => EndBlockerSpec(st, e.ctx)
  }

  /** A call that fails leaves no writes behind. */
  function Step(st: Store, e: Event): Store {
    var (st', r) := Call(st, e);
    if r.Ok? then st' else st
  }

  function Run(st: Store, es: seq<Event>): Store {
    if es == [] then st else Step(Run(st, es[..|es| - 1]), es[|es| - 1])
  }

  // ---------------------------------------------------------------- one attestation

  predicate InRange(bitmap: seq<byte>, index: int) {
    0 <= index < |bitmap| * 8
  }

  /** The power counted for a height. */
  function CountedPower(st: Store, ctx: Context, height: int64): nat {
    var bitmap := BitmapFor(st, ctx, height);
    SumBelow(st.validatorPower, Indices(bitmap), |bitmap| * 8)
  }

  /**
   A successful attestation whose index fits the bitmap sets exactly that bit, and adds
   exactly the power filed under it. An index beyond the bitmap changes neither.
   */
  lemma AttestCounts(st: Store, ctx: Context, v: string, h: int64, vote: seq<byte>)
    requires AttestSpec(st, ctx, v, h, vote).1.Ok?
    ensures var st' := AttestSpec(st, ctx, v, h, vote).0;
            var index := st.validatorIndex[v];
            var before, after := BitmapFor(st, ctx, h), BitmapFor(st', ctx, h);
            && |after| == |before| && index !in Indices(before)
            && Indices(after) == Indices(before) + (if InRange(before, index) then {index} else {})
            && CountedPower(st', ctx, h)
                 == CountedPower(st, ctx, h) + (if InRange(before, index) then PowerAt(st.validatorPower, index) else 0)
  {
    var index := st.validatorIndex[v];
    var before := BitmapFor(st, ctx, h);
    WithBitInserts(before, index);
    SumInsert(st.validatorPower, Indices(before), index, |before| * 8);
  }

  /** A second attestation for the same height is turned away exactly when the index fits the bitmap. */
  lemma RepeatRejected(st: Store, ctx: Context, v: string, h: int64, vote: seq<byte>, ctx': Context, vote': seq<byte>)
    requires AttestSpec(st, ctx, v, h, vote).1.Ok?
    ensures var st' := AttestSpec(st, ctx, v, h, vote).0;
            var again := AttestSpec(st', ctx', v, h, vote').1;
            if InRange(BitmapFor(st, ctx, h), st.validatorIndex[v])
            then again == Err(AlreadyAttested)
            else again.Ok?
  {
    var before, index := BitmapFor(st, ctx, h), st.validatorIndex[v];
    WithBitInserts(before, index);
    var st' := AttestSpec(st, ctx, v, h, vote).0;
    assert BitmapFor(st', ctx', h) == WithBit(before, index);
    assert index in Indices(WithBit(before, index)) <==> IsSet(WithBit(before, index), index);
  }

  /**
   One bonded validator, but a genesis that gives "v" index 9: its attestation at height 10 goes
   through, no bit of the one-byte bitmap is set, and it may attest again.
   */
  lemma UncountedAttestation(st: Store, ctx: Context, vote: seq<byte>)
    requires st.params == Some(Params(10, Some(1), Some(1), 1, SIGN_MODE_CHECKPOINT))
    requires st.attesterSet == {"v"} && st.validatorIndex == map["v" := 9] && st.attestationBitmap == map[]
    requires BondedCount(ctx.staking.last) == 1
    ensures var (st', r) := AttestSpec(st, ctx, "v", 10, vote);
            && r.Ok? && Indices(st'.attestationBitmap[10]) == {} && |st'.attestationBitmap[10]| == 1
            && AttestSpec(st', ctx, "v", 10, vote).1.Ok?
  {
    BlankIsEmpty(1);
    WithBitInserts(BlankBitmap(1), 9);
    RepeatRejected(st, ctx, "v", 10, vote, ctx, vote);
  }

  // ---------------------------------------------------------------- soft confirmation is monotone

  /** Same index, powers and params; bitmaps of st only gained indexed validators. */
  predicate Grows(st: Store, st': Store) {
    && st'.validatorIndex == st.validatorIndex
    && st'.validatorPower == st.validatorPower
    && st'.params == st.params
    && forall h :: h in st.attestationBitmap ==> BitmapGrows(st, st', h)
  }

  predicate BitmapGrows(st: Store, st': Store, h: int64)
    requires h in st.attestationBitmap
  {
    && h in st'.attestationBitmap
    && |st'.attestationBitmap[h]| == |st.attestationBitmap[h]|
    && Indices(st.attestationBitmap[h]) <= Indices(st'.attestationBitmap[h])
    && Indices(st'.attestationBitmap[h]) <= Indices(st.attestationBitmap[h]) + st.validatorIndex.Values
  }

  lemma GrowsTrans(a: Store, b: Store, c: Store)
    requires Grows(a, b) && Grows(b, c)
    ensures Grows(a, c)
  {
    forall h | h in a.attestationBitmap ensures BitmapGrows(a, c, h) {
      assert BitmapGrows(a, b, h) && BitmapGrows(b, c, h);
    }
  }

  predicate AttesterOp(op: Op) {
    op.Attest? || op.Join? || op.Leave?
  }

  lemma AttestGrows(st: Store, ctx: Context, v: string, h: int64, vote: seq<byte>)
    requires AttestSpec(st, ctx, v, h, vote).1.Ok?
    ensures Grows(st, AttestSpec(st, ctx, v, h, vote).0)
  {
    AttestCounts(st, ctx, v, h, vote);
    var st' := AttestSpec(st, ctx, v, h, vote).0;
    var index := st.validatorIndex[v];
    assert index in st.validatorIndex.Values;
    assert st'.attestationBitmap == st.attestationBitmap[h := WithBit(BitmapFor(st, ctx, h), index)];
    forall k | k in st.attestationBitmap ensures BitmapGrows(st, st', k) {
      if k == h { assert st'.attestationBitmap[k] == BitmapFor(st', ctx, h); }
    }
  }

  lemma AttesterStepGrows(st: Store, e: Event)
    requires AttesterOp(e.op)
    ensures Grows(st, Step(st, e))
  {
    if e.op.Attest? && Call(st, e).1.Ok? {
      AttestGrows(st, e.ctx, e.op.validator, e.op.height, e.op.vote);
    } else {
      assert Step(st, e).attestationBitmap == st.attestationBitmap;
    }
  }

  lemma {:induction false} AttesterRunGrows(st: Store, es: seq<Event>)
    requires forall i :: 0 <= i < |es| ==> AttesterOp(es[i].op)
    ensures Grows(st, Run(st, es))
  {
    if es != [] {
      var front := es[..|es| - 1];
      AttesterRunGrows(st, front);
      AttesterStepGrows(Run(st, front), es[|es| - 1]);
      GrowsTrans(st, Run(st, front), Run(st, es));
    }
  }

  /** Even if every indexed validator attested, the sum over the bitmap's positions would fit a uint64. */
  predicate NeverWraps(st: Store, bitmap: seq<byte>) {
    SumBelow(st.validatorPower, Indices(bitmap) + st.validatorIndex.Values, |bitmap| * 8) < TWO_64
  }

  /** Bitmaps of at most 8192 bytes over a table that fits a uint64 never wrap. */
  lemma ShortNeverWraps(st: Store, bitmap: seq<byte>)
    requires Short(bitmap) && TotalIndexed(st.validatorPower) < TWO_64
    requires Powered(st) && AllPowered(st.validatorPower, Indices(bitmap))
    ensures NeverWraps(st, bitmap)
  {
    IndexPowered(st);
    WithinTable(st.validatorPower, Indices(bitmap) + st.validatorIndex.Values, |bitmap| * 8);
  }

  lemma IndexPowered(st: Store)
    requires Powered(st)
    ensures AllPowered(st.validatorPower, st.validatorIndex.Values)
  {
    forall i: int | i in st.validatorIndex.Values ensures Uint16(i) in st.validatorPower {
      var v :| v in st.validatorIndex && st.validatorIndex[v] == i;
      Narrow(i);
    }
  }

  lemma VotedPowerGrows(st: Store, st': Store, h: int64)
    requires Powered(st) && Grows(st, st')
    requires h in st.attestationBitmap && NeverWraps(st, st.attestationBitmap[h])
    requires VotedPower(st.validatorPower, st.attestationBitmap[h]).Ok?
    ensures h in st'.attestationBitmap && VotedPower(st'.validatorPower, st'.attestationBitmap[h]).Ok?
    ensures VotedPower(st.validatorPower, st.attestationBitmap[h]).value
         <= VotedPower(st'.validatorPower, st'.attestationBitmap[h]).value
  {
    assert BitmapGrows(st, st', h);
    var powers, b, b' := st.validatorPower, st.attestationBitmap[h], st'.attestationBitmap[h];
    var n := |b| * 8;
    IndexPowered(st);
    assert AllPowered(powers, Indices(b'));
    SumMonotone(powers, Indices(b), Indices(b'), n);
    SumMonotone(powers, Indices(b'), Indices(b) + st.validatorIndex.Values, n);
    Wraps(SumBelow(powers, Indices(b), n));
    Wraps(SumBelow(powers, Indices(b'), n));
  }

  /**
   Between index rebuilds, with fixed params and total power, a confirmed height stays confirmed
   as long as the power of its positions and all indexed validators together fits a uint64.
   */
  lemma SoftConfirmationMonotone(st: Store, es: seq<Event>, height: int64, totalPower: uint64)
    requires forall i :: 0 <= i < |es| ==> AttesterOp(es[i].op)
    requires Powered(st) && (height in st.attestationBitmap ==> NeverWraps(st, st.attestationBitmap[height]))
    requires IsSoftConfirmed(st, height, totalPower) == Ok(true)
    ensures IsSoftConfirmed(Run(st, es), height, totalPower) == Ok(true)
  {
    AttesterRunGrows(st, es);
    VotedPowerGrows(st, Run(st, es), height);
  }

  /** The power the store's quorum asks for at a total, None for a panic or an unreadable fraction. */
  function Required(st: Store, totalPower: uint64): Option<uint64> {
    match GetParams(st).quorumFraction
    case None => None
    case Some(fraction) => Decimal.RequiredPower(totalPower, fraction)
  }

  /**
   One attestation keeps a confirmed height confirmed exactly when the new sum still fits a
   uint64, or what is left of it after wrapping is a quorum by itself.
   */
  lemma AttestKeepsConfirmed(st: Store, ctx: Context, v: string, h: int64, vote: seq<byte>, totalPower: uint64)
    requires Powered(st) && AttestSpec(st, ctx, v, h, vote).1.Ok? && CountedPower(st, ctx, h) < TWO_64
    requires IsSoftConfirmed(st, h, totalPower) == Ok(true)
    ensures var st' := AttestSpec(st, ctx, v, h, vote).0;
            var sum := CountedPower(st', ctx, h);
            && Required(st, totalPower).Some?
            && (IsSoftConfirmed(st', h, totalPower) == Ok(true) <==>
                  sum < TWO_64 || sum - TWO_64 >= Required(st, totalPower).value)
  {
    var st' := AttestSpec(st, ctx, v, h, vote).0;
    var before, after := CountedPower(st, ctx, h), CountedPower(st', ctx, h);
    AttestCounts(st, ctx, v, h, vote);
    AttestGrows(st, ctx, v, h, vote);
    assert BitmapGrows(st, st', h);
    IndexPowered(st);
    assert AllPowered(st'.validatorPower, Indices(st'.attestationBitmap[h]));
    Wraps(before);
    Wraps(after);
  }

  const THIRD: uint64 := 6_148_914_691_236_517_205

  /** What the store of the example below holds for height 10: three positions on one key. */
  const TRIPLE_BITMAP: seq<byte> := WithBit(WithBit(WithBit(BlankBitmap(131080), 0), 65536), 131072)

  lemma TripleIndices()
    ensures |TRIPLE_BITMAP| == 16385 && Indices(TRIPLE_BITMAP) == {0, 65536, 131072}
  {
    var blank := BlankBitmap(131080);
    var one := WithBit(blank, 0);
    BlankIsEmpty(131080);
    WithBitInserts(blank, 0);
    WithBitInserts(one, 65536);
    WithBitInserts(WithBit(one, 65536), 131072);
    assert {} + {0} + {65536} + {131072} == {0, 65536, 131072};
  }

  lemma TriplePower(powers: map<uint16, uint64>, p: uint64)
    requires 0 in powers && powers[0] == p
    ensures SumBelow(powers, {0, 65536, 131072}, 131080) == 3 * p
  {
    SumOfNone(powers, 131080);
    SumInsert(powers, {}, 0, 131080);
    SumInsert(powers, {0}, 65536, 131080);
    SumInsert(powers, {0, 65536}, 131072, 131080);
    assert {} + {0} == {0} && {0} + {65536} == {0, 65536} && {0, 65536} + {131072} == {0, 65536, 131072};
    assert Uint16(0) == 0 && Uint16(65536) == 0 && Uint16(131072) == 0;
  }

  /** Three positions on one key sum up to 2^64 - 1: one more attestation wraps the sum and unconfirms the height. */
  lemma OverlongUnconfirmed(st: Store, ctx: Context, vote: seq<byte>)
    requires st.params == Some(Params(10, Some(Decimal.SCALE), Some(Decimal.SCALE), 1, SIGN_MODE_CHECKPOINT))
    requires st.validatorIndex == map["u" := 0, "v" := 1] && st.validatorPower == map[0 := THIRD, 1 := 1]
    requires st.attesterSet == {"v"} && st.attestationBitmap == map[10 := TRIPLE_BITMAP]
    ensures IsSoftConfirmed(st, 10, THIRD + 1) == Ok(true)
    ensures var (st', r) := AttestSpec(st, ctx, "v", 10, vote);
            r.Ok? && IsSoftConfirmed(st', 10, THIRD + 1) == Ok(false)
  {
    TripleIndices();
    TriplePower(st.validatorPower, THIRD);
    Decimal.RequiredPowerIsFloor(THIRD + 1, Decimal.SCALE);
    TriplePowered(st);
    assert 1 in Indices(TRIPLE_BITMAP) <==> IsSet(TRIPLE_BITMAP, 1);
    AttestCounts(st, ctx, "v", 10, vote);
    AttestKeepsConfirmed(st, ctx, "v", 10, vote, THIRD + 1);
  }

  lemma TriplePowered(st: Store)
    requires st.validatorPower.Keys == {0, 1}
    ensures AllPowered(st.validatorPower, {0, 65536, 131072})
  {
    assert Uint16(0) == 0 && Uint16(65536) == 0 && Uint16(131072) == 0;
  }

  /**
   What a checkpoint files for a height is what a query at that moment answers, and no other
   height is touched. Without shared keys and with the indexed powers within the total, the
   filed power is the plain sum, and within the total too.
   */
  lemma CheckpointAgrees(st: Store, height: int64, totalPower: uint64)
    requires height in st.attestationBitmap && CheckpointSpec(st, height, totalPower).1.Ok?
    ensures var st' := CheckpointSpec(st, height, totalPower).0;
            && height in st'.attestationInfo
            && var info := st'.attestationInfo[height];
            && info.height == height && info.bitmap == st.attestationBitmap[height] && info.totalPower == totalPower
            && VotedPower(st.validatorPower, info.bitmap) == Ok(info.votedPower)
            && IsSoftConfirmed(st', height, totalPower) == Ok(info.softConfirmed)
            && (Unaliased(info.bitmap) && TotalIndexed(st.validatorPower) <= totalPower ==>
                  info.votedPower == SumBelow(st.validatorPower, Slots(info.bitmap), TWO_16) <= totalPower)
            && st'.attestationInfo == st.attestationInfo[height := info]
  {
    if Unaliased(st.attestationBitmap[height]) && TotalIndexed(st.validatorPower) <= totalPower {
      VotedPowerIsSum(st.validatorPower, st.attestationBitmap[height]);
    }
  }

  // ---------------------------------------------------------------- every counted bit has a stored vote

  predicate BackedAt(st: Store, h: int64, i: int) {
    exists v :: v in st.validatorIndex && st.validatorIndex[v] == i && (h, v) in st.signatures
  }

  predicate Backed(st: Store) {
    forall h, i :: h in st.attestationBitmap && i in Indices(st.attestationBitmap[h]) ==> BackedAt(st, h, i)
  }

  lemma StillBacked(st: Store, st': Store, h: int64, i: int)
    requires st'.validatorIndex == st.validatorIndex && st.signatures.Keys <= st'.signatures.Keys
    requires BackedAt(st, h, i)
    ensures BackedAt(st', h, i)
  {
    var v :| v in st.validatorIndex && st.validatorIndex[v] == i && (h, v) in st.signatures;
    assert (h, v) in st'.signatures;
  }

  lemma AttestBacked(st: Store, ctx: Context, v: string, h: int64, vote: seq<byte>)
    requires Backed(st) && AttestSpec(st, ctx, v, h, vote).1.Ok?
    ensures Backed(AttestSpec(st, ctx, v, h, vote).0)
  {
    var st' := AttestSpec(st, ctx, v, h, vote).0;
    AttestCounts(st, ctx, v, h, vote);
    BlankIsEmpty(BondedCount(ctx.staking.last));
    assert st'.attestationBitmap == st.attestationBitmap[h := BitmapFor(st', ctx, h)];
    assert (h, v) in st'.signatures;
    forall k, i | k in st'.attestationBitmap && i in Indices(st'.attestationBitmap[k]) ensures BackedAt(st', k, i) {
      if k == h && i == st.validatorIndex[v] {
        assert v in st'.validatorIndex;
      } else {
        StillBacked(st, st', k, i);
      }
    }
  }

  /** Whatever is attested between rebuilds, every counted bit belongs to a validator whose vote is stored. */
  lemma {:induction false} RunBacked(st: Store, es: seq<Event>)
    requires Backed(st) && forall i :: 0 <= i < |es| ==> AttesterOp(es[i].op)
    ensures Backed(Run(st, es))
  {
    if es != [] {
      var front, e := es[..|es| - 1], es[|es| - 1];
      RunBacked(st, front);
      var mid := Run(st, front);
      if e.op.Attest? && Call(mid, e).1.Ok? {
        AttestBacked(mid, e.ctx, e.op.validator, e.op.height, e.op.vote);
      } else {
        var st' := Step(mid, e);
        forall k, i | k in st'.attestationBitmap && i in Indices(st'.attestationBitmap[k]) ensures BackedAt(st', k, i) {
          StillBacked(mid, st', k, i);
        }
      }
    }
  }

  // ---------------------------------------------------------------- renumbering reinterprets bitmaps

  /** Every validator of the old index keeps its position. */
  predicate KeepsPositions(before: map<string, uint16>, after: map<string, uint16>) {
    forall v :: v in before ==> v in after && after[v] == before[v]
  }

  lemma RebuildBacked(st: Store, after: map<string, uint16>)
    requires Backed(st) && KeepsPositions(st.validatorIndex, after)
    ensures Backed(st.(validatorIndex := after))
  {
    var st' := st.(validatorIndex := after);
    forall h, i | h in st'.attestationBitmap && i in Indices(st'.attestationBitmap[h]) ensures BackedAt(st', h, i) {
      assert BackedAt(st, h, i);
      var v :| v in st.validatorIndex && st.validatorIndex[v] == i && (h, v) in st.signatures;
      assert v in st'.validatorIndex && st'.validatorIndex[v] == i;
    }
  }

  /** One vote of v, at the position the index gives it. */
  function OneVote(index: map<string, uint16>, v: string): Store
    requires v in index
  {
    EMPTY_STORE.(validatorIndex := index, signatures := map[(10, v) := []],
                 attestationBitmap := map[10 := WithBit(BlankBitmap(TWO_16), index[v])])
  }

  lemma OneVoteBacked(index: map<string, uint16>, v: string)
    requires v in index
    ensures Indices(OneVote(index, v).attestationBitmap[10]) == {index[v]} && Backed(OneVote(index, v))
  {
    var st := OneVote(index, v);
    BlankIsEmpty(TWO_16);
    WithBitInserts(BlankBitmap(TWO_16), index[v]);
    assert Indices(st.attestationBitmap[10]) == {index[v]};
    assert (10, v) in st.signatures && BackedAt(st, 10, index[v]);
  }

  lemma OneVoteLost(before: map<string, uint16>, after: map<string, uint16>, v: string)
    requires v in before && !(v in after && after[v] == before[v])
    ensures !Backed(OneVote(before, v).(validatorIndex := after))
  {
    var st' := OneVote(before, v).(validatorIndex := after);
    OneVoteBacked(before, v);
    assert before[v] in Indices(st'.attestationBitmap[10]);
    assert !BackedAt(st', 10, before[v]);
  }

  /** An index rebuild leaves every counted bit backed, whatever was attested, exactly when nobody indexed moves. */
  lemma RebuildKeepsBacked(before: map<string, uint16>, after: map<string, uint16>)
    ensures KeepsPositions(before, after) <==>
              forall st: Store :: st.validatorIndex == before && Backed(st) ==> Backed(st.(validatorIndex := after))
  {
    if KeepsPositions(before, after) {
      forall st: Store | st.validatorIndex == before && Backed(st) ensures Backed(st.(validatorIndex := after)) {
        RebuildBacked(st, after);
      }
    } else {
      var v :| v in before && !(v in after && after[v] == before[v]);
      OneVoteBacked(before, v);
      OneVoteLost(before, after, v);
    }
  }

  /** The largest power a quorum can ask for: totals from 2^63 on are read as negative. */
  const MAX_REQUIRED: nat := TWO_63 - 1

  /** No key loses power, as far as a quorum could tell. */
  predicate KeepsPowers(before: map<uint16, uint64>, after: map<uint16, uint64>) {
    forall k :: k in before ==> k in after && after[k] >= Min(before[k], MAX_REQUIRED)
  }

  /** Every sum that was a quorum is one over the new table: it is no smaller, or at least the largest quorum. */
  lemma {:induction false} SumOverTables(before: map<uint16, uint64>, after: map<uint16, uint64>,
                                         members: set<int>, n: nat)
    requires KeepsPowers(before, after)
    ensures SumBelow(after, members, n) >= Min(SumBelow(before, members, n), MAX_REQUIRED)
  {
    if n > 0 { SumOverTables(before, after, members, n - 1); }
  }

  /** The store confirms height h by a bitmap without shared keys, under valid params. */
  predicate Confirmed(st: Store, before: map<uint16, uint64>, h: int64, totalPower: uint64) {
    && st.validatorPower == before && st.params.Some? && st.params.value.Valid()
    && (h in st.attestationBitmap ==> Unaliased(st.attestationBitmap[h]))
    && IsSoftConfirmed(st, h, totalPower) == Ok(true)
  }

  lemma RequiredWithin(st: Store, totalPower: uint64)
    requires st.params.Some? && st.params.value.Valid()
    ensures Required(st, totalPower).Some? ==> Required(st, totalPower).value <= MAX_REQUIRED
  {
    var fraction := st.params.value.quorumFraction.value;
    Decimal.RequiredPowerIsFloor(totalPower, fraction);
    Decimal.ScaledBound(totalPower, fraction);
  }

  lemma StaysConfirmed(st: Store, before: map<uint16, uint64>, after: map<uint16, uint64>, h: int64, totalPower: uint64)
    requires KeepsPowers(before, after) && Confirmed(st, before, h, totalPower)
    requires TotalIndexed(before) < TWO_64 && TotalIndexed(after) < TWO_64
    ensures IsSoftConfirmed(st.(validatorPower := after), h, totalPower) == Ok(true)
  {
    var bitmap := st.attestationBitmap[h];
    VotedPowerIsSum(before, bitmap);
    VotedPowerIsSum(after, bitmap);
    SumOverTables(before, after, Indices(bitmap), |bitmap| * 8);
    RequiredWithin(st, totalPower);
  }

  /** One vote at position k, under a quorum of the whole. */
  function LoneStore(powers: map<uint16, uint64>, k: uint16): Store {
    EMPTY_STORE.(validatorPower := powers, attestationBitmap := map[10 := WithBit(BlankBitmap(TWO_16), k)],
                 params := Some(Params(10, Some(Decimal.SCALE), Some(1), 1, SIGN_MODE_CHECKPOINT)))
  }

  lemma LonePower(powers: map<uint16, uint64>, k: uint16)
    ensures var bitmap := WithBit(BlankBitmap(TWO_16), k);
            && Unaliased(bitmap) && Indices(bitmap) == {k as int}
            && VotedPower(powers, bitmap) == if k in powers then Ok(powers[k]) else Err(MissingPower)
  {
    var bitmap := WithBit(BlankBitmap(TWO_16), k);
    BlankIsEmpty(TWO_16);
    WithBitInserts(BlankBitmap(TWO_16), k);
    SumOfNone(powers, TWO_16);
    SumInsert(powers, {}, k, TWO_16);
    assert {} + {k as int} == {k as int};
    Narrow(k);
    if k in powers { Wraps(powers[k]); }
  }

  lemma LoneConfirmed(powers: map<uint16, uint64>, k: uint16, totalPower: uint64)
    requires totalPower <= MAX_REQUIRED
    ensures IsSoftConfirmed(LoneStore(powers, k), 10, totalPower) == Ok(true)
            <==> k in powers && powers[k] >= totalPower
  {
    LonePower(powers, k);
    Decimal.RequiredPowerIsFloor(totalPower, Decimal.SCALE);
    Decimal.RoundExact(totalPower);
  }

  /**
   A rebuild leaves every confirmed height confirmed, whatever was attested, exactly when no key
   loses power, as far as a quorum could tell.
   */
  lemma RebuildKeepsConfirmed(before: map<uint16, uint64>, after: map<uint16, uint64>)
    requires TotalIndexed(before) < TWO_64 && TotalIndexed(after) < TWO_64
    ensures KeepsPowers(before, after) <==>
              forall st: Store, h: int64, totalPower: uint64 :: Confirmed(st, before, h, totalPower) ==>
                IsSoftConfirmed(st.(validatorPower := after), h, totalPower) == Ok(true)
  {
    if KeepsPowers(before, after) {
      forall st: Store, h: int64, totalPower: uint64 | Confirmed(st, before, h, totalPower)
        ensures IsSoftConfirmed(st.(validatorPower := after), h, totalPower) == Ok(true)
      {
        StaysConfirmed(st, before, after, h, totalPower);
      }
    } else {
      var k :| k in before && !(k in after && after[k] >= Min(before[k], MAX_REQUIRED));
      var totalPower := Min(before[k], MAX_REQUIRED);
      var st := LoneStore(before, k);
      LonePower(before, k);
      LoneConfirmed(before, k, totalPower);
      LoneConfirmed(after, k, totalPower);
      assert st.(validatorPower := after) == LoneStore(after, k);
      assert Confirmed(st, before, 10, totalPower);
    }
  }

  const FLIPPING := Store(map["b" := 0], map[0 := 5], map[10 := WithBit(BlankBitmap(1), 0)], map[], {"b"},
                          map[(10, "b") := []], map[],
                          Some(Params(10, Some(600_000_000_000_000_000), Some(1), 1, SIGN_MODE_CHECKPOINT)))

  /**
   A validator bonded in front of the only voter takes over its position at the epoch end: the
   height is unconfirmed again, and its bit belongs to somebody who never voted.
   */
  lemma RebuildFlips(staking: Staking)
    requires staking.all == [Validator("a", true, 1), Validator("b", true, 5)]
    ensures IsSoftConfirmed(FLIPPING, 10, 6) == Ok(true) && Backed(FLIPPING)
    ensures var (st', r) := EpochEndSpec(FLIPPING, 1, staking);
            r.Ok? && IsSoftConfirmed(st', 10, 6) == Ok(false) && !Backed(st')
  {
    var all := staking.all;
    assert all[..1] == [all[0]] && all[..1][..0] == [];
    assert BuildIndex(all[..1]) == IndexMaps(map["a" := 0], map[0 := 1], 1);
    var st' := EpochEndSpec(FLIPPING, 1, staking).0;
    assert st'.validatorIndex == map["a" := 0, "b" := 1] && st'.validatorPower == map[0 := 1, 1 := 5];
    BlankIsEmpty(1);
    WithBitInserts(BlankBitmap(1), 0);
    FirstPower(FLIPPING, 5);
    FirstPower(st', 1);
    assert (10, "b") in FLIPPING.signatures && BackedAt(FLIPPING, 10, 0);
    assert 0 in Indices(st'.attestationBitmap[10]) && !BackedAt(st', 10, 0);
  }

  lemma FirstPower(st: Store, power: uint64)
    requires st.params == FLIPPING.params && 10 in st.attestationBitmap
    requires var b := st.attestationBitmap[10]; |b| == 1 && Indices(b) == {0}
    requires 0 in st.validatorPower && st.validatorPower[0] == power
    ensures IsSoftConfirmed(st, 10, 6) == Ok(power >= 3)
  {
    SumOfNone(st.validatorPower, 8);
    SumInsert(st.validatorPower, {}, 0, 8);
    assert {} + {0} == {0};
    Decimal.RequiredPowerIsFloor(6, 600_000_000_000_000_000);
  }

  // ---------------------------------------------------------------- epoch participation

  /** Inside epoch e: attestations and attester-set changes, and end blockers before its last height. */
  predicate InsideEpoch(st: Store, e: Event, epoch: uint64, bonded: nat) {
    && e.ctx.height >= 0
    && CurrentEpoch(st, e.ctx.height) == Ok(epoch)
    && BondedCount(e.ctx.staking.last) == bonded
    && (AttesterOp(e.op) || (e.op.EndBlock? && CurrentEpoch(st, NextHeight(e.ctx.height)) == Ok(epoch)))
  }

  /** The validators whose Attest went through. */
  function Attested(st: Store, es: seq<Event>): set<string> {
    if es == [] then {}
    else
      var front, e := es[..|es| - 1], es[|es| - 1];
      Attested(st, front) +
      (if e.op.Attest? && Call(Run(st, front), e).1.Ok? then {e.op.validator} else {})
  }

  /** Epoch positions of validators, as far as they fit a bitmap of `bytes` bytes. */
  function Positions(index: map<string, uint16>, vs: set<string>, bytes: nat): set<int> {
    set v | v in vs && v in index && index[v] < bytes * 8 :: index[v]
  }

  /** A checkpoint only files attestation info, and only at its height. */
  lemma CheckpointFrame(st: Store, height: int64, totalPower: uint64)
    ensures var st' := CheckpointSpec(st, height, totalPower).0;
            st' == st.(attestationInfo := st'.attestationInfo)
  {
  }

  /** An end blocker that stays in its epoch leaves the index alone. */
  lemma EndBlockerInside(st: Store, ctx: Context, epoch: uint64)
    requires CurrentEpoch(st, ctx.height) == CurrentEpoch(st, NextHeight(ctx.height)) == Ok(epoch)
    ensures var st' := EndBlockerSpec(st, ctx).0;
            st' == st.(attestationInfo := st'.attestationInfo)
  {
    CheckpointFrame(st, ctx.height, ctx.staking.totalPower);
  }

  lemma AttestInside(st: Store, ctx: Context, v: string, h: int64, vote: seq<byte>, epoch: uint64)
    requires CurrentEpoch(st, ctx.height) == Ok(epoch)
    ensures var (st', r) := AttestSpec(st, ctx, v, h, vote);
            r.Ok? ==>
              && v in st.validatorIndex
              && var voted := WithBit(EpochBitmapFor(st, ctx, epoch), st.validatorIndex[v]);
              st' == st.(attestationBitmap := st'.attestationBitmap, signatures := st'.signatures,
                         epochBitmap := st.epochBitmap[epoch := voted])
  {
  }

  lemma MessageInside(st: Store, e: Event, epoch: uint64)
    requires AttesterOp(e.op) && CurrentEpoch(st, e.ctx.height) == Ok(epoch)
    ensures Step(st, e).validatorIndex == st.validatorIndex && Step(st, e).params == st.params
    ensures Step(st, e).epochBitmap == if e.op.Attest? && Call(st, e).1.Ok?
                                       then st.epochBitmap[epoch := WithBit(EpochBitmapFor(st, e.ctx, epoch),
                                                                            st.validatorIndex[e.op.validator])]
                                       else st.epochBitmap
  {
    if e.op.Attest? {
      AttestInside(st, e.ctx, e.op.validator, e.op.height, e.op.vote, epoch);
    }
  }

  lemma InsideEpochStep(st: Store, e: Event, epoch: uint64, bonded: nat)
    requires InsideEpoch(st, e, epoch, bonded)
    ensures var st' := Step(st, e);
            && st'.validatorIndex == st.validatorIndex && st'.params == st.params
            && st'.epochBitmap == if e.op.Attest? && Call(st, e).1.Ok?
                                  then st.epochBitmap[epoch := WithBit(EpochBitmapFor(st, e.ctx, epoch),
                                                                       st.validatorIndex[e.op.validator])]
                                  else st.epochBitmap
  {
    if e.op.EndBlock? {
      EndBlockerInside(st, e.ctx, epoch);
    } else {
      MessageInside(st, e, epoch);
    }
  }

  /** From st to now, the epoch's bitmap was filled with the positions of exactly these validators. */
  ghost predicate Participated(st: Store, now: Store, voted: set<string>, epoch: uint64, bytes: nat) {
    && now.validatorIndex == st.validatorIndex && now.params == st.params
    && voted <= st.validatorIndex.Keys
    && (epoch in now.epochBitmap <==> voted != {})
    && (epoch in now.epochBitmap ==>
          && |now.epochBitmap[epoch]| == bytes
          && Indices(now.epochBitmap[epoch]) == Positions(st.validatorIndex, voted, bytes))
  }

  lemma ParticipationStep(st: Store, mid: Store, voted: set<string>, e: Event, epoch: uint64, bonded: nat)
    requires Participated(st, mid, voted, epoch, (bonded + 7) / 8) && InsideEpoch(mid, e, epoch, bonded)
    ensures var voted' := voted + (if e.op.Attest? && Call(mid, e).1.Ok? then {e.op.validator} else {});
            Participated(st, Step(mid, e), voted', epoch, (bonded + 7) / 8)
  {
    InsideEpochStep(mid, e, epoch, bonded);
    if e.op.Attest? && Call(mid, e).1.Ok? {
      BlankIsEmpty(bonded);
      WithBitInserts(EpochBitmapFor(mid, e.ctx, epoch), st.validatorIndex[e.op.validator]);
      PositionsGrow(st.validatorIndex, voted, e.op.validator, (bonded + 7) / 8);
    }
  }

  lemma InsideNow(st: Store, now: Store, e: Event, epoch: uint64, bonded: nat)
    requires InsideEpoch(st, e, epoch, bonded) && now.params == st.params
    ensures InsideEpoch(now, e, epoch, bonded)
  {
  }

  /**
   Whatever the order of messages within an epoch, its bitmap holds exactly the positions of
   the validators whose attestation went through, and the index map does not move.
   */
  lemma {:induction false} EpochParticipation(st: Store, es: seq<Event>, epoch: uint64, bonded: nat)
    requires epoch !in st.epochBitmap
    requires forall i :: 0 <= i < |es| ==> InsideEpoch(st, es[i], epoch, bonded)
    ensures Participated(st, Run(st, es), Attested(st, es), epoch, (bonded + 7) / 8)
  {
    if es != [] {
      var front, e := es[..|es| - 1], es[|es| - 1];
      assert forall i :: 0 <= i < |front| ==> front[i] == es[i];
      EpochParticipation(st, front, epoch, bonded);
      InsideNow(st, Run(st, front), e, epoch, bonded);
      ParticipationStep(st, Run(st, front), Attested(st, front), e, epoch, bonded);
    }
  }

  lemma PositionsGrow(index: map<string, uint16>, vs: set<string>, v: string, bytes: nat)
    requires v in index
    ensures Positions(index, vs + {v}, bytes)
         == Positions(index, vs, bytes) + (if index[v] < bytes * 8 then {index[v]} else {})
  {
  }

  predicate Injective(index: map<string, uint16>) {
    forall v, w :: v in index && w in index && v != w ==> index[v] != index[w]
  }

  /** There are at most as many positions as validators, and as many exactly when they all fit. */
  lemma {:induction false} PositionsCount(index: map<string, uint16>, vs: set<string>, bytes: nat)
    requires Injective(index) && vs <= index.Keys
    ensures |Positions(index, vs, bytes)| <= |vs|
    ensures |Positions(index, vs, bytes)| == |vs| <==> forall v :: v in vs ==> index[v] < bytes * 8
    decreases |vs|
  {
    if vs == {} {
      assert Positions(index, vs, bytes) == {};
    } else {
      var v :| v in vs;
      PositionsCount(index, vs - {v}, bytes);
      PositionsGrow(index, vs - {v}, v, bytes);
      assert vs - {v} + {v} == vs;
    }
  }

  /** The population count of the epoch bitmap is the number of distinct attesters exactly when their indices fit it. */
  lemma ParticipationCount(st: Store, es: seq<Event>, epoch: uint64, bonded: nat)
    requires epoch !in st.epochBitmap && Injective(st.validatorIndex)
    requires forall i :: 0 <= i < |es| ==> InsideEpoch(st, es[i], epoch, bonded)
    requires Attested(st, es) != {}
    ensures var st', voted := Run(st, es), Attested(st, es);
            && voted <= st.validatorIndex.Keys && epoch in st'.epochBitmap
            && (|Indices(st'.epochBitmap[epoch])| == |voted| <==>
                  forall v :: v in voted ==> st.validatorIndex[v] < (bonded + 7) / 8 * 8)
  {
    EpochParticipation(st, es, epoch, bonded);
    PositionsCount(st.validatorIndex, Attested(st, es), (bonded + 7) / 8);
  }
}
