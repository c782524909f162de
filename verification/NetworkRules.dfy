/** Who may do what in the network module, and what each accepted call leaves behind. */
module NetworkRules {
  import opened Common
  import opened Bits
  import opened Bitmap
  import opened Network
  import opened Quorum
  import opened NetworkRuns
  import Decimal

  // ---------------------------------------------------------------- params and counts

  /** The bounds of params, in numbers: fractions are scaled by 10^18. */
  lemma ParamsBounds(p: Params)
    ensures p.Valid() <==>
              && p.epochLength >= 1 && p.pruneAfter >= 1 && p.signMode == 1
              && p.quorumFraction.Some? && 1 <= p.quorumFraction.value <= 1_000_000_000_000_000_000
              && p.minParticipation.Some? && 1 <= p.minParticipation.value <= 1_000_000_000_000_000_000
  {
  }

  predicate ValidParams(st: Store) {
    st.params.Some? && st.params.value.Valid()
  }

  function BondedAt(vals: seq<Validator>): set<nat> {
    set i: nat | i < |vals| && vals[i].bonded
  }

  lemma {:induction false} BondedCounts(vals: seq<Validator>)
    ensures BondedCount(vals) == |BondedAt(vals)|
  {
    if vals != [] {
      var n := |vals| - 1;
      BondedCounts(vals[..n]);
      assert BondedAt(vals) == BondedAt(vals[..n]) + (if vals[n].bonded then {n} else {});
    }
  }

  // ---------------------------------------------------------------- attesting

  /** The bitmap an attestation starts from: the stored one, or an empty one with a bit for each bonded validator. */
  lemma StartingBitmaps(st: Store, ctx: Context, h: int64, epoch: uint64)
    ensures h in st.attestationBitmap ==> BitmapFor(st, ctx, h) == st.attestationBitmap[h]
    ensures epoch in st.epochBitmap ==> EpochBitmapFor(st, ctx, epoch) == st.epochBitmap[epoch]
    ensures var bytes := (|BondedAt(ctx.staking.last)| + 7) / 8;
            && (h !in st.attestationBitmap ==>
                  |BitmapFor(st, ctx, h)| == bytes && Indices(BitmapFor(st, ctx, h)) == {})
            && (epoch !in st.epochBitmap ==>
                  |EpochBitmapFor(st, ctx, epoch)| == bytes && Indices(EpochBitmapFor(st, ctx, epoch)) == {})
  {
    BondedCounts(ctx.staking.last);
    BlankIsEmpty(BondedCount(ctx.staking.last));
  }

  /** Under valid params exactly the attesters with an index attest, at checkpoints, once per counted position. */
  lemma AttestExactly(st: Store, ctx: Context, v: string, h: int64, vote: seq<byte>)
    requires ValidParams(st)
    ensures AttestSpec(st, ctx, v, h, vote).1.Ok? <==>
              && ToUint64(h) % st.params.value.epochLength == 0
              && v in st.attesterSet && v in st.validatorIndex
              && st.validatorIndex[v] !in Indices(BitmapFor(st, ctx, h))
  {
    if v in st.validatorIndex {
      var i, b := st.validatorIndex[v], BitmapFor(st, ctx, h);
      assert i in Indices(b) <==> IsSet(b, i);
    }
  }

  /** Under any params: other sign modes than the checkpoint one take attestations for every height. */
  lemma AttestUnderAnyParams(st: Store, ctx: Context, v: string, h: int64, vote: seq<byte>)
    ensures AttestSpec(st, ctx, v, h, vote).1.Ok? <==>
              && (GetParams(st).signMode == 1 ==> IsCheckpointHeight(st, h) == Ok(true))
              && GetParams(st).epochLength > 0
              && v in st.attesterSet && v in st.validatorIndex
              && st.validatorIndex[v] !in Indices(BitmapFor(st, ctx, h))
  {
    if v in st.validatorIndex {
      var i, b := st.validatorIndex[v], BitmapFor(st, ctx, h);
      assert i in Indices(b) <==> IsSet(b, i);
    }
  }

  /** A rejected attestation writes nothing, and its error names what is wrong. */
  lemma AttestRejections(st: Store, ctx: Context, v: string, h: int64, vote: seq<byte>)
    requires ValidParams(st) && AttestSpec(st, ctx, v, h, vote).1.Err?
    ensures var (st', r) := AttestSpec(st, ctx, v, h, vote);
            && st' == st
            && (r == Err(NotCheckpoint) <==> ToUint64(h) % st.params.value.epochLength != 0)
            && (r == Err(NotAttester) ==> v !in st.attesterSet)
            && (r == Err(NoIndex) ==> v !in st.validatorIndex)
            && (r == Err(AlreadyAttested) ==> v in st.validatorIndex
                                              && st.validatorIndex[v] in Indices(BitmapFor(st, ctx, h)))
            && r.error in {NotCheckpoint, NotAttester, NoIndex, AlreadyAttested}
  {
    if v in st.validatorIndex {
      var i, b := st.validatorIndex[v], BitmapFor(st, ctx, h);
      assert i in Indices(b) <==> IsSet(b, i);
    }
  }

  /** b is a with one more position, where it fits. */
  predicate Gained(a: seq<byte>, b: seq<byte>, i: int) {
    |b| == |a| && Indices(b) == Indices(a) + (if 0 <= i < |a| * 8 then {i} else {})
  }

  /** An accepted attestation writes the vote, a bit for its height and one for the current epoch, and nothing else. */
  lemma AttestEffect(st: Store, ctx: Context, v: string, h: int64, vote: seq<byte>)
    requires ValidParams(st) && AttestSpec(st, ctx, v, h, vote).1.Ok?
    ensures var st' := AttestSpec(st, ctx, v, h, vote).0;
            var epoch := ToUint64(ctx.height) / st.params.value.epochLength;
            && h in st'.attestationBitmap && epoch in st'.epochBitmap
            && Gained(BitmapFor(st, ctx, h), st'.attestationBitmap[h], st.validatorIndex[v])
            && Gained(EpochBitmapFor(st, ctx, epoch), st'.epochBitmap[epoch], st.validatorIndex[v])
            && st' == st.(attestationBitmap := st.attestationBitmap[h := st'.attestationBitmap[h]],
                          epochBitmap := st.epochBitmap[epoch := st'.epochBitmap[epoch]],
                          signatures := st.signatures[(h, v) := vote])
  {
    var epoch := ToUint64(ctx.height) / st.params.value.epochLength;
    WithBitInserts(BitmapFor(st, ctx, h), st.validatorIndex[v]);
    WithBitInserts(EpochBitmapFor(st, ctx, epoch), st.validatorIndex[v]);
  }

  // ---------------------------------------------------------------- joining and leaving

  /** The first validator with this operator is bonded. */
  predicate BondedOperator(vals: seq<Validator>, operator: string) {
    exists i :: 0 <= i < |vals| && vals[i].operator == operator && vals[i].bonded
                && forall j :: 0 <= j < i ==> vals[j].operator != operator
  }

  lemma {:induction false} FoundFirst(vals: seq<Validator>, operator: string)
    ensures FindValidator(vals, operator).None? <==> forall i :: 0 <= i < |vals| ==> vals[i].operator != operator
    ensures FindValidator(vals, operator).Some? ==>
              exists i :: 0 <= i < |vals| && vals[i].operator == operator
                          && vals[i] == FindValidator(vals, operator).value
                          && forall j :: 0 <= j < i ==> vals[j].operator != operator
  {
    if vals != [] && vals[0].operator != operator {
      FoundFirst(vals[1..], operator);
      if FindValidator(vals, operator).Some? {
        var i :| 0 <= i < |vals[1..]| && vals[1..][i].operator == operator
                 && vals[1..][i] == FindValidator(vals[1..], operator).value
                 && forall j :: 0 <= j < i ==> vals[1..][j].operator != operator;
        assert vals[i + 1] == vals[1..][i];
        forall j | 0 <= j < i + 1 ensures vals[j].operator != operator {
          if j > 0 { assert vals[j] == vals[1..][j - 1]; }
        }
      } else {
        forall i | 0 <= i < |vals| ensures vals[i].operator != operator {
          if i > 0 { assert vals[i] == vals[1..][i - 1]; }
        }
      }
    }
  }

  lemma BondedFound(vals: seq<Validator>, operator: string)
    ensures BondedOperator(vals, operator) <==>
              FindValidator(vals, operator).Some? && FindValidator(vals, operator).value.bonded
  {
    FoundFirst(vals, operator);
    if BondedOperator(vals, operator) && FindValidator(vals, operator).Some? {
      var i :| 0 <= i < |vals| && vals[i].operator == operator && vals[i].bonded
               && forall j :: 0 <= j < i ==> vals[j].operator != operator;
      var k :| 0 <= k < |vals| && vals[k].operator == operator && vals[k] == FindValidator(vals, operator).value
               && forall j :: 0 <= j < k ==> vals[j].operator != operator;
      assert i == k;
    }
  }

  /** Exactly bonded validators that are no members yet join, and joining adds them alone. */
  lemma JoinExactly(st: Store, ctx: Context, v: string, wellFormed: bool)
    ensures var (st', r) := JoinSpec(st, ctx, v, wellFormed);
            && (r.Ok? <==> wellFormed && v !in st.attesterSet && BondedOperator(ctx.staking.all, v))
            && st' == (if r.Ok? then st.(attesterSet := st.attesterSet + {v}) else st)
            && (r == Err(InvalidAddress) <==> !wellFormed)
            && (r == Err(AlreadyMember) ==> v in st.attesterSet)
            && (r == Err(NotBonded) || r == Err(UnknownValidator) ==> !BondedOperator(ctx.staking.all, v))
  {
    BondedFound(ctx.staking.all, v);
  }

  /** Exactly members leave, and leaving removes them alone. */
  lemma LeaveExactly(st: Store, v: string)
    ensures var (st', r) := LeaveSpec(st, v);
            && (r.Ok? <==> v in st.attesterSet)
            && st' == st.(attesterSet := set x | x in st.attesterSet && x != v)
  {
  }

  /** Exactly the authority changes params, to valid ones, and nothing else changes. */
  lemma UpdateParamsExactly(st: Store, authorised: bool, p: Params)
    ensures var (st', r) := UpdateParamsSpec(st, authorised, p);
            && (r.Ok? <==> authorised && p.Valid())
            && st' == (if r.Ok? then st.(params := Some(p)) else st)
            && (r == Err(InvalidSigner) <==> !authorised)
  {
  }

  // ---------------------------------------------------------------- over runs

  predicate Joins(st: Store, e: Event, v: string) {
    e.op.Join? && e.op.validator == v && e.op.wellFormed && v !in st.attesterSet && BondedOperator(e.ctx.staking.all, v)
  }

  predicate Leaves(e: Event, v: string) {
    e.op.Leave? && e.op.validator == v
  }

  lemma StepMembers(st: Store, e: Event, v: string)
    ensures v in Step(st, e).attesterSet <==> Joins(st, e, v) || (v in st.attesterSet && !Leaves(e, v))
  {
    match e.op
    case Join(w, wellFormed) => JoinExactly(st, e.ctx, w, wellFormed);
    case Leave(w) => LeaveExactly(st, w);
    case EndBlock => EndBlockerKeepsMembers(st, e.ctx);
    case Attest(w, h, vote) => AttestKeepsMembers(st, e.ctx, w, h, vote);
    case UpdateParams(_, _) =>
  }

  lemma EpochEndFrame(st: Store, epoch: uint64, staking: Staking)
    ensures var st' := EpochEndSpec(st, epoch, staking).0;
            st' == st.(validatorIndex := st'.validatorIndex, validatorPower := st'.validatorPower)
  {
  }

  /** An end blocker files attestations and renumbers validators, and touches nothing else. */
  lemma EndBlockerKeepsMembers(st: Store, ctx: Context)
    ensures var st' := EndBlockerSpec(st, ctx).0;
            st' == st.(attestationInfo := st'.attestationInfo,
                       validatorIndex := st'.validatorIndex, validatorPower := st'.validatorPower)
  {
    var checked := CheckpointSpec(st, ctx.height, ctx.staking.totalPower).0;
    CheckpointFrame(st, ctx.height, ctx.staking.totalPower);
    if CurrentEpoch(st, ctx.height).Ok? {
      EpochEndFrame(st, CurrentEpoch(st, ctx.height).value, ctx.staking);
      EpochEndFrame(checked, CurrentEpoch(st, ctx.height).value, ctx.staking);
    }
  }

  lemma AttestKeepsMembers(st: Store, ctx: Context, v: string, h: int64, vote: seq<byte>)
    ensures var st' := AttestSpec(st, ctx, v, h, vote).0; st'.attesterSet == st.attesterSet && st'.params == st.params
  {
  }

  /** v left in a call from i on. */
  predicate LeftFrom(es: seq<Event>, i: nat, v: string) {
    exists j :: i <= j < |es| && Leaves(es[j], v)
  }

  /** v joined in the run and has not left since. */
  ghost predicate JoinedSince(st: Store, es: seq<Event>, v: string) {
    exists i :: JoinedAt(st, es, v, i)
  }

  predicate JoinedAt(st: Store, es: seq<Event>, v: string, i: int) {
    0 <= i < |es| && Joins(Run(st, es[..i]), es[i], v) && !LeftFrom(es, i + 1, v)
  }

  lemma JoinedAtFront(st: Store, es: seq<Event>, v: string, i: nat, n: nat)
    requires |es| == n + 1 && i < n
    ensures JoinedAt(st, es, v, i) <==> JoinedAt(st, es[..n], v, i) && !Leaves(es[n], v)
  {
    assert es[..n][..i] == es[..i];
    LeftLast(es, i + 1, v, n);
  }

  lemma JoinedLast(st: Store, es: seq<Event>, v: string, n: nat)
    requires |es| == n + 1
    ensures JoinedSince(st, es, v) <==>
              (JoinedSince(st, es[..n], v) && !Leaves(es[n], v)) || Joins(Run(st, es[..n]), es[n], v)
  {
    assert JoinedAt(st, es, v, n) <==> Joins(Run(st, es[..n]), es[n], v);
    if JoinedSince(st, es[..n], v) {
      var i :| JoinedAt(st, es[..n], v, i);
      JoinedAtFront(st, es, v, i, n);
    }
    if JoinedSince(st, es, v) && !JoinedAt(st, es, v, n) {
      var i :| JoinedAt(st, es, v, i);
      JoinedAtFront(st, es, v, i, n);
    }
  }

  /** Who is a member after a run: who was one, or joined, and has not left since. */
  lemma {:induction false} RunMembers(st: Store, es: seq<Event>, v: string)
    ensures v in Run(st, es).attesterSet <==> (v in st.attesterSet && !LeftFrom(es, 0, v)) || JoinedSince(st, es, v)
  {
    if es != [] {
      var n := |es| - 1;
      RunMembers(st, es[..n], v);
      StepMembers(Run(st, es[..n]), es[n], v);
      LeftLast(es, 0, v, n);
      JoinedLast(st, es, v, n);
    }
  }

  lemma LeftLast(es: seq<Event>, i: nat, v: string, n: nat)
    requires |es| == n + 1 && i <= n
    ensures LeftFrom(es, i, v) <==> LeftFrom(es[..n], i, v) || Leaves(es[n], v)
  {
    if LeftFrom(es[..n], i, v) {
      var j :| i <= j < |es[..n]| && Leaves(es[..n][j], v);
      assert Leaves(es[j], v);
    }
    if LeftFrom(es, i, v) && !Leaves(es[n], v) {
      var j :| i <= j < |es| && Leaves(es[j], v);
      assert Leaves(es[..n][j], v);
    }
  }

  /** Params are the last valid ones the authority set. */
  lemma {:induction false} RunParams(st: Store, es: seq<Event>) returns (i: nat)
    ensures i <= |es|
    ensures i < |es| ==> es[i].op.UpdateParams? && es[i].op.authorised && es[i].op.params.Valid()
                         && Run(st, es).params == Some(es[i].op.params)
    ensures i == |es| ==> Run(st, es).params == st.params
    ensures forall j :: (if i < |es| then i else -1) < j < |es| && es[j].op.UpdateParams? ==>
              !(es[j].op.authorised && es[j].op.params.Valid())
  {
    if es == [] {
      i := 0;
    } else {
      var n := |es| - 1;
      StepParams(Run(st, es[..n]), es[n]);
      if SetsParams(es[n]) {
        i := n;
      } else {
        i := RunParams(st, es[..n]);
        if i == n { i := n + 1; }
      }
    }
  }

  predicate SetsParams(e: Event) {
    e.op.UpdateParams? && e.op.authorised && e.op.params.Valid()
  }

  lemma StepParams(st: Store, e: Event)
    ensures Step(st, e).params == if SetsParams(e) then Some(e.op.params) else st.params
  {
    match e.op
    case EndBlock => EndBlockerKeepsMembers(st, e.ctx);
    case Attest(w, h, vote) => AttestKeepsMembers(st, e.ctx, w, h, vote);
    case _ =>
  }

  lemma StepSignatures(st: Store, e: Event)
    requires ValidParams(st)
    ensures Step(st, e).signatures
         == if e.op.Attest? && Call(st, e).1.Ok?
            then st.signatures[(e.op.height, e.op.validator) := e.op.vote]
            else st.signatures
  {
    match e.op
    case EndBlock => EndBlockerKeepsMembers(st, e.ctx);
    case Attest(w, h, vote) => if Call(st, e).1.Ok? { AttestEffect(st, e.ctx, w, h, vote); }
    case _ =>
  }

  lemma {:induction false} RunValidParams(st: Store, es: seq<Event>)
    requires ValidParams(st)
    ensures ValidParams(Run(st, es))
  {
    if es != [] {
      RunValidParams(st, es[..|es| - 1]);
      StepParams(Run(st, es[..|es| - 1]), es[|es| - 1]);
    }
  }

  /** Every vote a run stores was cast in it by somebody who was then an attester with an index, at a checkpoint. */
  lemma {:induction false} VotesFromAttesters(st: Store, es: seq<Event>, h: int64, v: string) returns (i: nat)
    requires ValidParams(st) && (h, v) in Run(st, es).signatures
    requires (h, v) in st.signatures ==> st.signatures[(h, v)] != Run(st, es).signatures[(h, v)]
    ensures i < |es| && es[i].op == Attest(v, h, Run(st, es).signatures[(h, v)])
    ensures var before := Run(st, es[..i]);
            && v in before.attesterSet && v in before.validatorIndex && before.params.Some?
            && before.params.value.epochLength > 0 && ToUint64(h) % before.params.value.epochLength == 0
  {
    var n := |es| - 1;
    if es != [] {
      var mid, e := Run(st, es[..n]), es[n];
      RunValidParams(st, es[..n]);
      StepSignatures(mid, e);
      if e.op.Attest? && Call(mid, e).1.Ok? && e.op.height == h && e.op.validator == v {
        AttestExactly(mid, e.ctx, v, h, e.op.vote);
        i := n;
      } else {
        i := VotesFromAttesters(st, es[..n], h, v);
        assert es[..n][..i] == es[..i];
      }
    }
  }

  // ---------------------------------------------------------------- confirmation and end blocker

  /** A height is confirmed exactly when every position has a power and their sum, in 64 bits, reaches the quorum. */
  lemma SoftConfirmedExactly(st: Store, h: int64, totalPower: uint64)
    requires ValidParams(st) && totalPower < TWO_63
    ensures var r, quorum := IsSoftConfirmed(st, h, totalPower),
                             totalPower * st.params.value.quorumFraction.value / 1_000_000_000_000_000_000;
            if h !in st.attestationBitmap then r == Ok(false)
            else
              var b := st.attestationBitmap[h];
              if exists i :: i in Indices(b) && Uint16(i) !in st.validatorPower then r == Err(MissingPower)
              else r == Ok(Uint64(SumBelow(st.validatorPower, Indices(b), |b| * 8)) >= quorum)
  {
    Decimal.RequiredPowerIsFloor(totalPower, st.params.value.quorumFraction.value);
  }

  /** With valid params an end blocker fails exactly when it cannot file a checkpoint. */
  lemma EndBlockerExactly(st: Store, ctx: Context)
    requires ValidParams(st) && 0 < ctx.height < TWO_63 - 1
    ensures var length, b := st.params.value.epochLength, ctx.height in st.attestationBitmap;
            EndBlockerSpec(st, ctx).1.Err? <==>
              ctx.height % length == 0 && b
              && (VotedPower(st.validatorPower, st.attestationBitmap[ctx.height]).Err?
                  || Decimal.RequiredPower(ctx.staking.totalPower, st.params.value.quorumFraction.value).None?)
  {
    CheckpointFrame(st, ctx.height, ctx.staking.totalPower);
    CheckpointFails(st, ctx.height, ctx.staking.totalPower);
  }

  lemma CheckpointFails(st: Store, height: int64, totalPower: uint64)
    requires ValidParams(st)
    ensures CheckpointSpec(st, height, totalPower).1.Err? <==>
              height in st.attestationBitmap
              && (VotedPower(st.validatorPower, st.attestationBitmap[height]).Err?
                  || Decimal.RequiredPower(totalPower, st.params.value.quorumFraction.value).None?)
  {
  }
}
