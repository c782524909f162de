/**
 The soft-confirmation network module: its stores, its messages and its end blocker.
 Each keeper method is tied to a function of the stores it read.
 */
module Network {
  import opened Common
  import opened Bits
  import opened Bitmap
  import Decimal

  const SIGN_MODE_CHECKPOINT: int32 := 1

  /** Fractions are kept as the decimal their text parses to, None when it does not parse. */
  datatype Params = Params(
    epochLength: uint64,
    quorumFraction: Option<int>,
    minParticipation: Option<int>,
    pruneAfter: uint64,
    signMode: int32)
  {
    predicate Valid() {
      && epochLength > 0
      && quorumFraction.Some? && 0 < quorumFraction.value <= Decimal.SCALE
      && minParticipation.Some? && 0 < minParticipation.value <= Decimal.SCALE
      && pruneAfter > 0
      && signMode == SIGN_MODE_CHECKPOINT
    }
  }

  /** What reading an absent params item gives. */
  const NO_PARAMS := Params(0, None, None, 0, 0)

  datatype AttestationInfo = AttestationInfo(
    height: int64,
    bitmap: seq<byte>,
    votedPower: uint64,
    totalPower: uint64,
    softConfirmed: bool)

  datatype Validator = Validator(operator: string, bonded: bool, power: uint64)

  /** What the staking module answers during one call. */
  datatype Staking = Staking(all: seq<Validator>, last: seq<Validator>, totalPower: uint64)

  datatype Context = Context(height: int64, staking: Staking)

  datatype Store = Store(
    validatorIndex: map<string, uint16>,
    validatorPower: map<uint16, uint64>,
    attestationBitmap: map<int64, seq<byte>>,
    epochBitmap: map<uint64, seq<byte>>,
    attesterSet: set<string>,
    signatures: map<(int64, string), seq<byte>>,
    attestationInfo: map<int64, AttestationInfo>,
    params: Option<Params>)

  const EMPTY_STORE := Store(map[], map[], map[], map[], {}, map[], map[], None)

  /** Panic covers division by a zero epoch length and reading a negative quorum as a uint64. */
  datatype Failure =
    | NotCheckpoint | NotAttester | NoIndex | AlreadyAttested
    | InvalidAddress | UnknownValidator | NotBonded | AlreadyMember | NotMember
    | InvalidSigner | InvalidParams | MissingPower | BadFraction | Panic

  type Outcome<T> = Result<T, Failure>

  // ---------------------------------------------------------------- reads

  function GetParams(st: Store): Params {
    if st.params.Some? then st.params.value else NO_PARAMS
  }

  function CurrentEpoch(st: Store, height: int64): Outcome<uint64> {
    var length := GetParams(st).epochLength;
    if length == 0 then Err(Panic) else Ok(ToUint64(height) / length)
  }

  function IsCheckpointHeight(st: Store, height: int64): Outcome<bool> {
    if st.params.None? then Ok(false)
    else if st.params.value.epochLength == 0 then Err(Panic)
    else Ok(ToUint64(height) % st.params.value.epochLength == 0)
  }

  function CheckQuorum(st: Store, votedPower: uint64, totalPower: uint64): Outcome<bool> {
    match GetParams(st).quorumFraction
    case None => Err(BadFraction)
    case Some(fraction) =>
      match Decimal.RequiredPower(totalPower, fraction)
      case None => Err(Panic)
      case Some(required) => Ok(votedPower >= required)
  }

  /** The power filed under a bitmap position, whose key is cut to 16 bits. */
  function PowerAt(powers: map<uint16, uint64>, i: int): nat {
    if Uint16(i) in powers then powers[Uint16(i)] else 0
  }

  /** The summed power of the members below n. */
  function SumBelow(powers: map<uint16, uint64>, members: set<int>, n: nat): nat {
    if n == 0 then 0
    else SumBelow(powers, members, n - 1) + (if n - 1 in members then PowerAt(powers, n - 1) else 0)
  }

  predicate AllPowered(powers: map<uint16, uint64>, members: set<int>) {
    forall i :: i in members ==> Uint16(i) in powers
  }

  /** The summed power of a bitmap, in uint64 arithmetic; it fails when a member has no power. */
  function VotedPower(powers: map<uint16, uint64>, bitmap: seq<byte>): Outcome<uint64> {
    if AllPowered(powers, Indices(bitmap))
    then Ok(Uint64(SumBelow(powers, Indices(bitmap), |bitmap| * 8)))
    else Err(MissingPower)
  }

  function IsSoftConfirmed(st: Store, height: int64, totalPower: uint64): Outcome<bool> {
    if height !in st.attestationBitmap then Ok(false)
    else
      match VotedPower(st.validatorPower, st.attestationBitmap[height])
      case Err(e) => Err(e)
      case Ok(voted) => CheckQuorum(st, voted, totalPower)
  }

  /** Every validator index has a power. */
  predicate Powered(st: Store) {
    forall v :: v in st.validatorIndex ==> st.validatorIndex[v] in st.validatorPower
  }

  function BondedCount(vals: seq<Validator>): (n: nat)
    ensures n <= |vals|
  {
    if vals == [] then 0
    else BondedCount(vals[..|vals| - 1]) + (if vals[|vals| - 1].bonded then 1 else 0)
  }

  /** The bytes of a new bitmap for n validators. */
  function BlankBitmap(n: nat): seq<byte> {
    seq((n + 7) / 8, _ => 0)
  }

  function FindValidator(vals: seq<Validator>, operator: string): Option<Validator> {
    if vals == [] then None
    else if vals[0].operator == operator then Some(vals[0])
    else FindValidator(vals[1..], operator)
  }

  // ---------------------------------------------------------------- steps, on values

  datatype IndexMaps = IndexMaps(indices: map<string, uint16>, powers: map<uint16, uint64>, next: uint16)

  /** Bonded validators numbered in order, in uint16 arithmetic. */
  function BuildIndex(vals: seq<Validator>): IndexMaps {
    if vals == [] then IndexMaps(map[], map[], 0)
    else
      var before, v := BuildIndex(vals[..|vals| - 1]), vals[|vals| - 1];
      if v.bonded
      then IndexMaps(before.indices[v.operator := before.next],
                     before.powers[before.next := v.power],
                     Uint16(before.next + 1))
      else before
  }

  function BitmapFor(st: Store, ctx: Context, height: int64): seq<byte> {
    if height in st.attestationBitmap then st.attestationBitmap[height]
    else BlankBitmap(BondedCount(ctx.staking.last))
  }

  function EpochBitmapFor(st: Store, ctx: Context, epoch: uint64): seq<byte> {
    if epoch in st.epochBitmap then st.epochBitmap[epoch]
    else BlankBitmap(BondedCount(ctx.staking.last))
  }

  function AttestSpec(st: Store, ctx: Context, validator: string, height: int64, vote: seq<byte>)
    : (Store, Outcome<()>)
  {
    var isCheckpoint := IsCheckpointHeight(st, height);
    if GetParams(st).signMode == SIGN_MODE_CHECKPOINT && isCheckpoint != Ok(true) then
      (st, Err(if isCheckpoint.Err? then isCheckpoint.error else NotCheckpoint))
    else if validator !in st.attesterSet then (st, Err(NotAttester))
    else if validator !in st.validatorIndex then (st, Err(NoIndex))
    else
      var index := st.validatorIndex[validator];
      if IsSet(BitmapFor(st, ctx, height), index) then (st, Err(AlreadyAttested))
      else
        var st1 := st.(attestationBitmap := st.attestationBitmap[height := WithBit(BitmapFor(st, ctx, height), index)],
                       signatures := st.signatures[(height, validator) := vote]);
        match CurrentEpoch(st, ctx.height)
        case Err(e) => (st1, Err(e))
        case Ok(epoch) =>
          (st1.(epochBitmap := st.epochBitmap[epoch := WithBit(EpochBitmapFor(st, ctx, epoch), index)]), Ok(()))
  }

  function JoinSpec(st: Store, ctx: Context, validator: string, wellFormed: bool): (Store, Outcome<()>) {
    var found := FindValidator(ctx.staking.all, validator);
    if !wellFormed then (st, Err(InvalidAddress))
    else if found.None? then (st, Err(UnknownValidator))
    else if !found.value.bonded then (st, Err(NotBonded))
    else if validator in st.attesterSet then (st, Err(AlreadyMember))
    else (st.(attesterSet := st.attesterSet + {validator}), Ok(()))
  }

  function LeaveSpec(st: Store, validator: string): (Store, Outcome<()>) {
    if validator !in st.attesterSet then (st, Err(NotMember))
    else (st.(attesterSet := st.attesterSet - {validator}), Ok(()))
  }

  function UpdateParamsSpec(st: Store, authorised: bool, params: Params): (Store, Outcome<()>) {
    if !authorised then (st, Err(InvalidSigner))
    else if !params.Valid() then (st, Err(InvalidParams))
    else (st.(params := Some(params)), Ok(()))
  }

  function CheckpointSpec(st: Store, height: int64, totalPower: uint64): (Store, Outcome<()>) {
    if height !in st.attestationBitmap then (st, Ok(()))
    else
      var bitmap := st.attestationBitmap[height];
      match VotedPower(st.validatorPower, bitmap)
      case Err(e) => (st, Err(e))
      case Ok(voted) =>
        match CheckQuorum(st, voted, totalPower)
        case Err(e) => (st, Err(e))
        case Ok(confirmed) =>
          var info := AttestationInfo(height, bitmap, voted, totalPower, confirmed);
          (st.(attestationInfo := st.attestationInfo[height := info]), Ok(()))
  }

  function EpochEndSpec(st: Store, epoch: uint64, staking: Staking): (Store, Outcome<()>) {
    if epoch in st.epochBitmap && BondedCount(staking.last) > 0 && GetParams(st).minParticipation.None? then
      (st, Err(BadFraction))
    else
      var built := BuildIndex(staking.all);
      (st.(validatorIndex := built.indices, validatorPower := built.powers), Ok(()))
  }

  /** height + 1 in int64 arithmetic. */
  function NextHeight(height: int64): int64 {
    if height == TWO_63 - 1 then -TWO_63 else height + 1
  }

  function EndBlockerSpec(st: Store, ctx: Context): (Store, Outcome<()>) {
    match IsCheckpointHeight(st, ctx.height)
    case Err(e) => (st, Err(e))
    case Ok(isCheckpoint) =>
      var (st1, r) := if isCheckpoint then CheckpointSpec(st, ctx.height, ctx.staking.totalPower) else (st, Ok(()));
      if r.Err? then (st1, r)
      else
        match CurrentEpoch(st1, ctx.height)
        case Err(e) => (st1, Err(e))
        case Ok(epoch) =>
          if epoch != ToUint64(NextHeight(ctx.height)) / GetParams(st1).epochLength
          then EpochEndSpec(st1, epoch, ctx.staking)
          else (st1, Ok(()))
  }

  // ---------------------------------------------------------------- the keeper

  method CountBonded(vals: seq<Validator>) returns (n: nat)
    ensures n == BondedCount(vals)
  {
    n := 0;
    for i := 0 to |vals|
      invariant n == BondedCount(vals[..i])
    {
      assert vals[..i + 1][..i] == vals[..i];
      if vals[i].bonded { n := n + 1; }
    }
    assert vals[..|vals|] == vals;
  }

  /** A private copy of a stored bitmap, or a new one sized for the bonded validators. */
  method BitmapToUpdate(stored: Option<seq<byte>>, last: seq<Validator>) returns (a: array<byte>)
    ensures fresh(a)
    ensures a[..] == if stored.Some? then stored.value else BlankBitmap(BondedCount(last))
  {
    if stored.Some? {
      var s := stored.value;
      a := new byte[|s|](i requires 0 <= i < |s| => s[i]);
    } else {
      var n := CountBonded(last);
      a := NewBitmap(n);
    }
  }

  lemma ModAdd(a: nat, b: nat)
    ensures Uint64(Uint64(a) + b) == Uint64(a + b)
  {
  }

  class Keeper {
    const authority: string
    var validatorIndex: map<string, uint16>
    var validatorPower: map<uint16, uint64>
    var attestationBitmap: map<int64, seq<byte>>
    var epochBitmap: map<uint64, seq<byte>>
    var attesterSet: set<string>
    var signatures: map<(int64, string), seq<byte>>
    var attestationInfo: map<int64, AttestationInfo>
    var params: Option<Params>

    function View(): Store
      reads this
    {
      Store(validatorIndex, validatorPower, attestationBitmap, epochBitmap,
            attesterSet, signatures, attestationInfo, params)
    }

    constructor (authority: string)
      ensures View() == EMPTY_STORE && this.authority == authority
    {
      this.authority := authority;
      validatorIndex, validatorPower := map[], map[];
      attestationBitmap, epochBitmap := map[], map[];
      attesterSet, signatures, attestationInfo := {}, map[], map[];
      params := None;
    }

    method SetValidatorIndex(operator: string, index: uint16, power: uint64)
      modifies this`validatorIndex, this`validatorPower
      ensures validatorIndex == old(validatorIndex)[operator := index]
      ensures validatorPower == old(validatorPower)[index := power]
    {
      validatorIndex := validatorIndex[operator := index];
      validatorPower := validatorPower[index := power];
    }

    method BuildValidatorIndexMap(staking: Staking)
      modifies this`validatorIndex, this`validatorPower
      ensures validatorIndex == BuildIndex(staking.all).indices
      ensures validatorPower == BuildIndex(staking.all).powers
    {
      validatorIndex := map[];
      validatorPower := map[];
      var index: uint16 := 0;
      var vals := staking.all;
      for i := 0 to |vals|
        invariant IndexMaps(validatorIndex, validatorPower, index) == BuildIndex(vals[..i])
      {
        assert vals[..i + 1][..i] == vals[..i];
        if vals[i].bonded {
          SetValidatorIndex(vals[i].operator, index, vals[i].power);
          index := Uint16(index + 1);
        }
      }
      assert vals[..|vals|] == vals;
    }

    method CalculateVotedPower(bitmap: seq<byte>) returns (r: Outcome<uint64>)
      ensures r == VotedPower(validatorPower, bitmap)
    {
      var votedPower: uint64 := 0;
      ghost var members := Indices(bitmap);
      for i := 0 to |bitmap| * 8
        invariant votedPower == Uint64(SumBelow(validatorPower, members, i))
        invariant forall j :: j in members && j < i ==> Uint16(j) in validatorPower
      {
        if IsSet(bitmap, i) {
          assert i in members;
          if Uint16(i) !in validatorPower { return Err(MissingPower); }
          ModAdd(SumBelow(validatorPower, members, i), validatorPower[Uint16(i)]);
          votedPower := Uint64(votedPower + validatorPower[Uint16(i)]);
        }
      }
      return Ok(votedPower);
    }

    method Attest(ctx: Context, validator: string, height: int64, vote: seq<byte>) returns (r: Outcome<()>)
      modifies this`attestationBitmap, this`signatures, this`epochBitmap
      ensures (View(), r) == AttestSpec(old(View()), ctx, validator, height, vote)
    {
      var isCheckpoint := IsCheckpointHeight(View(), height);
      if GetParams(View()).signMode == SIGN_MODE_CHECKPOINT {
        if isCheckpoint.Err? { return Err(isCheckpoint.error); }
        if !isCheckpoint.value { return Err(NotCheckpoint); }
      }
      if validator !in attesterSet { return Err(NotAttester); }
      if validator !in validatorIndex { return Err(NoIndex); }
      var index := validatorIndex[validator];

      var stored := if height in attestationBitmap then Some(attestationBitmap[height]) else None;
      var bitmap := BitmapToUpdate(stored, ctx.staking.last);
      if IsSet(bitmap[..], index) { return Err(AlreadyAttested); }
      RecordVote(height, validator, bitmap, index, vote);

      var epoch := CurrentEpoch(View(), ctx.height);
      if epoch.Err? { return Err(epoch.error); }
      RecordParticipation(ctx, epoch.value, index);
      return Ok(());
    }

    method RecordVote(height: int64, validator: string, bitmap: array<byte>, index: uint16, vote: seq<byte>)
      modifies this`attestationBitmap, this`signatures, bitmap
      ensures attestationBitmap == old(attestationBitmap)[height := WithBit(old(bitmap[..]), index)]
      ensures signatures == old(signatures)[(height, validator) := vote]
    {
      SetBit(bitmap, index);
      attestationBitmap := attestationBitmap[height := bitmap[..]];
      signatures := signatures[(height, validator) := vote];
    }

    method RecordParticipation(ctx: Context, epoch: uint64, index: uint16)
      modifies this`epochBitmap
      ensures epochBitmap == old(epochBitmap)[epoch := WithBit(EpochBitmapFor(old(View()), ctx, epoch), index)]
    {
      var stored := if epoch in epochBitmap then Some(epochBitmap[epoch]) else None;
      var participation := BitmapToUpdate(stored, ctx.staking.last);
      SetBit(participation, index);
      epochBitmap := epochBitmap[epoch := participation[..]];
    }

    method JoinAttesterSet(ctx: Context, validator: string, wellFormed: bool) returns (r: Outcome<()>)
      modifies this`attesterSet
      ensures (View(), r) == JoinSpec(old(View()), ctx, validator, wellFormed)
    {
      if !wellFormed { return Err(InvalidAddress); }
      var found := FindValidator(ctx.staking.all, validator);
      if found.None? { return Err(UnknownValidator); }
      if !found.value.bonded { return Err(NotBonded); }
      if validator in attesterSet { return Err(AlreadyMember); }
      attesterSet := attesterSet + {validator};
      return Ok(());
    }

    method LeaveAttesterSet(validator: string) returns (r: Outcome<()>)
      modifies this`attesterSet
      ensures (View(), r) == LeaveSpec(old(View()), validator)
    {
      if validator !in attesterSet { return Err(NotMember); }
      attesterSet := attesterSet - {validator};
      return Ok(());
    }

    method UpdateParams(sender: string, newParams: Params) returns (r: Outcome<()>)
      modifies this`params
      ensures (View(), r) == UpdateParamsSpec(old(View()), sender == authority, newParams)
    {
      if authority != sender { return Err(InvalidSigner); }
      if !newParams.Valid() { return Err(InvalidParams); }
      params := Some(newParams);
      return Ok(());
    }

    method ProcessCheckpoint(height: int64, totalPower: uint64) returns (r: Outcome<()>)
      modifies this`attestationInfo
      ensures (View(), r) == CheckpointSpec(old(View()), height, totalPower)
    {
      if height !in attestationBitmap { return Ok(()); }
      var bitmap := attestationBitmap[height];
      var voted := CalculateVotedPower(bitmap);
      if voted.Err? { return Err(voted.error); }
      var confirmed := CheckQuorum(View(), voted.value, totalPower);
      if confirmed.Err? { return Err(confirmed.error); }
      var info := AttestationInfo(height, bitmap, voted.value, totalPower, confirmed.value);
      attestationInfo := attestationInfo[height := info];
      return Ok(());
    }

    method ProcessEpochEnd(epoch: uint64, staking: Staking) returns (r: Outcome<()>)
      modifies this`validatorIndex, this`validatorPower
      ensures (View(), r) == EpochEndSpec(old(View()), epoch, staking)
    {
      if epoch in epochBitmap {
        var bonded := CountBonded(staking.last);
        if bonded > 0 && GetParams(View()).minParticipation.None? { return Err(BadFraction); }
      }
      BuildValidatorIndexMap(staking);
      return Ok(());
    }

    method EndBlocker(ctx: Context) returns (r: Outcome<()>)
      modifies this`attestationInfo, this`validatorIndex, this`validatorPower
      ensures (View(), r) == EndBlockerSpec(old(View()), ctx)
    {
      var isCheckpoint := IsCheckpointHeight(View(), ctx.height);
      if isCheckpoint.Err? { return Err(isCheckpoint.error); }
      if isCheckpoint.value {
        r := ProcessCheckpoint(ctx.height, ctx.staking.totalPower);
        if r.Err? { return; }
      }
      var epoch := CurrentEpoch(View(), ctx.height);
      if epoch.Err? { return Err(epoch.error); }
      var nextEpoch := ToUint64(NextHeight(ctx.height)) / GetParams(View()).epochLength;
      if epoch.value != nextEpoch {
        r := ProcessEpochEnd(epoch.value, ctx.staking);
        return;
      }
      return Ok(());
    }
  }
}
