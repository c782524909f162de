/**
 The CometBFT-to-Rollkit migration of the rollkitmngr module: the change sets
 that EndBlock emits over the migration window, and what they make of the
 running consensus set.
 */
module Migration {
  import opened Common

  /** IBCSmoothingFactor: how many blocks a smoothed migration takes. */
  const SMOOTHING: uint64 := 30

  /** A consensus public key; `decodable` says whether TmConsPublicKey accepts it. */
  datatype PubKey = PubKey(text: string, decodable: bool)

  datatype ValidatorUpdate = ValidatorUpdate(key: PubKey, power: nat)

  datatype RollkitMigration = RollkitMigration(
    blockHeight: uint64,
    sequencer: PubKey,
    attesters: seq<PubKey>)

  /** The three collections items of the keeper. */
  datatype Store = Store(
    migration: Option<RollkitMigration>,
    step: Option<uint64>,
    sequencer: Option<PubKey>)

  /**
   BadKey is an error return. The others are panics: KeyPanic of building a removal for a
   validator whose key cannot be read, SlicePanic of Go's s[a:b] with a > b.
   */
  datatype Failure = BadKey | KeyPanic | SlicePanic

  type Updates = Result<seq<ValidatorUpdate>, Failure>

  // ---------------------------------------------------------------- change sets

  /** One update per key, all at the same power. */
  function AtPower(keys: seq<PubKey>, power: nat): (us: seq<ValidatorUpdate>)
    ensures |us| == |keys|
    ensures forall i :: 0 <= i < |us| ==> us[i] == ValidatorUpdate(keys[i], power)
  {
    seq(|keys|, i requires 0 <= i < |keys| => ValidatorUpdate(keys[i], power))
  }

  function Zeros(keys: seq<PubKey>): seq<ValidatorUpdate> { AtPower(keys, 0) }

  function Ones(keys: seq<PubKey>): seq<ValidatorUpdate> { AtPower(keys, 1) }

  function Keys(us: seq<ValidatorUpdate>): seq<PubKey> {
    seq(|us|, i requires 0 <= i < |us| => us[i].key)
  }

  /** The elements of xs, in order, that are not in ys. */
  function Without(xs: seq<PubKey>, ys: set<PubKey>): (r: seq<PubKey>)
    ensures forall x :: x in r <==> x in xs && x !in ys
    ensures Distinct(xs) ==> Distinct(r)
    ensures |r| <= |xs|
  {
    if xs == [] then []
    else
      var rest := Without(xs[..|xs| - 1], ys);
      assert xs == xs[..|xs| - 1] + [xs[|xs| - 1]];
      if xs[|xs| - 1] in ys then rest else rest + [xs[|xs| - 1]]
  }

  /** Who must be in the set at the end: the attesters, or the sequencer alone. */
  function Targets(m: RollkitMigration): seq<PubKey> {
    if m.attesters == [] then [m.sequencer] else m.attesters
  }

  function Removals(m: RollkitMigration, vals: seq<PubKey>): seq<PubKey> {
    Without(vals, Elems(Targets(m)))
  }

  /** A lone sequencer is only added by the closing change set. */
  function Additions(m: RollkitMigration, vals: seq<PubKey>): seq<PubKey> {
    if m.attesters == [] then [] else Without(m.attesters, Elems(vals))
  }

  /** Ceiling of n / SMOOTHING. */
  function PerStep(n: nat): nat {
    (n + SMOOTHING - 1) / SMOOTHING
  }

  /** The slice [k*q : min(k*q+q, n)] does not panic. */
  predicate InBounds(n: nat, k: nat) {
    k * PerStep(n) <= n
  }

  /** How many of n keys the first k chunks hold. */
  function Covered(n: nat, k: nat): nat {
    Min(k * PerStep(n), n)
  }

  function Chunk(xs: seq<PubKey>, k: nat): seq<PubKey>
    requires InBounds(|xs|, k)
  {
    xs[k * PerStep(|xs|)..Min(k * PerStep(|xs|) + PerStep(|xs|), |xs|)]
  }

  predicate Decodable(keys: seq<PubKey>) {
    forall i :: 0 <= i < |keys| ==> keys[i].decodable
  }

  function FinalUpdates(m: RollkitMigration, vals: seq<PubKey>): seq<ValidatorUpdate> {
    Zeros(Removals(m, vals)) + Ones(Targets(m))
  }

  /** One smoothed step, before the equalising pass. */
  function Moved(m: RollkitMigration, vals: seq<PubKey>, k: nat): seq<ValidatorUpdate>
    requires InBounds(|Removals(m, vals)|, k) && InBounds(|Additions(m, vals)|, k)
  {
    Zeros(Chunk(Removals(m, vals), k)) + Ones(Chunk(Additions(m, vals), k))
  }

  function MovedOrFailure(m: RollkitMigration, vals: seq<PubKey>, k: nat): Updates {
    var rem, add := Removals(m, vals), Additions(m, vals);
    if !InBounds(|rem|, k) then Err(SlicePanic)
    else if !Decodable(Chunk(rem, k)) then Err(KeyPanic)
    else if !InBounds(|add|, k) then Err(SlicePanic)
    else if !Decodable(Chunk(add, k)) then Err(BadKey)
    else Ok(Moved(m, vals, k))
  }

  /** Every key of the closing change set can be read. */
  predicate FinalOk(m: RollkitMigration, vals: seq<PubKey>) {
    Decodable(Removals(m, vals)) && Decodable(Targets(m))
  }

  function FinalOrFailure(m: RollkitMigration, vals: seq<PubKey>): Updates {
    if FinalOk(m, vals) then Ok(FinalUpdates(m, vals))
    else if m.attesters == [] && !m.sequencer.decodable then Err(BadKey)
    else if !Decodable(Removals(m, vals)) then Err(KeyPanic)
    else Err(BadKey)
  }

  function SmoothUpdates(m: RollkitMigration, vals: seq<PubKey>, k: nat): seq<ValidatorUpdate>
    requires InBounds(|Removals(m, vals)|, k) && InBounds(|Additions(m, vals)|, k)
  {
    var moved := Moved(m, vals, k);
    if k == 0 then moved + Ones(Without(vals, Elems(Keys(moved)))) else moved
  }

  // ---------------------------------------------------------------- keeper steps, on values

  function MigrateNowSpec(st: Store, m: RollkitMigration, vals: seq<PubKey>): (Store, Updates) {
    match FinalOrFailure(m, vals)
    case Err(e) => (st, Err(e))
    case Ok(us) => (st.(sequencer := Some(m.sequencer)), Ok(us))
  }

  function MigrateOverSpec(st: Store, m: RollkitMigration, vals: seq<PubKey>): (Store, Updates) {
    var step := if st.step.Some? then st.step.value else 0;
    if step >= SMOOTHING then
      MigrateNowSpec(st.(step := None), m, vals)
    else
      match MovedOrFailure(m, vals, step)
      case Err(e) => (st, Err(e))
      case Ok(_) =>
        // the step is counted before the equalising pass reads every validator's key
        (st.(step := Some(step + 1)),
         if step == 0 && !Decodable(vals) then Err(BadKey) else Ok(SmoothUpdates(m, vals, step)))
  }

  /** The window as (start, end, in progress); (0, 0, false) when no migration is stored. */
  function IsMigrating(st: Store, height: int64, ibc: bool): (uint64, uint64, bool) {
    match st.migration
    case None => (0, 0, false)
    case Some(m) =>
      var end := Uint64(m.blockHeight + (if ibc then SMOOTHING else 1));
      var now := ToUint64(height);
      (m.blockHeight, end, m.blockHeight <= now <= end)
  }

  function PreBlockerSpec(st: Store, height: int64, ibc: bool): (Store, bool) {
    var (_, end, _) := IsMigrating(st, height, ibc);
    if end > 0 && Uint64(end + 1) == ToUint64(height)
    then (st.(migration := None), true)
    else (st, false)
  }

  function EndBlockSpec(st: Store, height: int64, ibc: bool, vals: seq<PubKey>): (Store, Updates) {
    var (start, _, migrating) := IsMigrating(st, height, ibc);
    if !migrating || start > ToUint64(height) then (st, Ok([]))
    else if ibc then MigrateOverSpec(st, st.migration.value, vals)
    else MigrateNowSpec(st, st.migration.value, vals)
  }

  // ---------------------------------------------------------------- the keeper

  method MigrateToSequencer(m: RollkitMigration, vals: seq<PubKey>) returns (r: Updates)
    requires m.attesters == []
    ensures r == FinalOrFailure(m, vals)
  {
    assert Targets(m)[0] == m.sequencer;
    if !m.sequencer.decodable { return Err(BadKey); }
    assert Elems(Targets(m)) == {m.sequencer};
    var removals := Remaining(vals, {m.sequencer});
    r := AppendRemovals(removals);
    if r.Err? { return; }
    assert Ones([m.sequencer]) == [ValidatorUpdate(m.sequencer, 1)];
    return Ok(r.value + [ValidatorUpdate(m.sequencer, 1)]);
  }

  method MigrateToAttesters(m: RollkitMigration, vals: seq<PubKey>) returns (r: Updates)
    requires m.attesters != []
    ensures r == FinalOrFailure(m, vals)
  {
    var attesterKeys := KeySet(m.attesters);
    var removals := Remaining(vals, attesterKeys);
    r := AppendRemovals(removals);
    if r.Err? { return; }
    r := AppendAttesters(r.value, m.attesters);
  }

  /** The loop that fills a Go map used as a set of keys. */
  method KeySet(keys: seq<PubKey>) returns (s: set<PubKey>)
    ensures s == Elems(keys)
  {
    s := {};
    for i := 0 to |keys|
      invariant s == Elems(keys[..i])
    {
      s := s + {keys[i]};
    }
    assert keys[..|keys|] == keys;
  }

  /** The loop that keeps the keys a set does not hold. */
  method Remaining(keys: seq<PubKey>, drop: set<PubKey>) returns (r: seq<PubKey>)
    ensures r == Without(keys, drop)
  {
    r := [];
    for i := 0 to |keys|
      invariant r == Without(keys[..i], drop)
    {
      assert keys[..i + 1][..i] == keys[..i];
      if keys[i] !in drop { r := r + [keys[i]]; }
    }
    assert keys[..|keys|] == keys;
  }

  /** The loop that builds the removals; it panics at the first key it cannot read. */
  method AppendRemovals(keys: seq<PubKey>) returns (r: Updates)
    ensures r == if Decodable(keys) then Ok(Zeros(keys)) else Err(KeyPanic)
  {
    var updates: seq<ValidatorUpdate> := [];
    for i := 0 to |keys|
      invariant updates == Zeros(keys[..i])
      invariant Decodable(keys[..i])
    {
      if !keys[i].decodable { return Err(KeyPanic); }
      updates := updates + [ValidatorUpdate(keys[i], 0)];
    }
    assert keys[..|keys|] == keys;
    return Ok(updates);
  }

  /** The additions stop at the first attester whose key cannot be read. */
  method AppendAttesters(updates: seq<ValidatorUpdate>, keys: seq<PubKey>) returns (r: Updates)
    ensures r == if Decodable(keys) then Ok(updates + Ones(keys)) else Err(BadKey)
  {
    var all := updates;
    for i := 0 to |keys|
      invariant all == updates + Ones(keys[..i])
      invariant Decodable(keys[..i])
    {
      if !keys[i].decodable { return Err(BadKey); }
      all := all + [ValidatorUpdate(keys[i], 1)];
    }
    assert keys[..|keys|] == keys;
    return Ok(all);
  }

  /** Go's slice of one step's share; start > end is a run-time panic. */
  method Slice(keys: seq<PubKey>, step: nat) returns (r: Result<seq<PubKey>, Failure>)
    ensures r == if InBounds(|keys|, step) then Ok(Chunk(keys, step)) else Err(SlicePanic)
  {
    var perStep := (|keys| + SMOOTHING - 1) / SMOOTHING;
    var start := step * perStep;
    var end := Min(start + perStep, |keys|);
    if start > end { return Err(SlicePanic); }
    return Ok(keys[start..end]);
  }

  method SmoothToSequencer(m: RollkitMigration, vals: seq<PubKey>, step: nat) returns (r: Updates)
    requires m.attesters == []
    ensures r == MovedOrFailure(m, vals, step)
  {
    SequencerStep(m, vals, step);
    var toRemove := Remaining(vals, {m.sequencer});
    var slice := Slice(toRemove, step);
    if slice.Err? { return Err(slice.error); }
    r := AppendRemovals(slice.value);
  }

  method Smooth(m: RollkitMigration, vals: seq<PubKey>, step: nat) returns (r: Updates)
    ensures r == MovedOrFailure(m, vals, step)
  {
    if |m.attesters| == 0 {
      r := SmoothToSequencer(m, vals, step);
    } else {
      r := SmoothToAttesters(m, vals, step);
    }
  }

  /** On the sequencer path a step only removes. */
  lemma SequencerStep(m: RollkitMigration, vals: seq<PubKey>, step: nat)
    requires m.attesters == []
    ensures Removals(m, vals) == Without(vals, {m.sequencer})
    ensures var rem := Removals(m, vals);
            MovedOrFailure(m, vals, step)
              == if !InBounds(|rem|, step) then Err(SlicePanic)
                 else if Decodable(Chunk(rem, step)) then Ok(Zeros(Chunk(rem, step)))
                 else Err(KeyPanic)
  {
    assert Elems(Targets(m)) == {m.sequencer};
    assert PerStep(0) == 0 && Chunk([], step) == [];
    var rem := Removals(m, vals);
    if InBounds(|rem|, step) { assert Moved(m, vals, step) == Zeros(Chunk(rem, step)); }
  }

  method SmoothToAttesters(m: RollkitMigration, vals: seq<PubKey>, step: nat) returns (r: Updates)
    requires m.attesters != []
    ensures r == MovedOrFailure(m, vals, step)
  {
    var attesterKeys := KeySet(m.attesters);
    var toRemove := Remaining(vals, attesterKeys);
    var lastKeys := KeySet(vals);
    var toAdd := Remaining(m.attesters, lastKeys);
    var removed := Slice(toRemove, step);
    if removed.Err? { return Err(removed.error); }
    r := AppendRemovals(removed.value);
    if r.Err? { return; }
    var added := Slice(toAdd, step);
    if added.Err? { return Err(added.error); }
    r := AppendAttesters(r.value, added.value);
  }

  /** The change set so far, with power 1 for those of the first i validators it does not mention. */
  function Equalised(updates: seq<ValidatorUpdate>, vals: seq<PubKey>, existing: set<PubKey>): seq<ValidatorUpdate> {
    updates + Ones(Without(vals, existing))
  }

  lemma EqualisedNext(updates: seq<ValidatorUpdate>, vals: seq<PubKey>, i: nat, existing: set<PubKey>)
    requires i < |vals|
    ensures Equalised(updates, vals[..i + 1], existing)
         == Equalised(updates, vals[..i], existing)
            + (if vals[i] in existing then [] else [ValidatorUpdate(vals[i], 1)])
  {
    assert vals[..i + 1][..i] == vals[..i];
    var kept := Without(vals[..i], existing);
    assert Ones(kept + [vals[i]]) == Ones(kept) + [ValidatorUpdate(vals[i], 1)];
  }

  /**
   The step-0 pass: everybody a change set does not mention yet gets power 1. It fails at the
   first validator whose key cannot be read, mentioned or not.
   */
  method Equalise(updates: seq<ValidatorUpdate>, vals: seq<PubKey>) returns (r: Updates)
    ensures r == if Decodable(vals) then Ok(updates + Ones(Without(vals, Elems(Keys(updates))))) else Err(BadKey)
  {
    var existing := KeySet(Keys(updates));
    var all := updates;
    assert Equalised(updates, vals[..0], existing) == updates;
    for i := 0 to |vals|
      invariant all == Equalised(updates, vals[..i], existing)
      invariant Decodable(vals[..i])
    {
      if !vals[i].decodable { return Err(BadKey); }
      EqualisedNext(updates, vals, i, existing);
      if vals[i] !in existing {
        all := all + [ValidatorUpdate(vals[i], 1)];
      }
    }
    assert vals[..|vals|] == vals;
    return Ok(all);
  }

  class Keeper {
    const authority: string
    var migration: Option<RollkitMigration>
    var migrationStep: Option<uint64>
    var sequencer: Option<PubKey>

    function View(): Store
      reads this
    {
      Store(migration, migrationStep, sequencer)
    }

    constructor (authority: string)
      ensures View() == Store(None, None, None) && this.authority == authority
    {
      this.authority := authority;
      migration, migrationStep, sequencer := None, None, None;
    }

    /** Opens a migration; false is one of the two error returns. */
    method MigrateToRollkit(sender: string, msg: RollkitMigration, height: int64) returns (ok: bool)
      modifies this`migration
      ensures ok <==> sender == authority && msg.blockHeight >= ToUint64(height)
      ensures migration == if ok then Some(msg) else old(migration)
    {
      if authority != sender { return false; }
      if msg.blockHeight < ToUint64(height) { return false; }
      migration := Some(msg);
      return true;
    }

    method PreBlocker(height: int64, ibc: bool) returns (halt: bool)
      modifies this`migration
      ensures (View(), halt) == PreBlockerSpec(old(View()), height, ibc)
    {
      var (_, end, _) := IsMigrating(View(), height, ibc);
      if end > 0 && Uint64(end + 1) == ToUint64(height) {
        migration := None;
        return true;
      }
      return false;
    }

    method EndBlock(height: int64, ibc: bool, vals: seq<PubKey>) returns (r: Updates)
      modifies this
      ensures (View(), r) == EndBlockSpec(old(View()), height, ibc, vals)
    {
      var (start, _, migrating) := IsMigrating(View(), height, ibc);
      if !migrating || start > ToUint64(height) { return Ok([]); }
      if !ibc {
        r := MigrateNow(migration.value, vals);
      } else {
        r := MigrateOver(migration.value, vals);
      }
    }

    method MigrateNow(m: RollkitMigration, vals: seq<PubKey>) returns (r: Updates)
      modifies this`sequencer
      ensures (View(), r) == MigrateNowSpec(old(View()), m, vals)
    {
      if |m.attesters| == 0 {
        r := MigrateToSequencer(m, vals);
      } else {
        r := MigrateToAttesters(m, vals);
      }
      if r.Err? { return; }
      sequencer := Some(m.sequencer);
    }

    method MigrateOver(m: RollkitMigration, vals: seq<PubKey>) returns (r: Updates)
      modifies this`migrationStep, this`sequencer
      ensures (View(), r) == MigrateOverSpec(old(View()), m, vals)
    {
      var step := if migrationStep.Some? then migrationStep.value else 0;
      if step >= SMOOTHING {
        migrationStep := None;
        r := MigrateNow(m, vals);
        return;
      }
      r := Smooth(m, vals, step);
      if r.Err? { return; }
      migrationStep := Some(step + 1);
      if step == 0 {
        r := Equalise(r.value, vals);
      }
    }
  }
}
